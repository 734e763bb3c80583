/** The capture-and-log state machine of LiveTranscriber
    (live_transcribe.py).

    The session object owns the chunk buffer `frames`, the session frame log
    `allFrames`, the ordered list of chunk transcriptions `allTranscriptions`
    and the recording flag. The capture thread repeatedly fills a chunk of at
    most FramesPerChunk frames, appends it to the frame log and, when the
    chunk is non-empty and the flag is still up, appends the chunk's
    transcription. close() turns the two logs into the three artefacts.

    The model is sequential. The input stream is a function `mic` (the i-th
    read returns mic(i)), the speech engine a function `engine` from audio to
    segment texts, and the moment the controlling thread clears the flag is
    the number `stopAfter` of flag reads by the capture thread that still see
    it set. Once cleared the flag is never set again, so this one number
    covers every way the stop can land relative to the capture thread's flag
    reads. Every stream read that follows a flag read that saw the flag up
    is taken to succeed, even when the stop closes the stream meanwhile.

    Products and closed forms write FramesPerChunk and PollsPerPass as the
    literals 78 and 80: a product with a named constant is nonlinear
    arithmetic to the verifier, and a literal one is not. */
module LiveTranscribe {
  import opened Seqs
  import opened Audio
  import opened Text

  datatype Option<T> = None | Some(value: T)

  /** The input stream: not opened yet, open and running, or stopped and
      closed. */
  datatype StreamState = NoStream | Active | Closed

  /** What close() writes: the complete audio (absent when no frame was
      captured), the incremental transcript and the full transcript. */
  datatype Artifacts = Artifacts(completeAudio: Option<seq<byte>>, incremental: string, full: string)

  function Min(a: int, b: int): int
  {
    if a <= b then a else b
  }

  /** The k-th chunk of FramesPerChunk consecutive reads. */
  function ChunkWindow(mic: nat -> Frame, k: nat): seq<Frame>
  {
    MicFrames(mic, 78 * k, 78 * (k + 1))
  }

  /** The first n chunk windows. */
  function Windows(mic: nat -> Frame, n: nat): seq<seq<Frame>>
  {
    seq(n, k requires 0 <= k < n => ChunkWindow(mic, k))
  }

  /** The transcriptions of the first n chunk windows. */
  function WindowTranscripts(mic: nat -> Frame, engine: seq<Frame> -> seq<string>, n: nat): seq<string>
  {
    seq(n, k requires 0 <= k < n => JoinSpaces(engine(ChunkWindow(mic, k))))
  }

  /** The flag reads of one pass that ends with the flag still up: the loop
      test, one before each of the FramesPerChunk frames, and the test before
      transcribing; 80, written as that literal in products. */
  const PollsPerPass: nat := FramesPerChunk + 2

  /** The frames the capture loop reads in all when, counting from its first
      loop test, n reads of the flag still see it up. */
  function FramesBeforeStop(n: nat): nat
  {
    if n == 0 then 0
    else if n < PollsPerPass then Min(FramesPerChunk, n - 1)
    else FramesPerChunk + FramesBeforeStop(n - PollsPerPass)
  }

  /** The chunks the capture loop transcribes in all under the same stop. */
  function PassesBeforeStop(n: nat): nat
  {
    if n < PollsPerPass then 0 else 1 + PassesBeforeStop(n - PollsPerPass)
  }

  /** The schedule in closed form: every PollsPerPass flag reads that see the
      flag up make one full, transcribed chunk, and the reads left over make
      a last chunk of one frame fewer than them, at most FramesPerChunk. */
  lemma {:induction false} StopScheduleClosedForm(n: nat)
    ensures PassesBeforeStop(n) == n / 80
    ensures FramesBeforeStop(n) == 78 * (n / 80) + (if n % 80 == 0 then 0 else Min(78, n % 80 - 1))
    decreases n
  {
    if n >= 80 {
      StopScheduleClosedForm(n - 80);
      assert n / 80 == (n - 80) / 80 + 1;
      assert n % 80 == (n - 80) % 80;
    }
  }

  /** k full passes that each end with the flag still up account for
      k * PollsPerPass flag reads, k * FramesPerChunk frames and k
      transcriptions of the schedule. */
  lemma {:induction false} ScheduleShift(n: nat, k: nat)
    requires 80 * k <= n
    ensures FramesBeforeStop(n) == 78 * k + FramesBeforeStop(n - 80 * k)
    ensures PassesBeforeStop(n) == k + PassesBeforeStop(n - 80 * k)
    decreases k
  {
    if k > 0 {
      ScheduleShift(n - PollsPerPass, k - 1);
    }
  }

  /** The last pass: after k full passes the loop test still sees the flag
      up, the pass reads f frames, and the loop then ends. The schedule has
      been read out exactly: k full chunks and f more frames, with the last
      chunk transcribed only when exactly one pass's worth of flag reads was
      left. */
  lemma ScheduleExit(n: nat, k: nat, f: nat)
    requires 80 * k < n <= 80 * (k + 1)
    requires f == Min(FramesPerChunk, n - 80 * k - 1)
    ensures FramesBeforeStop(n) == 78 * k + f
    ensures PassesBeforeStop(n) == k + (if n == 80 * (k + 1) then 1 else 0)
  {
    ScheduleShift(n, k);
    var m := n - 80 * k;
    if m == PollsPerPass {
      assert FramesBeforeStop(m - PollsPerPass) == 0 && PassesBeforeStop(m - PollsPerPass) == 0;
    }
  }

  /** No frame is read exactly when the stop is seen at the first or second
      flag read: the loop test or the test before the first frame. */
  lemma NothingReadBeforeStop(n: nat)
    ensures FramesBeforeStop(n) == 0 <==> n <= 1
  {
  }

  /** The session logs after readPos reads, given the chunk of every pass so
      far. */
  ghost predicate LogsValid(mic: nat -> Frame, engine: seq<Frame> -> seq<string>, allFrames: seq<Frame>,
                            allTranscriptions: seq<string>, chunkLog: seq<seq<Frame>>, readPos: nat)
  {
    // the frame log is the chunks, in order ...
    && allFrames == Concat(chunkLog)
    // ... and is every frame the stream delivered, in order
    && allFrames == MicFrames(mic, 0, readPos)
    // one transcription per chunk, except possibly the last chunk
    && |allTranscriptions| <= |chunkLog| <= |allTranscriptions| + 1
    // every transcribed chunk is the next window of reads, and its
    // transcription is the space-join of the engine's segments on it
    && chunkLog[..|allTranscriptions|] == Windows(mic, |allTranscriptions|)
    && allTranscriptions == WindowTranscripts(mic, engine, |allTranscriptions|)
    // only the last chunk can be partial
    && 78 * |allTranscriptions| <= readPos <= 78 * (|allTranscriptions| + 1)
  }

  /** A pass that starts with every chunk transcribed and reads a chunk of at
      most FramesPerChunk further frames keeps the logs valid, whether or not
      it transcribes the chunk, provided it transcribes only a full one. */
  lemma PassKeepsLogsValid(mic: nat -> Frame, engine: seq<Frame> -> seq<string>, allFrames: seq<Frame>,
                           allTranscriptions: seq<string>, chunkLog: seq<seq<Frame>>, readPos: nat,
                           chunk: seq<Frame>, transcribed: bool)
    requires LogsValid(mic, engine, allFrames, allTranscriptions, chunkLog, readPos)
    requires |chunkLog| == |allTranscriptions| && readPos == 78 * |chunkLog|
    requires |chunk| <= FramesPerChunk && chunk == MicFrames(mic, readPos, readPos + |chunk|)
    requires transcribed ==> |chunk| == FramesPerChunk
    ensures LogsValid(mic, engine, allFrames + chunk,
                      allTranscriptions + (if transcribed then [JoinSpaces(engine(chunk))] else []),
                      chunkLog + [chunk], readPos + |chunk|)
  {
    MicFramesSplit(mic, 0, readPos, readPos + |chunk|);
    ConcatSnoc(chunkLog, chunk);
    var n := |allTranscriptions|;
    var log := chunkLog + [chunk];
    assert chunkLog[..n] == chunkLog;
    if transcribed {
      assert chunk == ChunkWindow(mic, n);
      assert log[..n + 1] == chunkLog + [chunk];
      assert Windows(mic, n + 1) == Windows(mic, n) + [chunk];
      assert WindowTranscripts(mic, engine, n + 1) == WindowTranscripts(mic, engine, n) + [JoinSpaces(engine(chunk))];
    } else {
      assert log[..n] == chunkLog;
    }
  }

  /** Logs that were valid with every chunk transcribed, and are valid again
      after more reads and no fewer transcriptions, have only grown: the
      earlier frame log, chunk log and transcription list are prefixes of the
      later ones. */
  lemma LogsGrow(mic: nat -> Frame, engine: seq<Frame> -> seq<string>,
                 allFrames0: seq<Frame>, allTranscriptions0: seq<string>, chunkLog0: seq<seq<Frame>>, readPos0: nat,
                 allFrames: seq<Frame>, allTranscriptions: seq<string>, chunkLog: seq<seq<Frame>>, readPos: nat)
    requires LogsValid(mic, engine, allFrames0, allTranscriptions0, chunkLog0, readPos0)
    requires LogsValid(mic, engine, allFrames, allTranscriptions, chunkLog, readPos)
    requires |chunkLog0| == |allTranscriptions0| <= |allTranscriptions|
    requires readPos0 <= readPos
    ensures allFrames0 <= allFrames && allTranscriptions0 <= allTranscriptions && chunkLog0 <= chunkLog
  {
    MicFramesSplit(mic, 0, readPos0, readPos);
    var n0, n := |allTranscriptions0|, |allTranscriptions|;
    assert chunkLog0 == chunkLog0[..n0];
    assert Windows(mic, n0) == Windows(mic, n)[..n0];
    assert chunkLog[..n][..n0] == chunkLog[..n0];
    assert WindowTranscripts(mic, engine, n0) == WindowTranscripts(mic, engine, n)[..n0];
  }

  class LiveTranscriber {
    const mic: nat -> Frame
    const engine: seq<Frame> -> seq<string>

    var frames: seq<Frame>
    var allFrames: seq<Frame>
    var allTranscriptions: seq<string>
    var isRecording: bool
    var stream: StreamState
    var threadStarted: bool

    // the environment: reads taken from the stream, flag reads made by the
    // capture thread, and the flag read from which on the stop is seen
    var readPos: nat
    var polls: nat
    var stopAfter: nat

    /** The chunk of every pass so far, in order. */
    ghost var chunkLog: seq<seq<Frame>>

    /** The flag is only up while the stream runs and the capture thread
        exists, and only before the stop request. */
    ghost predicate FlagValid()
      reads this
    {
      isRecording ==> polls <= stopAfter && stream == Active && threadStarted
    }

    ghost predicate Valid()
      reads this
    {
      && FlagValid()
      && LogsValid(mic, engine, allFrames, allTranscriptions, chunkLog, readPos)
      && (isRecording ==> |chunkLog| == |allTranscriptions| && readPos == 78 * |chunkLog|)
      && (!threadStarted ==> chunkLog == [] && readPos == 0 && stream == NoStream)
    }

    /** __init__: empty buffers, flag down, no stream, no thread. */
    constructor (mic: nat -> Frame, engine: seq<Frame> -> seq<string>)
      ensures Valid()
      ensures this.mic == mic && this.engine == engine
      ensures frames == [] && allFrames == [] && allTranscriptions == [] && chunkLog == []
      ensures !isRecording && stream == NoStream && !threadStarted
    {
      this.mic := mic;
      this.engine := engine;
      frames, allFrames, allTranscriptions := [], [], [];
      isRecording, stream, threadStarted := false, NoStream, false;
      readPos, polls, stopAfter := 0, 0, 0;
      chunkLog := [];
    }

    /** start_recording: raises the flag, opens the stream and starts the
        capture thread; the stop request will be seen from the capture
        thread's (stopAfter + 1)-th read of the flag on. */
    method StartRecording(stopAfter: nat)
      requires Valid() && !threadStarted
      modifies this`isRecording, this`stream, this`threadStarted, this`polls, this`stopAfter
      ensures Valid()
      ensures isRecording && stream == Active && threadStarted
      ensures this.stopAfter == stopAfter && polls == 0
    {
      isRecording := true;
      stream := Active;
      threadStarted := true;
      this.stopAfter, polls := stopAfter, 0;
    }

    /** One read of is_recording by the capture thread. */
    method ObserveFlag() returns (on: bool)
      requires FlagValid()
      modifies this`isRecording, this`polls
      ensures FlagValid()
      ensures on == isRecording == (old(isRecording) && old(polls) < stopAfter)
      ensures polls == old(polls) + 1
    {
      if polls >= stopAfter {
        isRecording := false;
      }
      polls := polls + 1;
      on := isRecording;
    }

    /** The frame-reading loop of one pass: empty the chunk buffer, then up to
        FramesPerChunk times read the flag, stop at once if it is down, and
        otherwise read one frame into the buffer. */
    method FillChunk()
      requires FlagValid() && isRecording
      modifies this`frames, this`readPos, this`isRecording, this`polls
      ensures FlagValid()
      ensures readPos == old(readPos) + |frames|
      ensures frames == MicFrames(mic, old(readPos), readPos)
      // as many frames as flag reads that saw the flag up, at most a chunk
      ensures |frames| == Min(FramesPerChunk, stopAfter - old(polls))
      // the flag stays up only if the chunk is full
      ensures isRecording == (|frames| == FramesPerChunk)
      ensures polls == old(polls) + |frames| + (if isRecording then 0 else 1)
    {
      frames := [];
      var i := 0;
      while i < FramesPerChunk
        invariant 0 <= i <= FramesPerChunk
        invariant isRecording && FlagValid()
        invariant polls == old(polls) + i && readPos == old(readPos) + i
        invariant frames == MicFrames(mic, old(readPos), readPos)
      {
        var on := ObserveFlag();
        if !on {
          break;
        }
        var data := mic(readPos);   // stream.read(...)
        readPos := readPos + 1;
        frames := frames + [data];
        i := i + 1;
      }
    }

    /** One pass of transcribe_continuously, entered with the flag up: fill
        the chunk, append it to the frame log and, if it is non-empty and the
        flag still up, append its transcription. */
    method CapturePass()
      requires Valid() && isRecording
      modifies this`frames, this`readPos, this`isRecording, this`polls, this`allFrames,
        this`allTranscriptions, this`chunkLog
      ensures Valid()
      // the chunk is bounded, and full unless the stop was seen during it
      ensures |frames| == Min(FramesPerChunk, stopAfter - old(polls))
      ensures |frames| < FramesPerChunk ==> !isRecording
      // the chunk is the next reads of the stream, and extends the frame log
      ensures old(readPos) <= readPos
      ensures frames == MicFrames(mic, old(readPos), readPos)
      ensures allFrames == old(allFrames) + frames
      ensures chunkLog == old(chunkLog) + [frames]
      // the flag is still up afterwards exactly when the stop has not landed
      // by the read before transcribing
      ensures isRecording == (old(polls) + |frames| < stopAfter)
      // a transcription is appended exactly when the chunk is non-empty and
      // the stop has not landed
      ensures allTranscriptions ==
        old(allTranscriptions) + (if |frames| > 0 && isRecording then [JoinSpaces(engine(frames))] else [])
      // one flag read per frame, one that sees the stop inside the chunk, and
      // one before transcribing a non-empty chunk
      ensures polls == old(polls) + |frames| + (if |frames| < FramesPerChunk then 1 else 0) + (if |frames| > 0 then 1 else 0)
    {
      ghost var p0 := polls;
      FillChunk();
      assert |frames| == Min(FramesPerChunk, stopAfter - p0);
      ghost var transcribed := |frames| > 0 && old(polls) + |frames| < stopAfter;
      PassKeepsLogsValid(mic, engine, allFrames, allTranscriptions, chunkLog, old(readPos), frames, transcribed);
      allFrames := allFrames + frames;
      chunkLog := chunkLog + [frames];

      if |frames| > 0 {
        var on := ObserveFlag();
        if on {
          var transcription := JoinSpaces(engine(frames));
          allTranscriptions := allTranscriptions + [transcription];
        }
      }
    }

    /** The passes of transcribe_continuously once its first loop test has
        seen the flag up: a pass, then the loop test, for as long as that
        test sees the flag up. With n the flag reads that see the flag up
        counted from that first loop test, the schedule fixes how much is
        read and transcribed. */
    method CaptureWhileRecording()
      requires Valid() && isRecording && polls > 0
      modifies this`frames, this`readPos, this`isRecording, this`polls, this`allFrames,
        this`allTranscriptions, this`chunkLog
      ensures Valid() && !isRecording
      ensures readPos == old(readPos) + FramesBeforeStop(stopAfter - old(polls) + 1)
      ensures |allTranscriptions| == |old(allTranscriptions)| + PassesBeforeStop(stopAfter - old(polls) + 1)
    {
      ghost var n0: nat := stopAfter - polls + 1;
      // full passes so far, each ended by a loop test that saw the flag up
      ghost var passes: nat := 0;
      var on := true;
      while on
        invariant Valid() && on == isRecording
        // (80 flag reads and 78 frames per full pass)
        invariant on ==> 80 * passes < n0 && polls == old(polls) + 80 * passes
        invariant on ==> readPos == old(readPos) + 78 * passes
        invariant on ==> |allTranscriptions| == |old(allTranscriptions)| + passes
        invariant !on ==> readPos == old(readPos) + FramesBeforeStop(n0)
        invariant !on ==> |allTranscriptions| == |old(allTranscriptions)| + PassesBeforeStop(n0)
        decreases stopAfter - polls
      {
        CapturePass();
        on := ObserveFlag();
        if on {
          passes := passes + 1;
        } else {
          ScheduleExit(n0, passes, |frames|);
        }
      }
    }

    /** transcribe_continuously: passes while the flag is seen up. The logs only
        grow, afterwards the flag is down, and how much is read and
        transcribed is fixed by when the stop lands. */
    method TranscribeContinuously()
      requires Valid()
      modifies this`frames, this`readPos, this`isRecording, this`polls, this`allFrames,
        this`allTranscriptions, this`chunkLog
      ensures Valid() && !isRecording
      ensures old(chunkLog) <= chunkLog
      ensures old(allFrames) <= allFrames
      ensures old(allTranscriptions) <= allTranscriptions
      // with the flag down nothing happens; with it up, how much is read and
      // transcribed is fixed by how many flag reads still see it up
      ensures !old(isRecording) ==> readPos == old(readPos) && allTranscriptions == old(allTranscriptions)
      ensures old(isRecording) ==>
        && readPos == old(readPos) + FramesBeforeStop(stopAfter - old(polls))
        && |allTranscriptions| == |old(allTranscriptions)| + PassesBeforeStop(stopAfter - old(polls))
      // a stop seen at one of the first two flag reads leaves nothing read
      ensures readPos == old(readPos) <==> !(old(isRecording) && old(polls) + 1 < stopAfter)
    {
      ghost var n0: nat := if isRecording then stopAfter - polls else 0;
      var on := ObserveFlag();
      if on {
        CaptureWhileRecording();
        LogsGrow(mic, engine, old(allFrames), old(allTranscriptions), old(chunkLog), old(readPos),
                 allFrames, allTranscriptions, chunkLog, readPos);
      }
      NothingReadBeforeStop(n0);
    }

    /** stop_recording: lowers the flag. When there is a stream it asks
        whether the stream is active: a running stream is stopped and closed,
        while asking a stream that is already closed raises, which ends the
        call before the join. Otherwise it joins the capture thread if one
        was started. The frame and transcription logs are left alone. */
    method StopRecording() returns (streamStopped: bool, joined: bool, raised: bool)
      requires Valid()
      modifies this`isRecording, this`stream
      ensures Valid()
      ensures !isRecording
      ensures raised == (old(stream) == Closed)
      ensures streamStopped == (old(stream) == Active)
      ensures stream == (if old(stream) == Active then Closed else old(stream))
      ensures joined == (threadStarted && !raised)
    {
      isRecording := false;
      streamStopped, joined, raised := false, false, false;
      if stream == Closed {
        raised := true;
        return;
      }
      if stream == Active {
        stream := Closed;
        streamStopped := true;
      }
      joined := threadStarted;
    }

    /** close: stops recording, then assembles the three artefacts from the
        logs; nothing is assembled when stopping raises. */
    method Close() returns (art: Option<Artifacts>)
      requires Valid()
      modifies this`isRecording, this`stream
      ensures Valid() && !isRecording
      ensures stream == (if old(stream) == Active then Closed else old(stream))
      ensures art.None? <==> old(stream) == Closed
      // the payload written is b''.join of the frame log
      ensures art.Some? ==> art.value.completeAudio == (if allFrames == [] then None else Some(Concat(allFrames)))
      ensures art.Some? ==> art.value.incremental == IncrementalText(allTranscriptions)
      ensures art.Some? ==> art.value.full == FullTranscript(engine(allFrames))
    {
      var _, _, raised := StopRecording();
      if raised {
        return None;
      }
      var audio := if allFrames != [] then Some(Concat(allFrames)) else None;
      var incremental := RenderIncremental(allTranscriptions);
      var full := AssembleFullTranscript(engine(allFrames));
      art := Some(Artifacts(audio, incremental, full));
    }
  }

  /** stop_recording called twice. Before start_recording neither call has a
      stream or a thread to act on. After it the first call stops the stream
      if it is running, and the second one then finds a closed stream and
      raises. */
  method StopRecordingTwice(t: LiveTranscriber)
    returns (stopped: bool, firstJoined: bool, firstRaised: bool, secondJoined: bool, secondRaised: bool)
    requires t.Valid()
    modifies t`isRecording, t`stream
    ensures t.Valid() && !t.isRecording
    ensures stopped == (old(t.stream) == Active)
    ensures firstRaised == (old(t.stream) == Closed)
    ensures firstJoined == (old(t.threadStarted) && old(t.stream) != Closed)
    // after a stop that did not raise, the second stop joins only when
    // there is a thread but no stream (which start_recording never leaves)
    ensures secondRaised == (old(t.stream) != NoStream)
    ensures secondJoined == (old(t.threadStarted) && old(t.stream) == NoStream)
    ensures t.stream == (if old(t.stream) == NoStream then NoStream else Closed)
    ensures !old(t.threadStarted) ==> !stopped && !firstJoined && !firstRaised && !secondRaised && t.stream == NoStream
  {
    var s2;
    stopped, firstJoined, firstRaised := t.StopRecording();
    s2, secondJoined, secondRaised := t.StopRecording();
  }

  /** stop_recording followed by close, which stops again: after start the
      second stop raises, so close writes nothing. Before start close still
      assembles the artefacts of the empty logs. */
  method StopThenClose(t: LiveTranscriber) returns (art: Option<Artifacts>)
    requires t.Valid()
    modifies t`isRecording, t`stream
    ensures t.Valid() && !t.isRecording
    ensures art.None? <==> old(t.stream) != NoStream
    ensures t.stream == (if old(t.stream) == NoStream then NoStream else Closed)
  {
    var _, _, _ := t.StopRecording();
    art := t.Close();
  }

  /** The incremental-transcript file as close() writes it, one
      f.write(transcription + "\n") per transcription. */
  method RenderIncremental(transcriptions: seq<string>) returns (text: string)
    ensures text == IncrementalText(transcriptions)
  {
    text := "";
    for k := 0 to |transcriptions|
      invariant text == IncrementalText(transcriptions[..k])
    {
      assert transcriptions[..k + 1][..k] == transcriptions[..k];
      text := text + transcriptions[k] + "\n";
    }
    assert transcriptions[..|transcriptions|] == transcriptions;
  }

  /** The full transcript as close() builds it: append every segment text and
      a space, then strip. */
  method AssembleFullTranscript(segments: seq<string>) returns (full: string)
    ensures full == FullTranscript(segments)
  {
    full := "";
    for k := 0 to |segments|
      invariant full == SpacedConcat(segments[..k])
    {
      assert segments[..k + 1][..k] == segments[..k];
      full := full + segments[k] + " ";
    }
    assert segments[..|segments|] == segments;
    full := Strip(full);
  }

  /** A whole session as main drives it: construct, start, let the capture
      thread run until it sees the stop, then close. The frame log is the
      first framesRead reads; the i-th incremental line is the transcription
      of the i-th window of FramesPerChunk reads; only the last chunk may be
      partial or untranscribed; how many frames are read and how many chunks
      transcribed is fixed by when the stop lands. */
  method RunSession(mic: nat -> Frame, engine: seq<Frame> -> seq<string>, stopAfter: nat)
    returns (art: Artifacts, framesRead: nat, transcribed: nat)
    ensures framesRead == FramesBeforeStop(stopAfter) && transcribed == PassesBeforeStop(stopAfter)
    // in closed form: one full, transcribed chunk per 80 flag reads
    ensures transcribed == stopAfter / 80
    ensures framesRead == 78 * (stopAfter / 80) + (if stopAfter % 80 == 0 then 0 else Min(78, stopAfter % 80 - 1))
    ensures 78 * transcribed <= framesRead <= 78 * (transcribed + 1)
    ensures art.completeAudio == (if framesRead == 0 then None else Some(Concat(MicFrames(mic, 0, framesRead))))
    ensures art.incremental == IncrementalText(WindowTranscripts(mic, engine, transcribed))
    ensures art.full == FullTranscript(engine(MicFrames(mic, 0, framesRead)))
    ensures framesRead == 0 <==> stopAfter <= 1
  {
    var t := new LiveTranscriber(mic, engine);
    t.StartRecording(stopAfter);
    t.TranscribeContinuously();
    framesRead, transcribed := t.readPos, |t.allTranscriptions|;
    assert framesRead == FramesBeforeStop(stopAfter) && transcribed == PassesBeforeStop(stopAfter);
    StopScheduleClosedForm(stopAfter);
    var result := t.Close();
    art := result.value;
  }
}
