# LiveTranscriber capture-and-log model

A Dafny model of the capture-and-log state machine of `LiveTranscriber` in
`live_transcribe.py`, with proofs about it. This is the part of vox-locus
that records microphone audio in 5-second chunks, transcribes each chunk as
it arrives, and at close writes three files: the complete audio, the
incremental transcript and the full transcript.

The model has four modules:

- `Seqs` (`seqs.dfy`) holds the concatenation of a list of sequences
  (`Concat`). The source uses it twice. The frame log is its chunks put end
  to end, one `extend` per pass. The PCM payload of a list of frames is
  their bytes put end to end, the `b''.join(frames)` of `save_audio`.
- `Audio` (`audio.dfy`) holds the capture constants: 16000 Hz, 1024-sample
  frames, 5-second chunks, so 78 frames per chunk. It also has the stretch
  of stream reads `from` to `to - 1` (`MicFrames`).
- `Text` (`text.dfy`) holds three things. The first is the chunk
  transcription `" ".join(...)` (`JoinSpaces`). The second is Python's
  `str.strip()` over exactly the characters `str.isspace()` accepts
  (`IsSpace`, `Strip`), with an independent definition (`IsStripOf`) it is
  proved equal to. The third is the two close-time texts. Both are built as
  each part followed by a terminator (`Terminated`). The incremental
  transcript (`IncrementalText`, ending each line with a newline) has a line
  reader (`ParseLines`) that reads it back. The full transcript
  (`SpacedConcat`, ending each segment with a space, then `FullTranscript`)
  is stripped.
- `LiveTranscribe` (`live_transcribe.dfy`) holds the class `LiveTranscriber`.
  Its fields are the ones the source mutates: `frames`, `allFrames`,
  `allTranscriptions`, `isRecording`, the stream state and whether the
  capture thread was started. Its methods are `StartRecording`, one pass of
  the capture loop (`FillChunk` and `CapturePass`), the loop itself
  (`TranscribeContinuously`, whose passes after the first loop test are
  `CaptureWhileRecording`), `StopRecording` and `Close`. The two text loops
  of `close()` are `RenderIncremental` and `AssembleFullTranscript`.
  `StopRecordingTwice` and `StopThenClose` call the stop twice.
  `RunSession` is the whole session that `main` drives.

Inputs that the source gets from the outside become parameters:

- The input stream is a function `mic: nat -> Frame`: read number `i`
  returns `mic(i)`.
- The speech engine is an uninterpreted function
  `engine: seq<Frame> -> seq<string>` from audio to segment texts.
- The stop request from the controlling thread is a number `stopAfter`. It
  counts how many reads of `is_recording` by the capture thread still see
  the flag set. Once cleared, the flag is never set again. So this one
  number covers every way a single stop can land relative to the three
  places the loop reads the flag. `ObserveFlag` makes each of those reads.
  It clears the flag exactly at the read where the stop has landed. The
  model keeps the short-circuit of `self.frames and self.is_recording`: the
  flag is not read there when the chunk is empty.

A full pass that ends with the flag still up makes 80 flag reads: the loop
test, one before each of the 78 frames, and the test before transcribing.
So `stopAfter` fixes the whole capture. `FramesBeforeStop(stopAfter)` frames
are read: 78 for every 80 flag reads. When `stopAfter % 80 > 0`, the reads
left over make one more chunk of `Min(78, stopAfter % 80 - 1)` frames, which
is not transcribed; when it is 0, the next loop test sees the flag down and
no further chunk exists. `PassesBeforeStop(stopAfter)`, that is
`stopAfter / 80`, chunks are transcribed.

The object invariant `Valid` says:

- the frame log is the concatenation of the chunk of every pass (a ghost
  `chunkLog`);
- the frame log is also exactly the first `readPos` reads of the stream;
- transcription `k` is the space-join of the engine's output on chunk `k`,
  and that chunk is the `k`-th full window of 78 reads;
- at most 78 reads follow the transcribed windows, so only the last chunk
  can be partial;
- only the last chunk can be untranscribed, and only once the flag is down.

## Model

| member | source | states |
|---|---|---|
| Seqs.ConcatSnoc | live_transcribe.py:72 | Extending the frame log by a chunk appends exactly that chunk. |
| Seqs.ConcatAppend | live_transcribe.py:72 | The frame log of two runs of passes is the first run's log followed by the second run's log. |
| Seqs.ConcatLength | live_transcribe.py:72 | The frame log holds as many frames as all chunks together. |
| Seqs.ConcatOfConcats | live_transcribe.py:101 | Byte for byte, the `b''.join` payload of the whole frame log is the payloads of the chunks, in capture order. |
| Audio.FramesPerChunkValue | live_transcribe.py:66 | 78 frames per chunk is the integer quotient of 16000 * 5 by 1024. 78 frames of 1024 samples fit in 5 seconds of audio, and 79 do not. |
| Audio.MicFramesSplit | live_transcribe.py:69-72 | Two consecutive stretches of reads, put together, are the combined stretch. Nothing is lost, repeated or reordered where one chunk ends and the next begins. |
| Text.IsSpace | live_transcribe.py:140 | The characters `strip()` removes: exactly those `str.isspace()` accepts (the ASCII whitespace, the separators U+001C to U+001F, and the Unicode spaces and line and paragraph separators). It is a definition, and `Strip`'s row states what is proved with it. |
| Text.LeadingSpace | live_transcribe.py:140 | Gives the length of the longest all-whitespace prefix: that prefix is all whitespace, and the next character is not. |
| Text.TrailingSpace | live_transcribe.py:140 | Gives the length of the longest all-whitespace suffix: that suffix is all whitespace, and the character before it is not. |
| Text.LeadingSpaceOf | live_transcribe.py:140 | A whitespace prefix in front of a non-whitespace character is exactly the leading whitespace. |
| Text.TrailingSpaceOf | live_transcribe.py:140 | A whitespace suffix after a non-whitespace character is exactly the trailing whitespace. |
| Text.Strip | live_transcribe.py:140 | `strip()` returns a middle part of the input. Only whitespace (the `IsSpace` characters, those `str.isspace()` accepts) is cut before and after it, and the part neither starts nor ends with whitespace. |
| Text.StripAtUnique | live_transcribe.py:140 | Any string with the properties above, at any position, equals `Strip` of the input: the characterisation defines strip uniquely. |
| Text.StripOfUnique | live_transcribe.py:140 | The same uniqueness for the existential form `IsStripOf`. |
| Text.StripIdempotent | live_transcribe.py:140 | Stripping a stripped string changes nothing. |
| Text.StripAppendSpace | live_transcribe.py:139-140 | Whitespace appended to a string disappears under strip. |
| Text.JoinSpaces | live_transcribe.py:81 | Zero segments give "". Otherwise the result is as long as all the segments plus one space between each pair of neighbours. |
| Text.JoinSpacesSingle | live_transcribe.py:81 | The join of one segment is that segment. |
| Text.JoinSpacesConcat | live_transcribe.py:81 | The join of two non-empty lists is their two joins with one space between. With the row above, this determines the join entirely, order included. |
| Text.Terminated | live_transcribe.py:138-139 | Each part followed by one terminator character: the text is as long as all the parts plus one terminator per part. The `+=` loop uses a space, and the incremental file uses a newline. |
| Text.TerminatedConcat | live_transcribe.py:129-130 | The text for a list of parts is the text of its first part followed by the text of the rest. |
| Text.SpacedConcat | live_transcribe.py:134-139 | The `+=` loop's text: every segment text followed by a space. It is `Terminated` with a space, and it is the length statement there and `SpacedConcatIsJoinPlusSpace` that fix it. |
| Text.SpacedConcatIsJoinPlusSpace | live_transcribe.py:134-139 | For at least one segment, the close-time loop (each segment text followed by " ") builds the chunk-time join plus one trailing space. |
| Text.FullTranscript | live_transcribe.py:134-140 | The full transcript is the stripped space-join of the segments, also for no segments. It differs from a chunk transcription of the same segments only by surrounding whitespace. |
| Text.IncrementalText | live_transcribe.py:128-130 | The incremental file: every transcription followed by a newline. It is `Terminated` with a newline, so it holds every transcription plus one newline per transcription, and it splits over concatenation. |
| Text.LineEnd | live_transcribe.py:129-130 | Gives the position of the first newline, or the length when there is none; no newline comes before it. |
| Text.LineEndAt | live_transcribe.py:130 | In line + "\n" + rest, with no newline inside the line, the first newline is the one just after the line. |
| Text.IncrementalTextLines | live_transcribe.py:128-130 | When no transcription contains a newline, reading the incremental text back line by line gives the transcriptions, in order, one line each, empty ones included. |
| LiveTranscribe.StopScheduleClosedForm | live_transcribe.py:61-74 | Every 80 flag reads that see the flag up make one full, transcribed chunk of 78 frames. When `n % 80 > 0`, the reads left over make one more chunk of `Min(78, n % 80 - 1)` frames, not transcribed. When `n % 80 == 0`, the next loop test sees the flag down and no further chunk exists. |
| LiveTranscribe.ScheduleShift | live_transcribe.py:61-87 | k full passes account for 80 k flag reads, 78 k frames and k transcriptions, and the rest of the schedule is the schedule of the remaining flag reads. |
| LiveTranscribe.ScheduleExit | live_transcribe.py:61-87 | When the loop ends after k full passes and a last pass of f frames, the schedule has read exactly 78 k + f frames. The last chunk is transcribed exactly when the stop lands at the loop test right after it. |
| LiveTranscribe.NothingReadBeforeStop | live_transcribe.py:61-69 | No frame is read if and only if the stop is seen at the loop test or at the test before the first frame. |
| LiveTranscribe.PassKeepsLogsValid | live_transcribe.py:72-87 | A pass that appends at most 78 next reads as a chunk keeps the logs valid. It may transcribe the chunk only when the chunk is full. |
| LiveTranscribe.LogsGrow | live_transcribe.py:72-87 | Between two valid states, the earlier with every chunk transcribed, with more reads and no fewer transcriptions, the frame log, the chunk log and the transcription list have only grown: the earlier ones are prefixes of the later ones. |
| LiveTranscribe.LiveTranscriber.constructor | live_transcribe.py:33-39 | Starts with empty chunk buffer, frame log and transcription list, the flag down, no stream and no thread. |
| LiveTranscribe.LiveTranscriber.StartRecording | live_transcribe.py:41-57 | Raises the flag, opens the stream and starts the capture thread. The logs are untouched. |
| LiveTranscribe.LiveTranscriber.ObserveFlag | live_transcribe.py:61-74 | Returns the flag and keeps it. The flag reads as up only if it was up and the stop has not yet landed. |
| LiveTranscribe.LiveTranscriber.FillChunk | live_transcribe.py:63-70 | The buffer starts empty and gets the next reads of the stream, one per flag read that saw the flag up, and never more than 78. Once the flag is seen down, no frame is read. The flag stays up only if the chunk is full. |
| LiveTranscribe.LiveTranscriber.CapturePass | live_transcribe.py:61-87 | The chunk is bounded by 78, and full unless the stop was seen during it. The frame log becomes the old log followed by the chunk, even a partial one. The flag is still up afterwards exactly when the stop has not landed by the test before transcribing. The chunk's space-joined transcription is appended if and only if the chunk is non-empty and the stop has not landed by then. The flag reads made are one per frame, one that sees the stop inside the chunk, and one before transcribing a non-empty chunk. The invariant is kept. |
| LiveTranscribe.LiveTranscriber.CaptureWhileRecording | live_transcribe.py:61-87 | After a loop test that saw the flag up, passes run until a loop test sees it down. The frames read and the chunks transcribed are exactly those the schedule fixes for the remaining flag reads, and the flag ends down. |
| LiveTranscribe.LiveTranscriber.TranscribeContinuously | live_transcribe.py:59-93 | With the flag up, exactly `FramesBeforeStop` frames are read and `PassesBeforeStop` chunks transcribed for the flag reads that still see it up. With the flag down, nothing is read or transcribed. The frame log, the chunk log and the transcription list only grow, and the flag ends down. No frame is read if and only if the stop lands at one of the first two flag reads. |
| LiveTranscribe.LiveTranscriber.StopRecording | live_transcribe.py:104-114 | The flag ends down. A running stream is stopped and closed. Asking a closed stream whether it is active raises, which ends the call before the join. Otherwise the thread is joined only if one was started. The logs are untouched. |
| LiveTranscribe.StopRecordingTwice | live_transcribe.py:104-112 | After start, the first stop stops a running stream and joins the thread unless it raised. The second stop finds the stream closed, raises and does not join. The stream ends closed. Before start, neither stop touches a stream, joins or raises, and the stream stays absent. Only the flag and the stream change. |
| LiveTranscribe.StopThenClose | live_transcribe.py:104-125 | `stop_recording()` followed by `close()`: after start, the stop inside `close()` raises, so no artefact is written, and the stream ends closed. Before start, `close()` still returns the artefacts. |
| LiveTranscribe.LiveTranscriber.Close | live_transcribe.py:116-147 | Stops recording and leaves the stream as the stop does: a running stream is closed and any other state stays. Returns no artefacts exactly when the stop raises. Otherwise it writes complete audio only when the frame log is non-empty, and then it is the log's payload. It writes the incremental text of the transcription list and the full transcript of the engine's output on the whole log. |
| LiveTranscribe.RenderIncremental | live_transcribe.py:127-130 | The write loop produces exactly the incremental text of the list. |
| LiveTranscribe.AssembleFullTranscript | live_transcribe.py:134-140 | The `+=` loop followed by `strip()` produces exactly the full transcript of the segments. |
| LiveTranscribe.RunSession | live_transcribe.py:150-168 | End to end. Exactly `FramesBeforeStop(stopAfter)` frames are read and `stopAfter / 80` chunks transcribed, with `78 * transcribed <= framesRead <= 78 * (transcribed + 1)`. The frame log is the first `framesRead` reads, and line `i` of the incremental text transcribes reads `78*i` to `78*i + 77`. The complete audio is that log's payload when non-empty. The full transcript is the engine's output on the whole log. No frame is read if and only if the stop lands at one of the first two flag reads. |

## Left out

- PyAudio: opening, reading, stopping and closing the stream, and `audio.terminate()`. These are device calls. A read is the next value of `mic`.
- StopRecording: assumes that `is_active()` raises on a stream that was already closed, as PyAudio reports that stream as closed. PyAudio is not part of this model, so this is an assumption about it.
- StopRecordingTwice: its second call raising rests on the same assumption about `is_active()`. Under it, `stop_recording` is not idempotent. `stop_recording()` followed by `close()` raises at line 107 before any artefact is written (`StopThenClose`). `main` calls `close()` only once, so the session it drives is unaffected. Under the other reading, that `is_active()` answers false on a closed stream, a second stop would stop nothing and join the thread again.
- Exceptions: none is modelled besides the one above. An exception from `model.transcribe` (line 80) would end the capture thread after line 72 had logged the chunk, with no transcription appended. An exception from `stream.read` (line 69) would end it before line 72 logs anything.
- faster-whisper: loading the model and running inference. Both become the uninterpreted `engine`, and the `beam_size=5` argument has no effect on the model.
- `save_audio`, WAV headers, temporary files and their cleanup, the timestamped folder and the file writes. These are filesystem I/O. The model computes only the contents: the PCM payload and the two text files.
- Close: on a session with no frames, the source does not write `complete_audio.wav` but still transcribes that path, which is a filesystem failure. The model passes the empty frame log to `engine` instead.
- Threads: spawning, the daemon flag, and `join(timeout=1)`. The capture thread runs to completion before `StopRecording`, and `stopAfter` stands for when the stop lands relative to the capture thread's flag reads. The source's stop lowers the flag (line 106), then stops and closes the stream (lines 107-109), and only then joins (line 112). The capture thread can have passed its check at line 67 with the flag up and then read (line 69) from a stream being stopped or closed. If that read raised, the thread would end before line 72, and the partial chunk would never reach `all_frames`. The model assumes every read after a flag read that saw the flag up succeeds. So `CapturePass` and `RunSession` describe the interleavings where the stop's stream calls come after the thread's last read. The daemon thread can also outlive a timed-out join and append to the logs while close reads them. That race is not modelled either.
- StartRecording: requires that no capture thread has been started. A restart after a stop keeps the frame and transcription logs, and a partial last chunk would then shift every later chunk off the 78-read windows that `Valid` pins the logs to.
- Elapsed time (`time.time()`) and every `print`. The only console effect, printing non-empty transcriptions, does not change the state.
- `main`'s Ctrl+C loop: process control. `RunSession` stands for the sequence it drives.
- `record.py`: a standalone fixed-duration recording script, not part of this model.
- Text.IncrementalTextLines: reads the file back as its transcriptions only when no transcription contains a newline of its own. A transcription that does contain one spans several lines in the source's file as well.
