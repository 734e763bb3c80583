/** Capture parameters and the input stream of a live-transcription session.

    A frame is one device read: the bytes of 1024 16-bit mono samples. A chunk
    is the frames read in one pass of the capture loop; the session's frame
    log is the in-order concatenation (Seqs.Concat) of all chunks, and the
    audio payload of a list of frames is the concatenation of their bytes. */
module Audio {

  newtype byte = b: int | 0 <= b < 256

  /** The bytes one read of the input stream returns. */
  type Frame = seq<byte>

  const Rate: nat := 16000        // samples per second
  const ChunkSize: nat := 1024    // samples per frame (frames_per_buffer)
  const RecordSeconds: nat := 5   // seconds of audio per chunk

  /** Frames per chunk. The source computes int(16000 / 1024 * 5) in floating
      point, which is int(78.125) = 78; the integer quotient
      16000 * 5 / 1024 is the same 78 for these constants (lemma below). */
  const FramesPerChunk: nat := 78

  lemma FramesPerChunkValue()
    ensures FramesPerChunk == Rate * RecordSeconds / ChunkSize
    ensures FramesPerChunk * ChunkSize <= Rate * RecordSeconds < (FramesPerChunk + 1) * ChunkSize
  {
  }

  /** The reads from..to-1 of an input stream whose i-th read returns mic(i). */
  function MicFrames(mic: nat -> Frame, from: nat, to: nat): seq<Frame>
    requires from <= to
  {
    seq(to - from, i requires 0 <= i < to - from => mic(from + i))
  }

  /** Consecutive stretches of reads join into one stretch: nothing is lost,
      repeated or reordered at a chunk boundary. */
  lemma MicFramesSplit(mic: nat -> Frame, a: nat, b: nat, c: nat)
    requires a <= b <= c
    ensures MicFrames(mic, a, b) + MicFrames(mic, b, c) == MicFrames(mic, a, c)
  {
    var left, right, whole := MicFrames(mic, a, b), MicFrames(mic, b, c), MicFrames(mic, a, c);
    forall i | 0 <= i < |whole|
      ensures (left + right)[i] == whole[i]
    {
      if i < |left| {
        assert (left + right)[i] == left[i];
      } else {
        assert (left + right)[i] == right[i - |left|] == mic(b + (i - |left|));
      }
    }
  }
}
