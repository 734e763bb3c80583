/** Concatenation of a list of sequences. A session uses it twice: the frame
    log is its chunks put end to end (all_frames.extend(frames) once per
    pass), and the audio payload of a list of frames is their bytes put end
    to end (b''.join(frames)). */
module Seqs {

  /** The sum of the lengths of the parts. */
  function TotalLength<T>(parts: seq<seq<T>>): nat
  {
    if parts == [] then 0 else TotalLength(parts[..|parts| - 1]) + |parts[|parts| - 1]|
  }

  /** The parts, in order, end to end. */
  function Concat<T>(parts: seq<seq<T>>): seq<T>
  {
    if parts == [] then [] else Concat(parts[..|parts| - 1]) + parts[|parts| - 1]
  }

  /** The concatenation holds as many elements as all parts together. */
  lemma {:induction false} ConcatLength<T>(parts: seq<seq<T>>)
    ensures |Concat(parts)| == TotalLength(parts)
  {
    if parts != [] {
      ConcatLength(parts[..|parts| - 1]);
    }
  }

  /** Adding one more part appends exactly that part. */
  lemma ConcatSnoc<T>(parts: seq<seq<T>>, p: seq<T>)
    ensures Concat(parts + [p]) == Concat(parts) + p
  {
    assert (parts + [p])[..|parts|] == parts;
  }

  /** The concatenation of two runs of parts is the first run's followed by
      the second run's. */
  lemma {:induction false} ConcatAppend<T>(a: seq<seq<T>>, b: seq<seq<T>>)
    ensures Concat(a + b) == Concat(a) + Concat(b)
    decreases |b|
  {
    if b == [] {
      assert a + b == a;
    } else {
      var init, last := b[..|b| - 1], b[|b| - 1];
      assert a + b == (a + init) + [last];
      assert b == init + [last];
      ConcatSnoc(a + init, last);
      ConcatAppend(a, init);
      ConcatSnoc(init, last);
    }
  }

  /** The concatenation of each group of parts. */
  function ConcatEach<T>(groups: seq<seq<seq<T>>>): seq<seq<T>>
  {
    seq(|groups|, k requires 0 <= k < |groups| => Concat(groups[k]))
  }

  /** Concatenating the groups and then their parts gives the same as
      concatenating each group and then the results. */
  lemma {:induction false} ConcatOfConcats<T>(groups: seq<seq<seq<T>>>)
    ensures Concat(Concat(groups)) == Concat(ConcatEach(groups))
    decreases |groups|
  {
    if groups != [] {
      var init, last := groups[..|groups| - 1], groups[|groups| - 1];
      ConcatOfConcats(init);
      ConcatAppend(Concat(init), last);
      assert ConcatEach(groups) == ConcatEach(init) + [Concat(last)];
      ConcatSnoc(ConcatEach(init), Concat(last));
    }
  }
}
