/** The strings a live-transcription session assembles: a chunk's
    transcription (segment texts joined by single spaces), the incremental
    transcript (one line per chunk transcription) and the full transcript
    (each segment text followed by a space, then stripped). */
module Text {
  import opened Seqs

  /** The characters Python's str.strip() removes when given no argument
      (those for which str.isspace() holds). */
  predicate IsSpace(c: char)
  {
    c == ' ' || c == '\t' || c == '\n' || c == '\r' || c == '\U{0B}' || c == '\U{0C}'
    || ('\U{1C}' <= c <= '\U{1F}')
    || c == '\U{85}' || c == '\U{A0}' || c == '\U{1680}'
    || ('\U{2000}' <= c <= '\U{200A}')
    || c == '\U{2028}' || c == '\U{2029}' || c == '\U{202F}' || c == '\U{205F}' || c == '\U{3000}'
  }

  predicate AllSpace(s: string)
  {
    forall i | 0 <= i < |s| :: IsSpace(s[i])
  }

  /** The length of the longest all-whitespace prefix of s. */
  function LeadingSpace(s: string): (n: nat)
    ensures n <= |s| && AllSpace(s[..n])
    ensures n < |s| ==> !IsSpace(s[n])
  {
    if s == [] || !IsSpace(s[0]) then 0
    else
      var m := LeadingSpace(s[1..]);
      assert s[..m + 1] == [s[0]] + s[1..][..m];
      m + 1
  }

  /** The length of the longest all-whitespace suffix of s. */
  function TrailingSpace(s: string): (n: nat)
    ensures n <= |s| && AllSpace(s[|s| - n..])
    ensures n < |s| ==> !IsSpace(s[|s| - n - 1])
  {
    if s == [] || !IsSpace(s[|s| - 1]) then 0
    else
      var init := s[..|s| - 1];
      var m := TrailingSpace(init);
      assert s[|s| - (m + 1)..] == init[|init| - m..] + [s[|s| - 1]];
      m + 1
  }

  /** r is what remains of s after cutting the all-whitespace prefix s[..i]
      and an all-whitespace suffix, and r neither starts nor ends with
      whitespace. */
  predicate IsStripAt(r: string, s: string, i: nat)
  {
    && i + |r| <= |s|
    && s[i..i + |r|] == r
    && AllSpace(s[..i])
    && AllSpace(s[i + |r|..])
    && (r == [] || (!IsSpace(r[0]) && !IsSpace(r[|r| - 1])))
  }

  ghost predicate IsStripOf(r: string, s: string)
  {
    exists i: nat :: IsStripAt(r, s, i)
  }

  /** Python's str.strip(): s without leading and trailing whitespace. */
  function Strip(s: string): (r: string)
    ensures IsStripOf(r, s)
  {
    var a := LeadingSpace(s);
    if a == |s| then
      assert IsStripAt([], s, a);
      []
    else
      var b := TrailingSpace(s);
      var r := s[a..|s| - b];
      assert r[0] == s[a] && r[|r| - 1] == s[|s| - b - 1];
      assert IsStripAt(r, s, a);
      r
  }

  /** Whitespace prefix p in front of a non-whitespace character. */
  lemma {:induction false} LeadingSpaceOf(p: string, q: string)
    requires AllSpace(p) && (q == [] || !IsSpace(q[0]))
    ensures LeadingSpace(p + q) == |p|
    decreases |p|
  {
    if p == [] {
      assert p + q == q;
    } else {
      assert (p + q)[0] == p[0];
      assert (p + q)[1..] == p[1..] + q;
      LeadingSpaceOf(p[1..], q);
    }
  }

  /** Whitespace suffix q behind a non-whitespace character. */
  lemma {:induction false} TrailingSpaceOf(p: string, q: string)
    requires AllSpace(q) && (p == [] || !IsSpace(p[|p| - 1]))
    ensures TrailingSpace(p + q) == |q|
    decreases |q|
  {
    var pq := p + q;
    if q == [] {
      assert pq == p;
    } else {
      assert pq[|pq| - 1] == q[|q| - 1];
      assert pq[..|pq| - 1] == p + q[..|q| - 1];
      TrailingSpaceOf(p, q[..|q| - 1]);
    }
  }

  /** Only one string is a strip of s: IsStripOf is an independent
      definition of Strip. */
  lemma StripAtUnique(r: string, s: string, i: nat)
    requires IsStripAt(r, s, i)
    ensures r == Strip(s)
  {
    var pre, post := s[..i], s[i + |r|..];
    assert s == pre + r + post;
    if r == [] {
      assert s == pre + post;
      assert AllSpace(s) by {
        forall k | 0 <= k < |s| ensures IsSpace(s[k]) {
          if k < |pre| { assert s[k] == pre[k]; } else { assert s[k] == post[k - |pre|]; }
        }
      }
      LeadingSpaceOf(s, []);
      assert s + [] == s;
    } else {
      assert s == pre + (r + post);
      LeadingSpaceOf(pre, r + post);
      TrailingSpaceOf(pre + r, post);
      assert s[i..|s| - |post|] == r;
    }
  }

  lemma StripOfUnique(r: string, s: string)
    requires IsStripOf(r, s)
    ensures r == Strip(s)
  {
    var i: nat :| IsStripAt(r, s, i);
    StripAtUnique(r, s, i);
  }

  /** Stripping twice strips nothing more. */
  lemma StripIdempotent(s: string)
    ensures Strip(Strip(s)) == Strip(s)
  {
    var r := Strip(s);
    assert r[0..0 + |r|] == r && r[..0] == [] && r[0 + |r|..] == [];
    assert IsStripAt(r, r, 0);
    StripAtUnique(r, r, 0);
  }

  /** Trailing whitespace added to s disappears again under strip. */
  lemma StripAppendSpace(s: string, w: string)
    requires AllSpace(w)
    ensures Strip(s + w) == Strip(s)
  {
    var r := Strip(s);
    var i: nat :| IsStripAt(r, s, i);
    var sw := s + w;
    assert sw[i..i + |r|] == r;
    assert sw[..i] == s[..i];
    assert sw[i + |r|..] == s[i + |r|..] + w;
    assert IsStripAt(r, sw, i);
    StripAtUnique(r, sw, i);
  }

  /** " ".join(parts): the parts in order with one space between neighbours;
      no parts give the empty string. */
  function JoinSpaces(parts: seq<string>): (r: string)
    ensures parts == [] ==> r == ""
    ensures parts != [] ==> |r| == TotalLength(parts) + |parts| - 1
  {
    if parts == [] then ""
    else if |parts| == 1 then parts[0]
    else JoinSpaces(parts[..|parts| - 1]) + " " + parts[|parts| - 1]
  }

  /** The join of one part is that part, and the join of two non-empty lists
      is their joins with one space between: together these determine the
      join completely. */
  lemma JoinSpacesSingle(x: string)
    ensures JoinSpaces([x]) == x
  {
  }

  lemma {:induction false} JoinSpacesConcat(a: seq<string>, b: seq<string>)
    requires a != [] && b != []
    ensures JoinSpaces(a + b) == JoinSpaces(a) + " " + JoinSpaces(b)
    decreases |b|
  {
    var ab, init, last := a + b, b[..|b| - 1], b[|b| - 1];
    assert ab[..|ab| - 1] == a + init && ab[|ab| - 1] == last;
    if |b| == 1 {
      assert a + init == a;
    } else {
      JoinSpacesConcat(a, init);
      var p, q := JoinSpaces(a), JoinSpaces(init);
      assert JoinSpaces(ab) == p + " " + q + " " + last;
      assert p + " " + q + " " + last == p + " " + (q + " " + last);
    }
  }

  /** Each part followed by the terminator `end`, in order. */
  function Terminated(parts: seq<string>, end: char): (r: string)
    ensures |r| == TotalLength(parts) + |parts|
  {
    if parts == [] then "" else Terminated(parts[..|parts| - 1], end) + parts[|parts| - 1] + [end]
  }

  /** The text for a list of parts is the text of its first part followed by
      the text of the rest. */
  lemma {:induction false} TerminatedConcat(a: seq<string>, b: seq<string>, end: char)
    ensures Terminated(a + b, end) == Terminated(a, end) + Terminated(b, end)
    decreases |b|
  {
    if b == [] {
      assert a + b == a;
    } else {
      var ab, init, last := a + b, b[..|b| - 1], b[|b| - 1];
      assert ab[..|ab| - 1] == a + init && ab[|ab| - 1] == last;
      TerminatedConcat(a, init, end);
      var p, q := Terminated(a, end), Terminated(init, end);
      assert Terminated(ab, end) == p + q + last + [end];
      assert p + q + last + [end] == p + (q + last + [end]);
    }
  }

  /** The string the close-time loop builds: each part followed by one space
      (full_transcription += segment.text + " "). */
  function SpacedConcat(parts: seq<string>): string
  {
    Terminated(parts, ' ')
  }

  /** The close-time loop and the chunk-time join agree up to one trailing
      space. */
  lemma {:induction false} SpacedConcatIsJoinPlusSpace(parts: seq<string>)
    requires parts != []
    ensures SpacedConcat(parts) == JoinSpaces(parts) + " "
  {
    if |parts| > 1 {
      SpacedConcatIsJoinPlusSpace(parts[..|parts| - 1]);
    } else {
      assert parts[..0] == [];
    }
  }

  /** The full transcript saved at close: every segment text followed by a
      space, with leading and trailing whitespace then stripped. On the same
      segments it is the stripped chunk-time join, so it differs from a
      chunk transcription only by surrounding whitespace. */
  function FullTranscript(segments: seq<string>): (r: string)
    ensures r == Strip(JoinSpaces(segments))
  {
    if segments == [] then Strip(SpacedConcat(segments))
    else
      SpacedConcatIsJoinPlusSpace(segments);
      StripAppendSpace(JoinSpaces(segments), " ");
      Strip(SpacedConcat(segments))
  }

  /** The incremental-transcript file: each transcription followed by a
      newline, in list order. */
  function IncrementalText(lines: seq<string>): string
  {
    Terminated(lines, '\n')
  }

  predicate NoNewline(s: string)
  {
    forall i | 0 <= i < |s| :: s[i] != '\n'
  }

  /** The index of the first newline in s, or |s| when there is none. */
  function LineEnd(s: string): (n: nat)
    ensures n <= |s| && NoNewline(s[..n])
    ensures n < |s| ==> s[n] == '\n'
  {
    if s == [] || s[0] == '\n' then 0
    else
      var m := LineEnd(s[1..]);
      assert s[..m + 1] == [s[0]] + s[1..][..m];
      m + 1
  }

  /** Reads a text back as its lines (a final line without a newline still
      counts as a line). */
  function ParseLines(s: string): seq<string>
    decreases |s|
  {
    if s == [] then []
    else
      var n := LineEnd(s);
      if n == |s| then [s] else [s[..n]] + ParseLines(s[n + 1..])
  }

  /** Reading the incremental transcript back gives the transcriptions, in
      order, one line each, so long as no transcription contains a newline of
      its own; in particular the file has exactly one line per transcription,
      empty ones included. */
  lemma {:induction false} IncrementalTextLines(lines: seq<string>)
    requires forall k | 0 <= k < |lines| :: NoNewline(lines[k])
    ensures ParseLines(IncrementalText(lines)) == lines
    decreases |lines|
  {
    if lines != [] {
      var first, rest := lines[0], lines[1..];
      assert lines == [first] + rest;
      TerminatedConcat([first], rest, '\n');
      assert [first][..0] == [];
      var s := IncrementalText(lines);
      assert s == first + "\n" + IncrementalText(rest);
      LineEndAt(first, IncrementalText(rest));
      assert s[..|first|] == first;
      assert s[|first| + 1..] == IncrementalText(rest);
      IncrementalTextLines(rest);
    }
  }

  /** The first newline of line + "\n" + tail is the one after line. */
  lemma {:induction false} LineEndAt(line: string, tail: string)
    requires NoNewline(line)
    ensures LineEnd(line + "\n" + tail) == |line|
    decreases |line|
  {
    var s := line + "\n" + tail;
    if line != [] {
      assert s[1..] == line[1..] + "\n" + tail;
      LineEndAt(line[1..], tail);
    }
  }
}
