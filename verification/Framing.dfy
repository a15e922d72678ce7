/** Self-delimiting frames: a string cut into frames whose lengths are read off their own
    heads. A framer `f` gives the length of the frame at the head of a string, or 0. */
module Framing {

  predicate IsFrame<T>(f: seq<T> -> nat, r: seq<T>) {
    f(r) == |r| > 0
  }

  /** The length read off the head of `c` fits in `c` and delimits a frame. */
  predicate Delimits<T>(f: seq<T> -> nat, c: seq<T>) {
    f(c) <= |c| && (f(c) > 0 ==> IsFrame(f, c[..f(c)]))
  }

  /** A frame is recognised whatever follows it. */
  predicate Recognises<T>(f: seq<T> -> nat, r: seq<T>, d: seq<T>) {
    IsFrame(f, r) ==> f(r + d) == |r|
  }

  ghost predicate Local<T(!new)>(f: seq<T> -> nat) {
    && (forall c :: Delimits(f, c))
    && (forall r, d :: Recognises(f, r, d))
  }

  /** The frames a left-to-right scan collects before it stops. */
  function Frames<T>(f: seq<T> -> nat, c: seq<T>): seq<seq<T>>
    decreases |c|
  {
    if 0 < f(c) <= |c| then [c[..f(c)]] + Frames(f, c[f(c)..]) else []
  }

  /** The offset at which that scan stops. */
  function Span<T>(f: seq<T> -> nat, c: seq<T>): (n: nat)
    ensures n <= |c|
    decreases |c|
  {
    if 0 < f(c) <= |c| then f(c) + Span(f, c[f(c)..]) else 0
  }

  function Concat<T>(parts: seq<seq<T>>): seq<T> {
    if parts == [] then [] else parts[0] + Concat(parts[1..])
  }

  ghost predicate AreFrames<T>(f: seq<T> -> nat, parts: seq<seq<T>>) {
    forall i :: 0 <= i < |parts| ==> IsFrame(f, parts[i])
  }

  /** `c` is a concatenation of frames. */
  ghost predicate IsFramed<T(!new)>(f: seq<T> -> nat, c: seq<T>) {
    exists parts :: AreFrames(f, parts) && Concat(parts) == c
  }

  /** The scan covers exactly what it collects. */
  lemma {:induction false} FramesCover<T(!new)>(f: seq<T> -> nat, c: seq<T>)
    requires Local(f)
    ensures AreFrames(f, Frames(f, c)) && Concat(Frames(f, c)) == c[..Span(f, c)]
    ensures f(c[Span(f, c)..]) == 0
    decreases |c|
  {
    if 0 < f(c) <= |c| {
      var n, rest := f(c), c[f(c)..];
      FramesCover(f, rest);
      assert Delimits(f, c);
      var parts := Frames(f, c);
      assert parts[1..] == Frames(f, rest);
      assert c[..n] + rest[..Span(f, rest)] == c[..Span(f, c)];
      assert rest[Span(f, rest)..] == c[Span(f, c)..];
    } else {
      assert Delimits(f, c) && c[0..] == c;
    }
  }

  lemma FirstFrame<T(!new)>(f: seq<T> -> nat, r: seq<T>, tail: seq<T>)
    requires Local(f) && IsFrame(f, r)
    ensures Frames(f, r + tail) == [r] + Frames(f, tail)
    ensures Span(f, r + tail) == |r| + Span(f, tail)
  {
    assert Recognises(f, r, tail);
    assert (r + tail)[..|r|] == r && (r + tail)[|r|..] == tail;
  }

  /** Unique decodability: frames put in front of anything are found again, in order,
      and what follows them is scanned on its own. */
  lemma {:induction false} ScanConcat<T(!new)>(f: seq<T> -> nat, parts: seq<seq<T>>, rest: seq<T>)
    requires Local(f) && AreFrames(f, parts)
    ensures Frames(f, Concat(parts) + rest) == parts + Frames(f, rest)
    ensures Span(f, Concat(parts) + rest) == |Concat(parts)| + Span(f, rest)
    decreases |parts|
  {
    hide Local, Frames, Span, IsFrame;
    if parts == [] {
      assert Concat(parts) + rest == rest;
    } else {
      var r, tail := parts[0], Concat(parts[1..]) + rest;
      assert Concat(parts) + rest == r + tail;
      FirstFrame(f, r, tail);
      ScanConcat(f, parts[1..], rest);
      assert [r] + (parts[1..] + Frames(f, rest)) == parts + Frames(f, rest);
    }
  }

  /** The scan stops at the end of the longest prefix that is a concatenation of frames. */
  lemma SpanIsLongest<T(!new)>(f: seq<T> -> nat, c: seq<T>)
    requires Local(f)
    ensures IsFramed(f, c[..Span(f, c)])
    ensures forall n :: 0 <= n <= |c| && IsFramed(f, c[..n]) ==> n <= Span(f, c)
  {
    FramesCover(f, c);
    forall n | 0 <= n <= |c| && IsFramed(f, c[..n])
      ensures n <= Span(f, c)
    {
      var ps :| AreFrames(f, ps) && Concat(ps) == c[..n];
      assert c == Concat(ps) + c[n..];
      ScanConcat(f, ps, c[n..]);
    }
  }

  /** The framed prefix is found again whatever is put behind it. */
  lemma PrefixThen<T(!new)>(f: seq<T> -> nat, c: seq<T>, tail: seq<T>)
    requires Local(f)
    ensures Span(f, c[..Span(f, c)] + tail) == Span(f, c) + Span(f, tail)
    ensures Frames(f, c[..Span(f, c)] + tail) == Frames(f, c) + Frames(f, tail)
  {
    FramesCover(f, c);
    ScanConcat(f, Frames(f, c), tail);
  }

  /** Scanning only the first `n` elements finds the whole framed prefix if and only if
      all of it is among them. */
  lemma PartialSpan<T(!new)>(f: seq<T> -> nat, c: seq<T>, n: nat)
    requires Local(f) && n <= |c|
    ensures IsFramed(f, c[..Span(f, c[..n])])
    ensures Span(f, c[..n]) <= Span(f, c)
    ensures Span(f, c[..n]) == Span(f, c) <==> Span(f, c) <= n
  {
    var d := c[..n];
    SpanIsLongest(f, c);
    SpanIsLongest(f, d);
    assert d[..Span(f, d)] == c[..Span(f, d)];
    if Span(f, c) <= n {
      assert d[..Span(f, c)] == c[..Span(f, c)];
    }
  }
}
