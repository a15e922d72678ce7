/** The two scans over a log file: the one `kvdb_put` uses to find where the valid
    prefix ends, and the one `kvdb_get` uses to look a key up. */
module KvLog {
  import opened Options
  import opened Bytes
  import opened KvRecord
  import opened Framing

  /** Length of the valid committed record at the head of `c`, 0 if there is none. */
  function GoodLen(c: bytes): nat {
    if Good(c) then RecordLen(c) else 0
  }

  /** What `valid_prefix_end` computes: it stops at the first record that is not good. */
  function PrefixEnd(c: bytes): (end: nat)
    ensures end <= |c|
  {
    Span(GoodLen, c)
  }

  /** `c` is a concatenation of valid committed records. */
  ghost predicate IsLog(c: bytes) {
    IsFramed(GoodLen, c)
  }

  function Decode(records: seq<bytes>): seq<Entry> {
    if records == [] then []
    else (if Whole(records[0]) then [EntryOf(records[0])] else []) + Decode(records[1..])
  }

  /** The entries of the valid prefix, in file order. */
  function Entries(c: bytes): seq<Entry> {
    Decode(Frames(GoodLen, c))
  }

  /** The scan of `kvdb_get`: stop only where no whole record stands; records that are
      uncommitted or fail the checksum are stepped over. */
  function GetScan(c: bytes, want: bytes, best: Option<bytes>): Option<bytes>
    decreases |c|
  {
    if !Whole(c) then best
    else GetScan(c[RecordLen(c)..], want, if Good(c) && KeyOf(c) == want then Some(ValueOf(c)) else best)
  }

  // ----- what a list of entries means -----

  function LastValue(es: seq<Entry>, want: bytes, best: Option<bytes>): Option<bytes> {
    if es == [] then best
    else LastValue(es[1..], want, if es[0].key == want then Some(es[0].value) else best)
  }

  function View(es: seq<Entry>): map<bytes, bytes> {
    if es == [] then map[]
    else View(es[..|es| - 1])[es[|es| - 1].key := es[|es| - 1].value]
  }

  function Lookup(m: map<bytes, bytes>, want: bytes): Option<bytes> {
    if want in m then Some(m[want]) else None
  }

  lemma {:induction false} LastValueAppend(es: seq<Entry>, e: Entry, want: bytes, best: Option<bytes>)
    ensures LastValue(es + [e], want, best)
         == if e.key == want then Some(e.value) else LastValue(es, want, best)
    decreases |es|
  {
    if es == [] {
      assert es + [e] == [e];
    } else {
      assert (es + [e])[1..] == es[1..] + [e];
      LastValueAppend(es[1..], e, want, if es[0].key == want then Some(es[0].value) else best);
    }
  }

  /** The last write wins: reading the list in file order is reading the map. */
  lemma {:induction false} LastValueIsLookup(es: seq<Entry>, want: bytes)
    ensures LastValue(es, want, None) == Lookup(View(es), want)
    decreases |es|
  {
    if es != [] {
      var n := |es| - 1;
      assert es == es[..n] + [es[n]];
      LastValueAppend(es[..n], es[n], want, None);
      LastValueIsLookup(es[..n], want);
    }
  }

  // ----- the valid prefix -----

  /** Records are self-delimiting. */
  lemma RecordsAreLocal()
    ensures Local(GoodLen)
  {
    forall c ensures Delimits(GoodLen, c) {
      if Good(c) {
        HeadIsLocal(c, RecordLen(c));
      }
    }
    forall r: bytes, d: bytes ensures Recognises(GoodLen, r, d) {
      if IsFrame(GoodLen, r) {
        assert (r + d)[..|r|] == r;
        HeadIsLocal(r + d, |r|);
      }
    }
  }

  lemma {:induction false} DecodeAppend(a: seq<bytes>, b: seq<bytes>)
    ensures Decode(a + b) == Decode(a) + Decode(b)
    decreases |a|
  {
    hide Whole, EntryOf;
    if a == [] {
      assert a + b == b;
    } else {
      var first := if Whole(a[0]) then [EntryOf(a[0])] else [];
      assert (a + b)[1..] == a[1..] + b;
      DecodeAppend(a[1..], b);
      assert first + (Decode(a[1..]) + Decode(b)) == (first + Decode(a[1..])) + Decode(b);
    }
  }

  /** `valid_prefix_end` returns the end of the longest prefix that is a log. */
  lemma PrefixEndIsLongestLog(c: bytes)
    ensures IsLog(c[..PrefixEnd(c)])
    ensures forall n :: 0 <= n <= |c| && IsLog(c[..n]) ==> n <= PrefixEnd(c)
  {
    RecordsAreLocal();
    SpanIsLongest(GoodLen, c);
  }

  /** The prefix is found again whatever stands behind it; with nothing behind it, it
      stays as it is, and a log behind it extends it by exactly that log. */
  lemma PrefixKept(c: bytes, tail: bytes)
    ensures PrefixEnd(c[..PrefixEnd(c)] + tail) == PrefixEnd(c) + PrefixEnd(tail)
    ensures Entries(c[..PrefixEnd(c)] + tail) == Entries(c) + Entries(tail)
  {
    RecordsAreLocal();
    PrefixThen(GoodLen, c, tail);
    DecodeAppend(Frames(GoodLen, c), Frames(GoodLen, tail));
  }

  /** A complete record is its own valid prefix and holds one entry. */
  lemma RecordIsLog(key: bytes, value: bytes)
    requires Storable(key, value)
    ensures var r := Image(key, value, COMMITTED);
            PrefixEnd(r) == |r| && Entries(r) == [Entry(key, value)]
  {
    var r := Image(key, value, COMMITTED);
    ImageDecodes(key, value, COMMITTED);
    assert r[..|r|] == r && r[|r|..] == [];
    assert !Good([]);
    assert Frames(GoodLen, r) == [r] + Frames(GoodLen, []);
    assert Decode([r]) == [EntryOf(r)] + Decode([r][1..]);
  }

  /** A scan that can read only the first `readable` bytes finds the whole valid prefix
      if and only if all of it is readable. */
  lemma PartialScan(c: bytes, readable: nat)
    requires readable <= |c|
    ensures IsLog(c[..PrefixEnd(c[..readable])])
    ensures PrefixEnd(c[..readable]) <= PrefixEnd(c)
    ensures PrefixEnd(c[..readable]) == PrefixEnd(c) <==> PrefixEnd(c) <= readable
  {
    RecordsAreLocal();
    PartialSpan(GoodLen, c, readable);
  }

  // ----- when the two scans agree -----

  /** The entries `kvdb_get` takes into account: those of the good records on its walk from
      whole record to whole record. */
  function GetEntries(c: bytes): seq<Entry>
    decreases |c|
  {
    if !Whole(c) then []
    else (if Good(c) then [EntryOf(c)] else []) + GetEntries(c[RecordLen(c)..])
  }

  /** The walk of `kvdb_get` takes it exactly to the end. */
  predicate Walked(c: bytes)
    decreases |c|
  {
    c == [] || (Whole(c) && Walked(c[RecordLen(c)..]))
  }

  lemma RecordWalked(b: bytes, want: bytes, best: Option<bytes>)
    requires Whole(b)
    ensures var r := b[..RecordLen(b)];
            && Walked(r)
            && GetScan(r, want, best) == if Good(b) && KeyOf(b) == want then Some(ValueOf(b)) else best
  {
    var n := RecordLen(b);
    HeadIsLocal(b, n);
    var r := b[..n];
    assert r[n..] == [];
    assert GetScan([], want, best) == best;
  }

  /** One more record behind a stretch that has been walked. */
  lemma {:induction false} WalkOn(a: bytes, b: bytes, want: bytes, best: Option<bytes>)
    requires Walked(a) && Whole(b)
    ensures var r := b[..RecordLen(b)];
            && Walked(a + r)
            && GetScan(a + r, want, best)
               == if Good(b) && KeyOf(b) == want then Some(ValueOf(b)) else GetScan(a, want, best)
    decreases |a|
  {
    hide HeaderOk, Good, KeyOf, ValueOf;
    var r := b[..RecordLen(b)];
    if a == [] {
      RecordWalked(b, want, best);
      assert a + r == r;
      NotWhole();
    } else {
      assert (a + r)[..|a|] == a;
      HeadIsLocal(a + r, |a|);
      SameEntry(a + r, |a|);
      var n := RecordLen(a);
      assert (a + r)[n..] == a[n..] + r;
      WalkOn(a[n..], b, want, if Good(a) && KeyOf(a) == want then Some(ValueOf(a)) else best);
    }
  }

  lemma NotWhole()
    ensures !Whole([])
  {
  }

  lemma SameEntry(c: bytes, n: nat)
    requires n <= |c| && Whole(c[..n]) && Whole(c)
    ensures KeyOf(c) == KeyOf(c[..n]) && ValueOf(c) == ValueOf(c[..n])
  {
    HeadIsLocal(c, n);
  }

  /** A good record stands on that walk. */
  predicate GoodOnWalk(c: bytes)
    decreases |c|
  {
    Whole(c) && (Good(c) || GoodOnWalk(c[RecordLen(c)..]))
  }

  /** `kvdb_get` returns the last value among them. */
  lemma {:induction false} GetScanIsLast(c: bytes, want: bytes, best: Option<bytes>)
    ensures GetScan(c, want, best) == LastValue(GetEntries(c), want, best)
    decreases |c|
  {
    if Whole(c) {
      var rest := c[RecordLen(c)..];
      var es := GetEntries(c);
      if Good(c) {
        assert es[0] == EntryOf(c) && es[1..] == GetEntries(rest);
        GetScanIsLast(rest, want, if KeyOf(c) == want then Some(ValueOf(c)) else best);
      } else {
        assert es == GetEntries(rest);
        GetScanIsLast(rest, want, best);
      }
    }
  }

  lemma {:induction false} GetEntriesNone(c: bytes)
    ensures GetEntries(c) == [] <==> !GoodOnWalk(c)
    decreases |c|
  {
    if Whole(c) {
      GetEntriesNone(c[RecordLen(c)..]);
    }
  }

  /** The walk visits the valid prefix first and then goes on behind it. */
  lemma {:induction false} GetEntriesSplit(c: bytes)
    ensures GetEntries(c) == Entries(c) + GetEntries(c[PrefixEnd(c)..])
    decreases |c|
  {
    hide Entries, GetEntries, PrefixEnd, EntryOf, HeaderOk, RecordLen, Good, Whole;
    if Good(c) {
      GoodIsWhole(c);
      var rest := c[RecordLen(c)..];
      FirstEntry(c);
      GetEntriesSplit(rest);
      var tail := c[PrefixEnd(c)..];
      assert rest[PrefixEnd(rest)..] == tail;
      assert ([EntryOf(c)] + Entries(rest)) + GetEntries(tail) == [EntryOf(c)] + (Entries(rest) + GetEntries(tail));
    } else {
      NoEntry(c);
      assert [] + GetEntries(c) == GetEntries(c);
    }
  }

  lemma FirstEntry(c: bytes)
    requires Good(c)
    ensures var rest := c[RecordLen(c)..];
            && Entries(c) == [EntryOf(c)] + Entries(rest) && PrefixEnd(c) == RecordLen(c) + PrefixEnd(rest)
            && GetEntries(c) == [EntryOf(c)] + GetEntries(rest) && |rest| < |c|
  {
    var n := RecordLen(c);
    HeadIsLocal(c, n);
    var frames := Frames(GoodLen, c);
    assert frames[0] == c[..n] && frames[1..] == Frames(GoodLen, c[n..]);
  }

  /** A record more behind a stretch that is all valid prefix. */
  lemma PrefixOn(a: bytes, b: bytes)
    requires PrefixEnd(a) == |a| && Good(b)
    ensures PrefixEnd(a + b[..RecordLen(b)]) == |a| + RecordLen(b)
  {
    hide PrefixEnd, Entries, HeaderOk;
    var n := RecordLen(b);
    var r := b[..n];
    CutHead(b, n);
    FirstEntry(r);
    assert r[n..] == [];
    assert a[..|a|] == a;
    PrefixKept(a, r);
    NothingInNothing();
  }

  lemma NothingInNothing()
    ensures PrefixEnd([]) == 0
  {
  }

  lemma NoEntry(c: bytes)
    requires !Good(c)
    ensures Entries(c) == [] && PrefixEnd(c) == 0 && c[0..] == c
  {
  }

  /** For every file: the two scans see the same entries if and only if no good record stands
      on the walk behind the valid prefix. */
  lemma SameEntriesIff(c: bytes)
    ensures GetEntries(c) == Entries(c) <==> !GoodOnWalk(c[PrefixEnd(c)..])
  {
    var tail := c[PrefixEnd(c)..];
    GetEntriesSplit(c);
    GetEntriesNone(tail);
    if GetEntries(tail) == [] {
      assert Entries(c) + GetEntries(tail) == Entries(c);
    } else {
      assert |GetEntries(c)| > |Entries(c)|;
    }
  }

  lemma {:induction false} LastValueSplit(a: seq<Entry>, b: seq<Entry>, want: bytes, best: Option<bytes>)
    ensures LastValue(a + b, want, best) == LastValue(b, want, LastValue(a, want, best))
    decreases |a|
  {
    if a == [] {
      assert a + b == b;
    } else {
      assert (a + b)[1..] == a[1..] + b;
      LastValueSplit(a[1..], b, want, if a[0].key == want then Some(a[0].value) else best);
    }
  }

  lemma {:induction false} LastValueFrom(es: seq<Entry>, want: bytes, best: Option<bytes>)
    ensures LastValue(es, want, best)
         == if LastValue(es, want, None).Some? then LastValue(es, want, None) else best
    decreases |es|
  {
    if es != [] {
      var n := |es| - 1;
      assert es == es[..n] + [es[n]];
      LastValueAppend(es[..n], es[n], want, best);
      LastValueAppend(es[..n], es[n], want, None);
      LastValueFrom(es[..n], want, best);
    }
  }

  /** For every file and every key: they return the same if and only if no good record for the
      key stands on the walk behind the valid prefix, or the last one there repeats the value
      the prefix has for it. */
  lemma SameAnswerIff(c: bytes, want: bytes)
    ensures var behind := LastValue(GetEntries(c[PrefixEnd(c)..]), want, None);
            GetScan(c, want, None) == LastValue(Entries(c), want, None)
            <==> behind.None? || behind == LastValue(Entries(c), want, None)
  {
    var tail := c[PrefixEnd(c)..];
    GetScanIsLast(c, want, None);
    GetEntriesSplit(c);
    LastValueSplit(Entries(c), GetEntries(tail), want, None);
    LastValueFrom(GetEntries(tail), want, LastValue(Entries(c), want, None));
  }

  /** A tail that `kvdb_get` cannot see through: either no whole record stands at its
      head, or one bad record does and the file ends with it. */
  predicate Torn(tail: bytes) {
    !Whole(tail) || (!Good(tail) && |tail| == RecordLen(tail))
  }

  /** The shape every real run keeps: valid records, then at most one torn record. */
  predicate Clean(c: bytes) {
    Torn(c[PrefixEnd(c)..])
  }

  lemma GoodIsWhole(c: bytes)
    requires Good(c)
    ensures Whole(c)
  {
  }

  /** A whole record at the head of a cut file is one of the file. */
  lemma CutHead(c: bytes, n: nat)
    requires n <= |c|
    ensures Whole(c[..n]) ==> Whole(c) && RecordLen(c[..n]) == RecordLen(c) <= n && (Good(c[..n]) <==> Good(c))
    ensures Whole(c) && RecordLen(c) <= n ==> Whole(c[..n])
  {
    if n >= HEADER {
      HeadIsLocal(c, n);
    }
  }

  /** A clean file stays clean however it is cut. */
  lemma {:induction false} CleanWhenCut(c: bytes, n: nat)
    requires Clean(c) && n <= |c|
    ensures Clean(c[..n])
    decreases |c|
  {
    hide Good, HeaderOk, RecordLen, PrefixEnd, Clean;
    var d := c[..n];
    CutHead(c, n);
    if Good(d) {
      GoodIsWhole(d);
    }
    if Good(c) && Whole(d) {
      var len := RecordLen(c);
      CleanBehind(c);
      CleanBehind(d);
      CleanWhenCut(c[len..], n - len);
      assert d[len..] == c[len..][..n - len];
    } else if Good(c) {
      CleanHead(d);
    } else {
      CleanHead(c);
      CleanHead(d);
      if Whole(d) {
        assert Torn(c) ==> d == c;
      }
    }
  }

  lemma CleanBehind(c: bytes)
    requires Good(c)
    ensures 0 < RecordLen(c) <= |c| && (Clean(c) <==> Clean(c[RecordLen(c)..]))
  {
    hide Torn, PrefixEnd;
    FirstEntry(c);
    var rest := c[RecordLen(c)..];
    assert rest[PrefixEnd(rest)..] == c[PrefixEnd(c)..];
  }

  lemma CleanHead(c: bytes)
    requires !Good(c)
    ensures Clean(c) <==> Torn(c)
  {
    hide Torn, PrefixEnd;
    NoEntry(c);
  }

  lemma TornHidesNothing(tail: bytes)
    requires Torn(tail)
    ensures !GoodOnWalk(tail)
  {
    if Whole(tail) {
      assert tail[RecordLen(tail)..] == [];
    }
  }

  /** On a clean file the lookup that skips bad records returns exactly the last value
      in the prefix that the other scan delimits. */
  lemma ScansAgree(c: bytes, want: bytes)
    requires Clean(c)
    ensures GetScan(c, want, None) == LastValue(Entries(c), want, None)
    ensures GetScan(c, want, None) == Lookup(View(Entries(c)), want)
  {
    TornHidesNothing(c[PrefixEnd(c)..]);
    SameEntriesIff(c);
    GetScanIsLast(c, want, None);
    LastValueIsLookup(Entries(c), want);
  }

  /** Two whole uncommitted records are not clean and yet hide nothing. */
  lemma UncleanMayAgree(k: bytes, v: bytes, k': bytes, v': bytes)
    requires Storable(k, v) && Storable(k', v')
    ensures var c := Image(k, v, 0) + Image(k', v', 0);
            !Clean(c) && GetEntries(c) == Entries(c) == []
  {
    hide Image, Good, RecordLen, Word, Entries, PrefixEnd;
    var a, b := Image(k, v, 0), Image(k', v', 0);
    ImageDecodes(k, v, 0);
    ImageDecodes(k', v', 0);
    SkipBad(a, b, k);
    NoEntry(a + b);
    assert b[|b|..] == [] && (a + b)[|a|..] == b;
    assert GetEntries([]) == [];
    assert GetEntries(b) == [];
  }

  /** Off the reachable files they do not agree: a committed record behind a whole
      uncommitted one is returned by `kvdb_get` and is outside the valid prefix. */
  lemma ScansDisagreeBehindUncommitted(k: bytes, v: bytes, k': bytes, v': bytes)
    requires Storable(k, v) && Storable(k', v')
    ensures var c := Image(k', v', 0) + Image(k, v, COMMITTED);
            PrefixEnd(c) == 0 && Entries(c) == [] && !Clean(c) && GetScan(c, k, None) == Some(v)
  {
    var a, b := Image(k', v', 0), Image(k, v, COMMITTED);
    ImageDecodes(k', v', 0);
    ImageDecodes(k, v, COMMITTED);
    SkipBad(a, b, k);
    assert b[|b|..] == [];
    assert (a + b)[0..] == a + b;
  }

  lemma SkipBad(a: bytes, b: bytes, want: bytes)
    requires Whole(a) && !Good(a) && |a| == RecordLen(a)
    ensures Whole(a + b) && !Good(a + b) && RecordLen(a + b) == |a|
    ensures GetScan(a + b, want, None) == GetScan(b, want, None)
  {
    var c := a + b;
    assert c[..|a|] == a;
    HeadIsLocal(c, |a|);
    assert c[|a|..] == b;
  }
}
