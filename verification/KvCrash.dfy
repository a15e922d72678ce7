/** What a `kvdb_put` leaves on disk when it is stopped, by a crash or by an I/O failure,
    after any number of the effects it issues. Effects reach the file in program order;
    every byte written and every system call that may fail is one effect. */
module KvCrash {
  import opened Options
  import opened Bytes
  import opened KvRecord
  import opened KvLog

  datatype Effect = Truncate(size: nat) | Append(b: byte) | Poke(at: nat, b: byte) | Sync

  function Apply(c: bytes, e: Effect): bytes {
    match e
    case Truncate(size) => if size <= |c| then c[..size] else c
    case Append(b) => c + [b]
    case Poke(at, b) => if at < |c| then c[at := b] else c
    case Sync => c
  }

  function ApplyAll(c: bytes, es: seq<Effect>): bytes {
    if es == [] then c else Apply(ApplyAll(c, es[..|es| - 1]), es[|es| - 1])
  }

  /** Effects of a whole put once its scan has returned `off`: truncate, write header, key
      and value with a zero commit word, sync, overwrite the commit word, sync. */
  function PutEffects(off: nat, key: bytes, value: bytes): (es: seq<Effect>)
    requires Storable(key, value)
    ensures |es| == PutLength(key, value)
  {
    var r := Image(key, value, 0);
    var word := Le32(COMMITTED);
    [Truncate(off)] + seq(|r|, i requires 0 <= i < |r| => Append(r[i])) + [Sync]
    + seq(4, i requires 0 <= i < 4 => Poke(off + 4 + i, word[i])) + [Sync]
  }

  function PutLength(key: bytes, value: bytes): nat {
    HEADER + |key| + |value| + 7
  }

  /** The commit word after `j` of its bytes have been overwritten. */
  function CommitWord(j: nat): u32
    requires j <= 4
  {
    [0, 0xed, 0x17ed, 0x1117ed, COMMITTED][j]
  }

  /** What a put stopped past its truncation has appended to the prefix. */
  function Tail(key: bytes, value: bytes, done: nat): bytes
    requires Storable(key, value) && done > 0
  {
    var n := HEADER + |key| + |value|;
    if done <= n + 1 then Image(key, value, 0)[..done - 1]
    else Image(key, value, CommitWord(if done < n + 6 then done - n - 2 else 4))
  }

  /** The file after `done` effects, in closed form. */
  function Stage(c: bytes, off: nat, key: bytes, value: bytes, done: nat): bytes
    requires off <= |c| && Storable(key, value)
  {
    if done == 0 then c else c[..off] + Tail(key, value, done)
  }

  lemma CommitBytes(j: nat)
    requires j < 4
    ensures Le32(CommitWord(j))[j := Le32(COMMITTED)[j]] == Le32(CommitWord(j + 1))
  {
  }

  lemma PokeCommit(front: bytes, key: bytes, value: bytes, j: nat)
    requires Storable(key, value) && j < 4
    ensures (front + Image(key, value, CommitWord(j)))[|front| + 4 + j := Le32(COMMITTED)[j]]
         == front + Image(key, value, CommitWord(j + 1))
  {
    var word, next := Le32(CommitWord(j)), Le32(CommitWord(j + 1));
    var b := Le32(COMMITTED)[j];
    CommitBytes(j);
    var rest := Le32(|key|) + Le32(|value|) + Le32(Checksum(key, value)) + Le32(0) + key + value;
    assert Image(key, value, CommitWord(j)) == Le32(MAGIC) + word + rest;
    assert Image(key, value, CommitWord(j + 1)) == Le32(MAGIC) + next + rest;
    PokeWord(front, Le32(MAGIC), word, rest, j, b);
  }

  lemma PokeWord(front: bytes, magic: bytes, word: bytes, rest: bytes, j: nat, b: byte)
    requires |magic| == |word| == 4 && j < 4
    ensures (front + (magic + word + rest))[|front| + 4 + j := b] == front + (magic + word[j := b] + rest)
  {
  }

  /** The effect at each position of a put. */
  function EffectAt(off: nat, key: bytes, value: bytes, i: nat): Effect
    requires Storable(key, value) && i < PutLength(key, value)
  {
    var n := HEADER + |key| + |value|;
    if i == 0 then Truncate(off)
    else if i <= n then Append(Image(key, value, 0)[i - 1])
    else if n + 2 <= i < n + 6 then Poke(off + 4 + (i - n - 2), Le32(COMMITTED)[i - n - 2])
    else Sync
  }

  lemma PutEffectsAt(off: nat, key: bytes, value: bytes, i: nat)
    requires Storable(key, value) && i < PutLength(key, value)
    ensures PutEffects(off, key, value)[i] == EffectAt(off, key, value, i)
  {
  }

  lemma StageStep(c: bytes, off: nat, key: bytes, value: bytes, done: nat)
    requires off <= |c| && Storable(key, value) && done < PutLength(key, value)
    ensures Apply(Stage(c, off, key, value, done), EffectAt(off, key, value, done))
         == Stage(c, off, key, value, done + 1)
  {
    var n := HEADER + |key| + |value|;
    if done <= n {
      StageAppend(c, off, key, value, done);
    } else if n + 2 <= done < n + 6 {
      StageCommit(c, off, key, value, done);
    } else {
      hide Image;
      assert |Image(key, value, 0)| == n && Image(key, value, 0)[..n] == Image(key, value, 0);
    }
  }

  /** The truncation and the bytes of the record. */
  lemma StageAppend(c: bytes, off: nat, key: bytes, value: bytes, done: nat)
    requires off <= |c| && Storable(key, value) && done <= HEADER + |key| + |value|
    ensures Apply(Stage(c, off, key, value, done), EffectAt(off, key, value, done))
         == Stage(c, off, key, value, done + 1)
  {
    hide Image;
    var r := Image(key, value, 0);
    if done == 0 {
      assert c[..off] + r[..0] == c[..off];
    } else {
      assert r[..done - 1] + [r[done - 1]] == r[..done];
    }
  }

  /** The bytes of the commit word. */
  lemma StageCommit(c: bytes, off: nat, key: bytes, value: bytes, done: nat)
    requires off <= |c| && Storable(key, value)
    requires HEADER + |key| + |value| + 2 <= done < HEADER + |key| + |value| + 6
    ensures Apply(Stage(c, off, key, value, done), EffectAt(off, key, value, done))
         == Stage(c, off, key, value, done + 1)
  {
    hide Image;
    var n := HEADER + |key| + |value|;
    PokeCommit(c[..off], key, value, done - n - 2);
    assert Image(key, value, 0)[..n] == Image(key, value, 0);
  }

  lemma {:induction false} EffectsReachStage(
    c: bytes, off: nat, key: bytes, value: bytes, es: seq<Effect>)
    requires off <= |c| && Storable(key, value) && |es| <= PutLength(key, value)
    requires forall i :: 0 <= i < |es| ==> es[i] == EffectAt(off, key, value, i)
    ensures ApplyAll(c, es) == Stage(c, off, key, value, |es|)
    decreases |es|
  {
    if es != [] {
      var n := |es| - 1;
      EffectsReachStage(c, off, key, value, es[..n]);
      StageStep(c, off, key, value, n);
    }
  }

  // ----- one put -----

  /** The record becomes visible with the last byte of the commit word. */
  predicate Landed(key: bytes, value: bytes, done: nat) {
    done >= PutLength(key, value) - 1
  }

  lemma TornImage(key: bytes, value: bytes, n: nat)
    requires Storable(key, value) && n <= HEADER + |key| + |value|
    ensures Torn(Image(key, value, 0)[..n]) && !Good(Image(key, value, 0)[..n])
  {
    var r := Image(key, value, 0);
    ImageDecodes(key, value, 0);
    if n >= HEADER {
      HeadIsLocal(r, n);
    }
  }

  lemma TailShape(key: bytes, value: bytes, done: nat)
    requires Storable(key, value) && done > 0
    ensures var tail := Tail(key, value, done);
            if Landed(key, value, done)
            then PrefixEnd(tail) == |tail| && Entries(tail) == [Entry(key, value)]
            else PrefixEnd(tail) == 0 && Entries(tail) == [] && Torn(tail)
  {
    var n := HEADER + |key| + |value|;
    if done <= n + 1 {
      TornImage(key, value, done - 1);
    } else if done < n + 6 {
      ImageDecodes(key, value, CommitWord(done - n - 2));
    } else {
      RecordIsLog(key, value);
    }
  }

  /** Whatever stood behind the prefix, a put stopped anywhere past its truncation leaves
      the old prefix followed by a torn record, or by the whole new record. */
  lemma StageShape(c: bytes, key: bytes, value: bytes, done: nat)
    requires Storable(key, value) && done > 0
    ensures var c' := Stage(c, PrefixEnd(c), key, value, done);
            && Clean(c')
            && Entries(c') == Entries(c) + Contribution(key, value, done)
  {
    var tail := Tail(key, value, done);
    var c' := c[..PrefixEnd(c)] + tail;
    assert c' == Stage(c, PrefixEnd(c), key, value, done);
    PrefixKept(c, tail);
    TailShape(key, value, done);
    assert c'[PrefixEnd(c')..] == if Landed(key, value, done) then [] else tail;
  }

  /** One put, stopped after `done` effects of a scan that could read `readable` bytes. */
  function PutFile(c: bytes, readable: nat, key: bytes, value: bytes, done: nat): bytes
    requires readable <= |c|
  {
    if !Storable(key, value) then c
    else
      var es := PutEffects(PrefixEnd(c[..readable]), key, value);
      ApplyAll(c, if done <= |es| then es[..done] else es)
  }

  /** The put returned 0: it was accepted, and all its effects happened. */
  predicate Acknowledged(key: bytes, value: bytes, done: nat) {
    Storable(key, value) && done >= PutLength(key, value)
  }

  lemma PutFileIsStage(c: bytes, readable: nat, key: bytes, value: bytes, done: nat)
    requires readable <= |c| && Storable(key, value)
    ensures PrefixEnd(c[..readable]) <= |c|
    ensures PutFile(c, readable, key, value, done) == Stage(c, PrefixEnd(c[..readable]), key, value, done)
  {
    PartialScan(c, readable);
    var off := PrefixEnd(c[..readable]);
    var es := PutEffects(off, key, value);
    forall i | 0 <= i < |es| ensures es[i] == EffectAt(off, key, value, i) {
      PutEffectsAt(off, key, value, i);
    }
    EffectsReachStage(c, off, key, value, if done <= |es| then es[..done] else es);
  }

  /** Crash atomicity of one put on a file real runs produce: nothing committed is lost,
      the record is there whole or not at all, and it is there if the put returned 0. */
  lemma PutIsAtomic(c: bytes, readable: nat, key: bytes, value: bytes, done: nat)
    requires Clean(c) && PrefixEnd(c) <= readable <= |c|
    ensures var c' := PutFile(c, readable, key, value, done);
            && Clean(c')
            && Entries(c') == Entries(c) + Contribution(key, value, done)
            && (Storable(key, value) && done >= |PutEffects(0, key, value)| ==>
                  Contribution(key, value, done) == [Entry(key, value)])
  {
    if Storable(key, value) {
      PutFileIsStage(c, readable, key, value, done);
      PartialScan(c, readable);
      if done > 0 {
        StageShape(c, key, value, done);
      }
    }
  }

  /** A put stopped anywhere past its truncation keeps every committed record if and only if
      its scan could read the whole valid prefix: a read error inside the prefix makes the
      put cut committed records off. */
  lemma PutKeepsRecordsIff(c: bytes, readable: nat, key: bytes, value: bytes, done: nat)
    requires readable <= |c| && Storable(key, value)
    requires 0 < done
    ensures Entries(PutFile(c, readable, key, value, done)) == Entries(c) + Contribution(key, value, done)
       <==> PrefixEnd(c) <= readable
  {
    hide Entries, PrefixEnd, PutFile, Stage, Landed, Storable, Clean, Contribution;
    PutFileIsStage(c, readable, key, value, done);
    var d := c[..readable];
    StageShape(d, key, value, done);
    StageOfReadable(c, readable, key, value, done);
    EntriesBehind(c, readable);
    SameFront(Entries(d), Entries(c), Contribution(key, value, done));
  }

  lemma SameFront(a: seq<Entry>, b: seq<Entry>, tail: seq<Entry>)
    ensures a + tail == b + tail <==> a == b
  {
    if a + tail == b + tail {
      assert a == (a + tail)[..|a|] && b == (b + tail)[..|b|];
    }
  }

  lemma StageOfReadable(c: bytes, readable: nat, key: bytes, value: bytes, done: nat)
    requires readable <= |c| && Storable(key, value) && done > 0
    ensures var d := c[..readable];
            Stage(c, PrefixEnd(d), key, value, done) == Stage(d, PrefixEnd(d), key, value, done)
  {
    hide Tail, PrefixEnd, Storable;
    var d := c[..readable];
    assert c[..PrefixEnd(d)] == d[..PrefixEnd(d)];
  }

  /** Reading less than the valid prefix shows strictly fewer entries. */
  lemma EntriesBehind(c: bytes, readable: nat)
    requires readable <= |c|
    ensures Entries(c[..readable]) == Entries(c) <==> PrefixEnd(c) <= readable
  {
    PartialScan(c, readable);
    var d := c[..readable];
    var rest := c[PrefixEnd(d)..];
    assert c == d[..PrefixEnd(d)] + rest;
    PrefixKept(d, rest);
    if PrefixEnd(rest) > 0 {
      HeadEntry(rest);
    }
  }

  lemma HeadEntry(c: bytes)
    requires PrefixEnd(c) > 0
    ensures |Entries(c)| > 0
  {
    HeadIsLocal(c, RecordLen(c));
  }

  // ----- whole runs -----

  datatype Attempt = Attempt(key: bytes, value: bytes, done: nat)

  /** What an attempt adds to the log: its entry if it got as far as committing it. */
  function Contribution(key: bytes, value: bytes, done: nat): seq<Entry> {
    if Storable(key, value) && Landed(key, value, done) then [Entry(key, value)] else []
  }

  function Run(attempts: seq<Attempt>): bytes {
    if attempts == [] then []
    else
      var a := attempts[|attempts| - 1];
      var c := Run(attempts[..|attempts| - 1]);
      PutFile(c, |c|, a.key, a.value, a.done)
  }

  function Contributions(attempts: seq<Attempt>): seq<Entry> {
    if attempts == [] then []
    else
      var a := attempts[|attempts| - 1];
      Contributions(attempts[..|attempts| - 1]) + Contribution(a.key, a.value, a.done)
  }

  /** From an empty file, for any sequence of puts each stopped anywhere: the log holds
      exactly the entries that were committed, in order. */
  lemma {:induction false} RunsKeepTheLog(attempts: seq<Attempt>)
    ensures Clean(Run(attempts)) && Entries(Run(attempts)) == Contributions(attempts)
    decreases |attempts|
  {
    if attempts != [] {
      var n := |attempts| - 1;
      var a, c := attempts[n], Run(attempts[..n]);
      RunsKeepTheLog(attempts[..n]);
      PutIsAtomic(c, |c|, a.key, a.value, a.done);
    }
  }

  /** The map a reader sees after a run, read by the scan that skips bad records. */
  ghost predicate Sees(c: bytes, m: map<bytes, bytes>) {
    forall key :: GetScan(c, key, None) == Lookup(m, key)
  }

  lemma RunsAreReadable(attempts: seq<Attempt>)
    ensures Sees(Run(attempts), View(Contributions(attempts)))
  {
    RunsKeepTheLog(attempts);
    forall key ensures GetScan(Run(attempts), key, None) == Lookup(View(Contributions(attempts)), key) {
      ScansAgree(Run(attempts), key);
    }
  }

  /** Crash atomicity: after any run, one more put leaves readers with the map they had or
      with that map and the key updated; updated if the put returned 0. */
  lemma CrashAtomicity(attempts: seq<Attempt>, a: Attempt)
    ensures var m := View(Contributions(attempts));
            var m' := View(Contributions(attempts + [a]));
            && Sees(Run(attempts), m) && Sees(Run(attempts + [a]), m')
            && (m' == m || m' == m[a.key := a.value])
            && (Storable(a.key, a.value) && a.done >= |PutEffects(0, a.key, a.value)| ==> m' == m[a.key := a.value])
  {
    hide Run, Sees, Storable, Landed, PutEffects, PutLength, View;
    RunsAreReadable(attempts);
    RunsAreReadable(attempts + [a]);
    OneMore(attempts, a);
  }

  /** One more attempt leaves the map of the entries or updates it at its key. */
  lemma OneMore(attempts: seq<Attempt>, a: Attempt)
    ensures var m := View(Contributions(attempts));
            var m' := View(Contributions(attempts + [a]));
            && (m' == m || m' == m[a.key := a.value])
            && (Storable(a.key, a.value) && a.done >= |PutEffects(0, a.key, a.value)| ==> m' == m[a.key := a.value])
  {
    hide Storable, PutEffects, PutLength, View, Contributions;
    var es := Contributions(attempts);
    LastContribution(attempts, a);
    ViewAppend(es, Entry(a.key, a.value));
    assert es + [] == es;
  }

  lemma LastContribution(attempts: seq<Attempt>, a: Attempt)
    ensures Contributions(attempts + [a]) == Contributions(attempts) + Contribution(a.key, a.value, a.done)
  {
    assert (attempts + [a])[..|attempts|] == attempts;
  }

  lemma ViewAppend(es: seq<Entry>, e: Entry)
    ensures View(es + [e]) == View(es)[e.key := e.value]
  {
    assert (es + [e])[..|es|] == es;
  }

  /** With a read error at the head of the file the committed record is gone. */
  lemma ReadErrorLosesData(k: bytes, v: bytes, key: bytes, value: bytes)
    requires Storable(k, v) && Storable(key, value) && k != key
    ensures var c := Image(k, v, COMMITTED);
            var c' := PutFile(c, 0, key, value, PutLength(key, value));
            GetScan(c, k, None) == Some(v) && GetScan(c', k, None) == None
  {
    var c := Image(k, v, COMMITTED);
    var done := PutLength(key, value);
    RecordIsLog(k, v);
    assert c[|c|..] == [];
    ScansAgree(c, k);
    LastValueAppend([], Entry(k, v), k, None);
    assert [] + [Entry(k, v)] == [Entry(k, v)];

    PutFileIsStage(c, 0, key, value, done);
    var c' := PutFile(c, 0, key, value, done);
    assert c[..0] == [];
    StageShape([], key, value, done);
    assert Stage([], 0, key, value, done) == c';
    ScansAgree(c', k);
    LastValueAppend([], Entry(key, value), k, None);
    assert [] + [Entry(key, value)] == [Entry(key, value)];
  }
}
