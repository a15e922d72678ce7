/** The database handle: `kvdb_put` and `kvdb_get` as they drive the file. */
module KvStore {
  import opened Options
  import opened Bytes
  import opened KvRecord
  import opened KvLog
  import opened KvCrash

  /** How many leading bytes of the file reads can deliver before the device fails. */
  function Readable(content: bytes, limit: nat): (r: bytes)
    ensures |r| <= |content|
  {
    if limit <= |content| then content[..limit] else content
  }

  class Store {
    var content: bytes   // the file
    var synced: bytes    // the file as of the last sync
    var pos: nat         // the file offset
    var limit: nat       // reads fail past this offset
    var budget: nat      // effects that still succeed before the device fails

    constructor ()
      ensures content == [] && pos == 0
    {
      content, synced, pos, limit, budget := [], [], 0, 0, 0;
    }

    /** Reads `len` bytes, in chunks of any size the system chooses to return. */
    method ReadAllOrEof(len: nat) returns (r: int, data: bytes)
      requires pos <= |Readable(content, limit)|
      modifies this`pos
      ensures pos <= |Readable(content, limit)|
      ensures r == 1 <==> old(pos) + len <= |Readable(content, limit)|
      ensures r == 1 ==> pos == old(pos) + len && data == Readable(content, limit)[old(pos)..pos]
      ensures r == 0 <==> len > 0 && old(pos) == |content|
      ensures -1 <= r <= 1
    {
      var avail := Readable(content, limit);
      data := [];
      while |data| < len
        invariant |data| <= len && old(pos) + |data| == pos <= |avail|
        invariant data == avail[old(pos)..pos]
        decreases len - |data|
      {
        if pos == |content| {
          return if data == [] then 0 else -1, data;
        }
        if pos == |avail| {
          return -1, data;
        }
        var n :| 1 <= n <= len - |data| && pos + n <= |avail|;
        data := data + avail[pos..pos + n];
        pos := pos + n;
      }
      r := 1;
    }

    /** Writes at the end of the file, in chunks of any size, until done or failed. */
    method WriteAll(data: bytes) returns (rc: int)
      requires pos == |content|
      modifies this`content, this`pos, this`budget
      ensures var n := if |data| <= old(budget) then |data| else old(budget);
              && content == old(content) + data[..n]
              && pos == |content|
              && budget == old(budget) - n
              && rc == (if n == |data| then 0 else -1)
    {
      var done := 0;
      while done < |data|
        invariant done <= |data| && done + budget == old(budget)
        invariant content == old(content) + data[..done] && pos == |content|
      {
        if budget == 0 {
          return -1;
        }
        var n :| 1 <= n <= |data| - done && n <= budget;
        assert data[..done] + data[done..done + n] == data[..done + n];
        content := content + data[done..done + n];
        done, budget := done + n, budget - n;
        pos := |content|;
      }
      assert data[..done] == data;
      rc := 0;
    }

    method Fsync() returns (rc: int)
      modifies this`budget, this`synced
      ensures synced == if rc == 0 then content else old(synced)
      ensures rc == (if old(budget) > 0 then 0 else -1)
      ensures budget == (if old(budget) > 0 then old(budget) - 1 else 0)
    {
      if budget == 0 {
        return -1;
      }
      budget := budget - 1;
      synced := content;
      rc := 0;
    }

    /** Reads the record at the file offset; `whole` is false where the loops of both scans
        give up before looking at the checksum. */
    method ReadRecord() returns (whole: bool, rec: bytes, key: bytes, value: bytes)
      requires pos <= |Readable(content, limit)|
      modifies this`pos
      ensures pos <= |Readable(content, limit)|
      ensures var at := Readable(content, limit)[old(pos)..];
              && (whole <==> Whole(at))
              && (whole ==> pos == old(pos) + RecordLen(at) && |rec| == HEADER)
              && (whole ==> Word(rec, 4) == Word(at, 4) && Word(rec, 16) == Word(at, 16))
              && (whole ==> key == KeyOf(at) && value == ValueOf(at))
    {
      hide Readable, Word, HeaderOk;
      ghost var avail := Readable(content, limit);
      ghost var at := avail[pos..];
      whole, key, value := false, [], [];
      var r;
      r, rec := ReadAllOrEof(HEADER);
      if r != 1 {
        return;
      }
      assert rec == at[..HEADER];
      HeadIsLocal(at, HEADER);
      if !HeaderOk(rec) {
        return;
      }
      r, key := ReadAllOrEof(KeyLen(rec));
      if r != 1 {
        return;
      }
      r, value := ReadAllOrEof(ValueLen(rec));
      whole := r == 1;
      if whole {
        SlicesOf(avail, old(pos), HEADER, KeyLen(rec), ValueLen(rec));
      }
    }

    /** `valid_prefix_end`: the end of the valid prefix, as far as it can be read. */
    method ValidPrefixEnd() returns (end: nat)
      modifies this`pos
      ensures end == PrefixEnd(Readable(content, limit))
    {
      ghost var avail := Readable(content, limit);
      pos, end := 0, 0;
      assert avail[0..] == avail;
      while true
        invariant pos == end <= |avail|
        invariant PrefixEnd(avail) == end + PrefixEnd(avail[end..])
        decreases |avail| - end
      {
        ghost var at := avail[pos..];
        var whole, rec, key, value := ReadRecord();
        if !whole || Word(rec, 4) != COMMITTED {
          return;
        }
        var sum := RecordChecksum(key, value);
        if sum != Word(rec, 16) {
          return;
        }
        assert at[RecordLen(at)..] == avail[pos..];
        end := pos;
      }
    }

    /** `kvdb_put`. Its file effects are a prefix of the effects of a whole put, cut where
        the budget ran out; it returns 0 exactly when all of them happened. */
    method Put(key: bytes, value: bytes) returns (rc: int)
      modifies this
      ensures var readable := |Readable(old(content), old(limit))|;
              content == PutFile(old(content), readable, key, value, old(budget))
      ensures rc == 0 <==> 0 < |key| <= 64 * 1024 && |value| <= 16 * 1024 * 1024
                           && old(budget) >= |PutEffects(0, key, value)|
      ensures rc == 0 || rc == -1
      ensures rc == 0 ==> synced == content
      ensures limit == old(limit)
    {
      if !Storable(key, value) {
        return -1;
      }
      ghost var c, done := content, budget;
      ghost var readable := |Readable(c, limit)|;
      assert c[..readable] == Readable(c, limit);
      PutFileIsStage(c, readable, key, value, done);
      var off := ValidPrefixEnd();
      rc := Transact(off, key, value);
    }

    /** The part of `kvdb_put` behind the scan. */
    method Transact(off: nat, key: bytes, value: bytes) returns (rc: int)
      requires Storable(key, value) && off <= |content|
      modifies this
      ensures content == Stage(old(content), off, key, value, old(budget))
      ensures rc == (if old(budget) >= |PutEffects(off, key, value)| then 0 else -1)
      ensures var n := HEADER + |key| + |value|;
              synced == if old(budget) < n + 2 then old(synced)
                        else if old(budget) < n + 7 then old(content)[..off] + Image(key, value, 0)
                        else content
      ensures limit == old(limit)
    {
      hide Image, Storable, PutEffects;
      rc := -1;
      if budget == 0 {
        return;
      }
      ghost var c, done, n := content, budget, HEADER + |key| + |value|;
      budget := budget - 1;
      content := content[..off];
      pos := off;
      var ok := AppendRecord(key, value);
      if ok != 0 {
        return;
      }
      ok := Fsync();
      if ok != 0 {
        return;
      }
      assert content == c[..off] + Image(key, value, CommitWord(0));
      var word := Le32(COMMITTED);
      var j := 0;
      while j < 4 && budget > 0
        invariant j <= 4 && n + 2 + j + budget == done && limit == old(limit)
        invariant synced == c[..off] + Image(key, value, 0)
        invariant content == c[..off] + Image(key, value, CommitWord(j))
      {
        PokeCommit(c[..off], key, value, j);
        content := content[off + 4 + j := word[j]];
        j, budget := j + 1, budget - 1;
      }
      if j == 4 {
        rc := Fsync();
      }
    }

    method AppendRecord(key: bytes, value: bytes) returns (rc: int)
      requires Storable(key, value) && pos == |content|
      modifies this`content, this`pos, this`budget
      ensures var r := Image(key, value, 0);
              var n := if |r| <= old(budget) then |r| else old(budget);
              && content == old(content) + r[..n]
              && pos == |content|
              && budget == old(budget) - n
              && rc == (if n == |r| then 0 else -1)
    {
      ghost var c, b := content, budget;
      var header := Header(key, value, 0);
      rc := WriteAll(header);
      if rc == 0 {
        rc := WriteAll(key);
        if rc == 0 {
          rc := WriteAll(value);
        }
      }
      ThreeWrites(c, header, key, value, b);
    }

    /** `kvdb_get`: the last committed value its scan meets. It returns -1 exactly if there is
        none or the key is out of bounds; otherwise as much of the value as fits in front of
        a terminating zero is stored, and its length returned. */
    method Get(key: bytes, length: nat) returns (rc: int, buf: bytes)
      modifies this`pos
      ensures var found := GetScan(Readable(content, limit), key, None);
              && (rc == -1 <==> found.None? || key == [] || |key| > 64 * 1024)
              && (rc == -1 || length == 0 ==> buf == [])
              && (rc != -1 && length == 0 ==> rc == 0)
              && (rc != -1 && length > 0 ==>
                    && rc == (if |found.value| < length then |found.value| else length - 1)
                    && |buf| == rc + 1 && buf[rc] == 0 && buf[..rc] == found.value[..rc])
    {
      if !(0 < |key| <= MAX_KEY) {
        return -1, [];
      }
      ghost var avail := Readable(content, limit);
      var best := None;
      pos := 0;
      assert avail[0..] == avail;
      while true
        invariant pos <= |avail|
        invariant GetScan(avail, key, None) == GetScan(avail[pos..], key, best)
        decreases |avail| - pos
      {
        ghost var at := avail[pos..];
        var whole, rec, k, v := ReadRecord();
        if !whole {
          break;
        }
        assert at[RecordLen(at)..] == avail[pos..];
        var sum := RecordChecksum(k, v);
        if Word(rec, 4) == COMMITTED && Word(rec, 16) == sum && k == key {
          best := Some(v);
        }
      }
      rc, buf := -1, [];
      if best.Some? {
        if length > 0 {
          var n := |best.value|;
          if n >= length {
            n := length - 1;
          }
          rc, buf := n, best.value[..n] + [0];
        } else {
          rc := 0;
        }
      }
    }
  }

  /** Writing three parts in turn until the budget runs out writes a prefix of the whole. */
  lemma ThreeWrites(c: bytes, h: bytes, k: bytes, v: bytes, budget: nat)
    ensures budget <= |h| ==> c + h[..budget] == c + (h + k + v)[..budget]
    ensures |h| <= budget <= |h| + |k| ==>
              c + h[..|h|] + k[..budget - |h|] == c + (h + k + v)[..budget]
    ensures |h| + |k| <= budget <= |h| + |k| + |v| ==>
              c + h[..|h|] + k[..|k|] + v[..budget - |h| - |k|] == c + (h + k + v)[..budget]
    ensures c + h[..|h|] + k[..|k|] + v[..|v|] == c + (h + k + v)[..|h| + |k| + |v|]
  {
  }

  lemma SlicesOf(c: bytes, at: nat, h: nat, k: nat, v: nat)
    requires at + h + k + v <= |c|
    ensures c[at + h..at + h + k] == c[at..][h..h + k]
    ensures c[at + h + k..at + h + k + v] == c[at..][h + k..h + k + v]
  {
  }

  /** What reads up to `limit` can deliver of a file, and the entries behind it. */
  function Seen(c: bytes, limit: nat): seq<Entry> {
    Entries(Readable(c, limit))
  }

  function Missed(c: bytes, limit: nat): seq<Entry> {
    Entries(c[PrefixEnd(Readable(c, limit))..])
  }

  /** On every file that puts can produce, stopped anywhere, and wherever reads begin to fail, a
      get finds the last value for its key among the entries reads deliver; if no read fails,
      these are all the committed entries. */
  lemma GetAfterRun(attempts: seq<Attempt>, key: bytes, limit: nat)
    ensures var c := Run(attempts);
            && GetScan(Readable(c, limit), key, None) == LastValue(Seen(c, limit), key, None)
            && Contributions(attempts) == Seen(c, limit) + Missed(c, limit)
            && (PrefixEnd(c) <= limit ==> Missed(c, limit) == [])
  {
    hide Entries, PrefixEnd, Run, Contributions, Clean;
    var c := Run(attempts);
    RunsKeepTheLog(attempts);
    ReadableIsCut(c, limit);
    var d := Readable(c, limit);
    CleanWhenCut(c, |d|);
    ScansAgree(d, key);
    SeenAndMissed(c, limit);
  }

  lemma ReadableIsCut(c: bytes, limit: nat)
    ensures Readable(c, limit) == c[..|Readable(c, limit)|]
    ensures limit <= |c| ==> |Readable(c, limit)| == limit
    ensures limit >= |c| ==> Readable(c, limit) == c
  {
  }

  lemma SeenAndMissed(c: bytes, limit: nat)
    ensures PrefixEnd(Readable(c, limit)) <= |c|
    ensures Entries(c) == Seen(c, limit) + Missed(c, limit)
    ensures PrefixEnd(c) <= limit ==> Missed(c, limit) == []
  {
    hide Entries, PrefixEnd;
    ReadableIsCut(c, limit);
    var d := Readable(c, limit);
    PartialScan(c, |d|);
    var rest := c[PrefixEnd(d)..];
    assert c == d[..PrefixEnd(d)] + rest;
    PrefixKept(d, rest);
    if PrefixEnd(c) <= limit {
      assert PrefixEnd(rest) == 0;
      NoneBehind(rest);
    }
  }

  lemma NoneBehind(c: bytes)
    requires PrefixEnd(c) == 0
    ensures Entries(c) == []
  {
    if Good(c) {
      FirstEntry(c);
    } else {
      NoEntry(c);
    }
  }

  /** A get whose reads begin to fail at `limit` finds the last committed value if and only if no
      entry for its key is missed, or the last one missed repeats the last one seen. Otherwise
      it returns an older value, or -1, without an error. */
  lemma GetIsCurrentIff(attempts: seq<Attempt>, key: bytes, limit: nat)
    ensures var c := Run(attempts);
            var missed := LastValue(Missed(c, limit), key, None);
            GetScan(Readable(c, limit), key, None) == LastValue(Contributions(attempts), key, None)
            <==> missed.None? || missed == LastValue(Seen(c, limit), key, None)
  {
    hide Entries, PrefixEnd, Run, Contributions, Clean;
    var c := Run(attempts);
    RunsKeepTheLog(attempts);
    ReadableIsCut(c, limit);
    CleanWhenCut(c, |Readable(c, limit)|);
    ScansAgree(Readable(c, limit), key);
    SeenAndMissed(c, limit);
    LastValueSplit(Seen(c, limit), Missed(c, limit), key, None);
    LastValueFrom(Missed(c, limit), key, LastValue(Seen(c, limit), key, None));
  }

  /** Two puts of a key, and a read error behind the first record: the older value is returned. */
  lemma ReadErrorReturnsOlderValue(k: bytes, v: bytes, v': bytes)
    requires Storable(k, v) && Storable(k, v') && v != v'
    ensures var full := Attempt(k, v, PutLength(k, v));
            var again := Attempt(k, v', PutLength(k, v'));
            var c, limit := Run([full, again]), HEADER + |k| + |v|;
            && GetScan(c, k, None) == Some(v')
            && GetScan(Readable(c, limit), k, None) == Some(v)
  {
    hide Storable, PutLength, Image, Entries, PrefixEnd, Run, GetScan, LastValue;
    var a, b := Image(k, v, COMMITTED), Image(k, v', COMMITTED);
    TwoPuts(k, v, v');
    RecordIsLog(k, v);
    RecordIsLog(k, v');
    PrefixKept(a, b);
    assert a[..|a|] == a && (a + b)[..|a|] == a;
    ReadableIsCut(a + b, |a|);
    LogAnswer(a, k, [], Entry(k, v));
    LogAnswer(a + b, k, [Entry(k, v)], Entry(k, v'));
  }

  lemma TwoPuts(k: bytes, v: bytes, v': bytes)
    requires Storable(k, v) && Storable(k, v')
    ensures Run([Attempt(k, v, PutLength(k, v)), Attempt(k, v', PutLength(k, v'))])
         == Image(k, v, COMMITTED) + Image(k, v', COMMITTED)
  {
    hide Storable, PutLength, Image, PrefixEnd, PutFile;
    var full, again := Attempt(k, v, PutLength(k, v)), Attempt(k, v', PutLength(k, v'));
    assert [full, again][..1] == [full] && [full][..0] == [];
    NoPrefix();
    CommittedOnce([], k, v);
    RecordIsLog(k, v);
    assert [] + Image(k, v, COMMITTED) == Image(k, v, COMMITTED);
    assert Run([full]) == Image(k, v, COMMITTED);
    CommittedOnce(Image(k, v, COMMITTED), k, v');
  }

  lemma NoPrefix()
    ensures PrefixEnd([]) == 0
  {
  }

  /** On a file that is a log, the last entry answers for its key. */
  lemma LogAnswer(c: bytes, key: bytes, es: seq<Entry>, e: Entry)
    requires PrefixEnd(c) == |c| && Entries(c) == es + [e] && e.key == key
    ensures GetScan(c, key, None) == Some(e.value)
  {
    hide Entries, PrefixEnd, GetScan, LastValue;
    assert c[|c|..] == [];
    ScansAgree(c, key);
    LastValueAppend(es, e, key, None);
  }

  /** A put that completes on a log appends its record. */
  lemma CommittedOnce(c: bytes, key: bytes, value: bytes)
    requires Storable(key, value) && PrefixEnd(c) == |c|
    ensures PutFile(c, |c|, key, value, PutLength(key, value)) == c + Image(key, value, COMMITTED)
  {
    hide Storable, Image, PrefixEnd;
    PutFileIsStage(c, |c|, key, value, PutLength(key, value));
    assert c[..|c|] == c;
  }
}
