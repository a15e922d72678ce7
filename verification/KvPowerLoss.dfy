/** What the two `fsync` calls of a put are for: a power failure loses effects that were not yet
    synced. Once the record is synced, any of the four bytes of the commit word may be lost. */
module KvPowerLoss {
  import opened Options
  import opened Bytes
  import opened KvRecord
  import opened KvLog
  import opened KvCrash

  /** The file as of the last sync; before the first one, as it was. */
  function Durable(c: bytes, es: seq<Effect>): bytes {
    if es == [] then c
    else if es[|es| - 1] == Sync then ApplyAll(c, es)
    else Durable(c, es[..|es| - 1])
  }

  /** The effects behind the last sync. */
  function Unsynced(es: seq<Effect>): seq<Effect> {
    if es == [] || es[|es| - 1] == Sync then [] else Unsynced(es[..|es| - 1]) + [es[|es| - 1]]
  }

  /** Those of the effects that are kept. */
  function Kept(es: seq<Effect>, keep: seq<bool>): seq<Effect>
    requires |keep| == |es|
  {
    if es == [] then []
    else
      var n := |es| - 1;
      Kept(es[..n], keep[..n]) + (if keep[n] then [es[n]] else [])
  }

  /** The disk after a power failure: what was synced, and any of what was not. */
  function Disk(c: bytes, es: seq<Effect>, keep: seq<bool>): bytes
    requires |keep| == |Unsynced(es)|
  {
    ApplyAll(Durable(c, es), Kept(Unsynced(es), keep))
  }

  // ----- what has been synced -----

  function Done(off: nat, key: bytes, value: bytes, done: nat): (es: seq<Effect>)
    requires Storable(key, value)
  {
    var es := PutEffects(off, key, value);
    if done <= |es| then es[..done] else es
  }

  lemma DoneAt(off: nat, key: bytes, value: bytes, done: nat)
    requires Storable(key, value) && 0 < done <= PutLength(key, value)
    ensures var es := Done(off, key, value, done);
            && |es| == done && es[..done - 1] == Done(off, key, value, done - 1)
            && es[done - 1] == EffectAt(off, key, value, done - 1)
  {
    PutEffectsAt(off, key, value, done - 1);
  }

  lemma DoneIsStage(c: bytes, off: nat, key: bytes, value: bytes, done: nat)
    requires off <= |c| && Storable(key, value) && done <= PutLength(key, value)
    ensures ApplyAll(c, Done(off, key, value, done)) == Stage(c, off, key, value, done)
  {
    hide Stage, EffectAt;
    var es := Done(off, key, value, done);
    forall i | 0 <= i < |es| ensures es[i] == EffectAt(off, key, value, i) {
      PutEffectsAt(off, key, value, i);
    }
    EffectsReachStage(c, off, key, value, es);
  }

  /** Nothing is durable until the record is, with a zero commit word; and the committed record is
      exactly when the put has returned 0. Unsynced are, in between, only bytes of the commit
      word. */
  lemma {:induction false} SyncedFirst(c: bytes, off: nat, key: bytes, value: bytes, done: nat)
    requires off <= |c| && Storable(key, value) && done <= PutLength(key, value)
    ensures var n, es := HEADER + |key| + |value|, Done(off, key, value, done);
            && Durable(c, es) == (if done < n + 2 then c
                                  else if done < n + 7 then c[..off] + Image(key, value, 0)
                                  else c[..off] + Image(key, value, COMMITTED))
            && (done < n + 2 ==> |Unsynced(es)| == done)
            && (n + 2 <= done < n + 7 ==> Unsynced(es) == Pokes(off, done - n - 2))
            && (done == n + 7 ==> Unsynced(es) == [])
    decreases done
  {
    hide Done, ApplyAll, Image;
    if done == 0 {
      NothingDone(off, key, value);
    } else {
      var n := HEADER + |key| + |value|;
      DoneAt(off, key, value, done);
      SyncedFirst(c, off, key, value, done - 1);
      if done == n + 2 || done == n + 7 {
        DoneIsStage(c, off, key, value, done);
        var r := Image(key, value, 0);
        assert r[..n] == r;
      }
    }
  }

  lemma NothingDone(off: nat, key: bytes, value: bytes)
    requires Storable(key, value)
    ensures Done(off, key, value, 0) == []
  {
  }

  /** The first `j` bytes of the commit word. */
  function Pokes(off: nat, j: nat): (es: seq<Effect>)
    requires j <= 4
    ensures |es| == j
  {
    if j == 0 then [] else Pokes(off, j - 1) + [Poke(off + 4 + (j - 1), Le32(COMMITTED)[j - 1])]
  }

  // ----- the commit word with some of its bytes -----

  function CommitKept(keep: seq<bool>): (b: bytes)
    requires |keep| <= 4
    ensures |b| == 4
  {
    seq(4, i requires 0 <= i < 4 => if i < |keep| && keep[i] then Le32(COMMITTED)[i] else 0)
  }

  function Rest(key: bytes, value: bytes): bytes
    requires Storable(key, value)
  {
    Le32(|key|) + Le32(|value|) + Le32(Checksum(key, value)) + Le32(0) + key + value
  }

  lemma ImageWith(key: bytes, value: bytes, w: u32)
    requires Storable(key, value)
    ensures Image(key, value, w) == Le32(MAGIC) + Le32(w) + Rest(key, value)
  {
    hide Le32, Checksum;
  }

  lemma {:induction false} PokesKept(front: bytes, key: bytes, value: bytes, j: nat, keep: seq<bool>)
    requires Storable(key, value) && |keep| == j <= 4
    ensures ApplyAll(front + Image(key, value, 0), Kept(Pokes(|front|, j), keep))
         == front + (Le32(MAGIC) + CommitKept(keep) + Rest(key, value))
    decreases j
  {
    hide Le32, Image, Rest, CommitKept;
    var start := front + Image(key, value, 0);
    if j == 0 {
      ImageWith(key, value, 0);
      NoneKept(keep);
    } else {
      var keep' := keep[..j - 1];
      PokesKept(front, key, value, j - 1, keep');
      var es := Kept(Pokes(|front|, j - 1), keep');
      var b := Le32(COMMITTED)[j - 1];
      OneMoreKept(keep);
      if keep[j - 1] {
        PokeWord(front, Le32(MAGIC), CommitKept(keep'), Rest(key, value), j - 1, b);
        assert (es + [Poke(|front| + 4 + (j - 1), b)])[..|es|] == es;
      } else {
        assert es + [] == es;
      }
    }
  }

  lemma NoneKept(keep: seq<bool>)
    requires keep == []
    ensures CommitKept(keep) == Le32(0)
  {
  }

  lemma OneMoreKept(keep: seq<bool>)
    requires 0 < |keep| <= 4
    ensures var j := |keep| - 1;
            CommitKept(keep) == if keep[j] then CommitKept(keep[..j])[j := Le32(COMMITTED)[j]] else CommitKept(keep[..j])
  {
    hide Le32;
  }

  /** Once the record is synced, a power failure leaves the old log or the log with the new entry,
      whichever bytes of the commit word it loses; the new entry is there exactly if none is lost,
      and so always if the put has returned 0. */
  lemma PowerLossIsAtomic(c: bytes, key: bytes, value: bytes, done: nat, keep: seq<bool>)
    requires Clean(c) && Storable(key, value)
    requires HEADER + |key| + |value| + 2 <= done <= |PutEffects(0, key, value)|
    requires |keep| == |Unsynced(Done(PrefixEnd(c), key, value, done))|
    ensures var f := Disk(c, Done(PrefixEnd(c), key, value, done), keep);
            var all := done == |PutEffects(0, key, value)| || (|keep| == 4 && false !in keep);
            Clean(f) && Entries(f) == Entries(c) + if all then [Entry(key, value)] else []
  {
    hide Image, Entries, PrefixEnd, Clean, Done, PutEffects, CommitKept, Rest, Le32, Unsynced, Durable, Kept, ApplyAll, Pokes, Storable;
    var off, n := PrefixEnd(c), HEADER + |key| + |value|;
    assert off <= |c|;
    SyncedFirst(c, off, key, value, done);
    if done == n + 7 {
      WordLanded(c, key, value, Le32(COMMITTED));
      ImageWith(key, value, COMMITTED);
      NoneLeft(Durable(c, Done(off, key, value, done)));
    } else {
      PokesKept(c[..off], key, value, done - n - 2, keep);
      WordLanded(c, key, value, CommitKept(keep));
      AllKept(keep);
    }
  }

  lemma NoneLeft(d: bytes)
    ensures ApplyAll(d, Kept([], [])) == d
  {
  }

  lemma CommittedBytes()
    ensures Le32(COMMITTED) == [0xed, 0x17, 0x11, 0xc0]
  {
  }

  lemma AllKept(keep: seq<bool>)
    requires |keep| <= 4
    ensures CommitKept(keep) == Le32(COMMITTED) <==> |keep| == 4 && false !in keep
  {
    hide Le32;
    CommittedBytes();
    var b := CommitKept(keep);
    if |keep| == 4 && false !in keep {
      assert keep[0] && keep[1] && keep[2] && keep[3];
    } else {
      var i :| 0 <= i < 4 && (i >= |keep| || !keep[i]);
      assert b[i] == 0 && Le32(COMMITTED)[i] != 0;
    }
  }

  /** The record with any commit word behind the valid prefix of a file. */
  lemma WordLanded(c: bytes, key: bytes, value: bytes, word: bytes)
    requires Storable(key, value) && |word| == 4
    ensures var f := c[..PrefixEnd(c)] + (Le32(MAGIC) + word + Rest(key, value));
            && Clean(f)
            && Entries(f) == Entries(c) + if word == Le32(COMMITTED) then [Entry(key, value)] else []
  {
    hide Le32, Rest, Checksum, Image, FromLe;
    var w := FromLe(word);
    Le32OfBytes(word);
    ImageWith(key, value, w);
    Le32RoundTrip(COMMITTED);
    var r := Image(key, value, w);
    PrefixKept(c, r);
    ImageDecodes(key, value, w);
    var f := c[..PrefixEnd(c)] + r;
    if w == COMMITTED {
      RecordIsLog(key, value);
      assert f[PrefixEnd(f)..] == [];
    } else {
      NoEntry(r);
      assert f[PrefixEnd(f)..] == r;
    }
  }
}
