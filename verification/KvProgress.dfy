/** Calls come to an end: the calls under way have a bounded amount of work, every step of one
    uses some of it up, and while there is a call under way one of them can take a step. */
module KvProgress {
  import opened Options
  import opened Bytes
  import opened KvRecord
  import opened KvLog
  import opened KvCrash
  import opened KvLocks

  // ----- sums over the threads -----

  ghost function SumOf(m: map<nat, nat>): nat {
    if m == map[] then 0
    else
      var k :| k in m;
      m[k] + SumOf(m - {k})
  }

  lemma {:induction false} SumRemove(m: map<nat, nat>, k: nat)
    requires k in m
    ensures SumOf(m) == m[k] + SumOf(m - {k})
    decreases |m|
  {
    var j :| j in m && SumOf(m) == m[j] + SumOf(m - {j});
    if j != k {
      SumRemove(m - {j}, k);
      SumRemove(m - {k}, j);
      assert m - {j} - {k} == m - {k} - {j};
    }
  }

  lemma SumUpdate(m: map<nat, nat>, k: nat, v: nat)
    requires k in m
    ensures SumOf(m[k := v]) + m[k] == SumOf(m) + v
  {
    SumRemove(m, k);
    SumRemove(m[k := v], k);
    assert m[k := v] - {k} == m - {k};
  }

  lemma {:induction false} SumMono(m: map<nat, nat>, m': map<nat, nat>)
    requires m.Keys == m'.Keys && forall k :: k in m ==> m'[k] <= m[k]
    ensures SumOf(m') <= SumOf(m)
    decreases |m|
  {
    if m != map[] {
      var k :| k in m;
      SumRemove(m, k);
      SumRemove(m', k);
      SumMono(m - {k}, m' - {k});
    }
  }

  // ----- how long the file can get -----

  function RecordSize(call: Call): nat {
    match call
    case Put(key, value) => HEADER + |key| + |value|
    case Get(_) => 0
  }

  /** Bytes a call may still append. */
  function Pending(th: Thread): nat {
    match th.pc
    case Idle | DropFlock | DropMutex | DropGlobal => 0
    case Writing(_, done) =>
      var n := RecordSize(th.call);
      if done == 0 then n else if done - 1 <= n then n - (done - 1) else 0
    case _ => RecordSize(th.call)
  }

  ghost function Pendings(s: State): map<nat, nat> {
    map t | t in s.threads :: Pending(s.threads[t])
  }

  /** A bound on the length of the file while only the calls under way go on. */
  ghost function Reach(s: State): nat {
    |s.file| + SumOf(Pendings(s))
  }

  // ----- the work left -----

  function PutSteps(call: Call): nat {
    match call
    case Put(key, value) => PutLength(key, value)
    case Get(_) => 0
  }

  function Left(reach: nat, off: nat): nat { if off <= reach then reach - off else 0 }

  /** Steps a thread may still take, on a file no longer than `reach`. */
  function WorkOf(th: Thread, reach: nat): nat {
    match th.pc
    case Idle => 0
    case DropGlobal => 1
    case DropMutex => 2
    case DropFlock => 3
    case Looking(off, _) => 4 + Left(reach, off)
    case Writing(_, done) => 4 + Left(PutSteps(th.call), done)
    case Scanning(off) => 5 + PutSteps(th.call) + Left(reach, off)
    case WantFlock => 6 + PutSteps(th.call) + reach
    case WantMutex => 7 + PutSteps(th.call) + reach
    case WantGlobal => 8 + PutSteps(th.call) + reach
  }

  ghost function Works(s: State): map<nat, nat> {
    map t | t in s.threads :: WorkOf(s.threads[t], Reach(s))
  }

  ghost function Work(s: State): nat { SumOf(Works(s)) }

  /** One thread moves on, the file does not grow beyond what was pending, and the thread has
      less work left. */
  lemma WorkShrinks(s: State, s': State, t: nat)
    requires t in s.threads && t in s'.threads && s'.threads == s.threads[t := s'.threads[t]]
    requires |s'.file| + Pending(s'.threads[t]) <= |s.file| + Pending(s.threads[t])
    requires WorkOf(s'.threads[t], Reach(s)) < WorkOf(s.threads[t], Reach(s))
    ensures Work(s') < Work(s)
  {
    hide WorkOf, Reach, Pending, SumOf;
    ReachShrinks(s, s', t);
    var w, w' := Works(s), Works(s');
    var mid := w[t := WorkOf(s'.threads[t], Reach(s))];
    SumUpdate(w, t, WorkOf(s'.threads[t], Reach(s)));
    forall u | u in mid ensures w'[u] <= mid[u] {
      WorkGrowsWithReach(s'.threads[u], Reach(s'), Reach(s));
    }
    SumMono(mid, w');
  }

  lemma ReachShrinks(s: State, s': State, t: nat)
    requires t in s.threads && t in s'.threads && s'.threads == s.threads[t := s'.threads[t]]
    requires |s'.file| + Pending(s'.threads[t]) <= |s.file| + Pending(s.threads[t])
    ensures Reach(s') <= Reach(s)
  {
    hide Pending, SumOf;
    var p := Pendings(s);
    assert Pendings(s') == p[t := Pending(s'.threads[t])];
    SumUpdate(p, t, Pending(s'.threads[t]));
  }

  lemma WorkGrowsWithReach(th: Thread, reach: nat, reach': nat)
    requires reach <= reach'
    ensures WorkOf(th, reach) <= WorkOf(th, reach')
  {
  }

  /** A thread goes to another place, and the file stays. */
  lemma MoveShrinks(s: State, s': State, t: nat, pc: Pc)
    requires t in s.threads && s'.threads == Goto(s, t, pc).threads && s'.file == s.file
    requires Pending(s.threads[t].(pc := pc)) <= Pending(s.threads[t])
    requires WorkOf(s.threads[t].(pc := pc), Reach(s)) < WorkOf(s.threads[t], Reach(s))
    ensures Work(s') < Work(s)
  {
    hide WorkOf, Reach, Pending, Work;
    WorkShrinks(s, s', t);
  }

  lemma FileWithinReach(s: State)
    ensures |s.file| <= Reach(s)
  {
  }

  lemma ApplyLength(c: bytes, off: nat, key: bytes, value: bytes, done: nat)
    requires Storable(key, value) && done < PutLength(key, value)
    ensures var n, c' := HEADER + |key| + |value|, Apply(c, EffectAt(off, key, value, done));
            |c'| <= |c| + (if 1 <= done <= n then 1 else 0)
  {
    hide Image;
  }

  lemma ScanUses(s: State, t: nat)
    requires Locks(s) && Data(s) && t in s.threads && s.threads[t].pc.Scanning?
    ensures Work(StepOf(s, t)) < Work(s)
  {
    hide Good, PrefixEnd, Work, Reach, RecordLen, PutLength, Answer, WriteStep, LookStep;
    var th := s.threads[t];
    assert ThreadLocks(s, t) && Working(s.file, s.turns, th.call, th.pc);
    FileWithinReach(s);
    var off := th.pc.off;
    var at := s.file[off..];
    if Good(at) {
      GoodIsWhole(at);
      GoodFits(s.file, off);
      MoveShrinks(s, StepOf(s, t), t, Scanning(off + RecordLen(at)));
    } else {
      MoveShrinks(s, StepOf(s, t), t, Writing(off, 0));
    }
  }

  lemma GoodFits(file: bytes, off: nat)
    requires off <= |file| && Whole(file[off..])
    ensures 0 < RecordLen(file[off..]) && off + RecordLen(file[off..]) <= |file|
  {
  }

  lemma LookUses(s: State, t: nat)
    requires Locks(s) && Data(s) && t in s.threads && s.threads[t].pc.Looking?
    ensures Work(StepOf(s, t)) < Work(s)
  {
    hide Good, Work, Reach, RecordLen, GetScan, ScanStep, WriteStep;
    var th := s.threads[t];
    assert ThreadLocks(s, t) && Working(s.file, s.turns, th.call, th.pc);
    FileWithinReach(s);
    var off := th.pc.off;
    if Whole(s.file[off..]) {
      GoodFits(s.file, off);
      MoveShrinks(s, StepOf(s, t), t, StepOf(s, t).threads[t].pc);
    } else {
      MoveShrinks(s, StepOf(s, t), t, DropFlock);
    }
  }

  lemma WriteUses(s: State, t: nat)
    requires Locks(s) && Data(s) && t in s.threads && s.threads[t].pc.Writing?
    ensures Work(StepOf(s, t)) < Work(s)
  {
    hide Work, Reach, EffectAt, Apply, PrefixEnd, ScanStep, LookStep;
    var th := s.threads[t];
    assert ThreadLocks(s, t) && Working(s.file, s.turns, th.call, th.pc);
    if th.pc.done < PutLength(th.call.key, th.call.value) {
      ApplyLength(s.file, th.pc.off, th.call.key, th.call.value, th.pc.done);
      WorkShrinks(s, StepOf(s, t), t);
    } else {
      MoveShrinks(s, StepOf(s, t), t, DropFlock);
    }
  }

  lemma LockUses(s: State, t: nat)
    requires Locks(s) && t in s.threads && CanStep(s, s.threads[t])
    requires var pc := s.threads[t].pc; !pc.Scanning? && !pc.Writing? && !pc.Looking?
    ensures Work(StepOf(s, t)) < Work(s)
  {
    hide Work, Reach, StepOf, Locks;
    LockStepMoves(s, t);
    LockStepUses(s.threads[t], Reach(s));
    MoveShrinks(s, StepOf(s, t), t, LockStep(s.threads[t]));
  }

  lemma LockStepUses(th: Thread, reach: nat)
    requires th.pc != Idle && !th.pc.Scanning? && !th.pc.Writing? && !th.pc.Looking?
    ensures WorkOf(th.(pc := LockStep(th)), reach) < WorkOf(th, reach)
    ensures Pending(th.(pc := LockStep(th))) <= Pending(th)
  {
  }

  lemma FailUses(s: State, t: nat)
    requires Locks(s) && Data(s) && Enabled(s, Fail(t))
    ensures Work(FailOf(s, t)) < Work(s)
  {
    hide Work, Reach, PrefixEnd, GetScan;
    var th := s.threads[t];
    assert ThreadLocks(s, t);
    if th.pc.WantFlock? {
      MoveShrinks(s, FailOf(s, t), t, DropMutex);
    } else {
      assert Working(s.file, s.turns, th.call, th.pc);
      MoveShrinks(s, FailOf(s, t), t, DropFlock);
    }
  }

  lemma ReadErrorUses(s: State, t: nat)
    requires Locks(s) && Data(s) && Enabled(s, ReadError(t))
    ensures Work(ReadErrorOf(s, t)) < Work(s)
  {
    hide Work, Reach, PrefixEnd, GetScan, Good;
    var th := s.threads[t];
    assert ThreadLocks(s, t) && Working(s.file, s.turns, th.call, th.pc);
    MoveShrinks(s, ReadErrorOf(s, t), t, ReadErrorOf(s, t).threads[t].pc);
  }

  /** A step of a call under way, failing or not. */
  predicate ByCall(a: Action) { a.Step? || a.ReadError? || a.Fail? }

  /** Every step of a call under way uses up work. */
  lemma StepUses(s: State, a: Action)
    requires Locks(s) && Data(s) && Enabled(s, a) && ByCall(a)
    ensures Work(Next(s, a)) < Work(s)
  {
    hide Work, StepOf, FailOf, ReadErrorOf, Locks, Data;
    match a
    case ReadError(t) => ReadErrorUses(s, t);
    case Fail(t) => FailUses(s, t);
    case Step(t) =>
      match s.threads[t].pc {
        case Scanning(_) => ScanUses(s, t);
        case Writing(_, _) => WriteUses(s, t);
        case Looking(_, _) => LookUses(s, t);
        case _ => LockUses(s, t);
      }
  }

  lemma {:induction false} RunUses(s: State, actions: seq<Action>, s': State)
    requires Locks(s) && Data(s) && Runs(s, actions, s')
    requires forall i :: 0 <= i < |actions| ==> ByCall(actions[i])
    ensures |actions| + Work(s') <= Work(s)
    decreases |actions|
  {
    hide Work, Next, Locks, Data, Enabled;
    if actions != [] {
      StepUses(s, actions[0]);
      LocksStep(s, actions[0]);
      DataStep(s, actions[0]);
      RunUses(Next(s, actions[0]), actions[1..], s');
    }
  }

  /** From every reachable state, with no new calls, the calls under way take a bounded number
      of steps, and when none can take a step all of them have returned. */
  lemma CallsEnd(before: seq<Action>, s: State, after: seq<Action>, s': State)
    requires Runs(Init, before, s) && Runs(s, after, s')
    requires forall i :: 0 <= i < |after| ==> ByCall(after[i])
    ensures |after| <= Work(s)
    ensures (forall a :: ByCall(a) ==> !Enabled(s', a)) ==> forall t :: t in s'.threads ==> s'.threads[t].pc == Idle
  {
    hide Work, Next, Locks, Data, Enabled;
    RunsKeep(Init, before, s) by {
      InitIsSound();
    }
    RunUses(s, after, s');
    RunsAppend(Init, before, s, after, s');
    if t :| t in s'.threads && s'.threads[t].pc != Idle {
      var u := NeverStuck(before + after, s', t);
      assert ByCall(Step(u));
    }
  }

  lemma InitIsSound()
    ensures Locks(Init) && Data(Init)
  {
  }

  lemma {:induction false} RunsAppend(s: State, as1: seq<Action>, s1: State, as2: seq<Action>, s2: State)
    requires Runs(s, as1, s1) && Runs(s1, as2, s2)
    ensures Runs(s, as1 + as2, s2)
    decreases |as1|
  {
    hide Next, Enabled;
    if as1 == [] {
      assert as1 + as2 == as2;
    } else {
      assert (as1 + as2)[1..] == as1[1..] + as2;
      RunsAppend(Next(s, as1[0]), as1[1..], s1, as2, s2);
    }
  }
}
