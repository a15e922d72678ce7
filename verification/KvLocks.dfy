/** Any number of processes and threads using one database file. A call takes the process
    mutex, the handle's mutex and the file lock, in this order, works on the file, and
    releases them in the opposite order. A process may die between any two steps; the
    system then releases its locks. Each process opens the file itself. */
module KvLocks {
  import opened Options
  import opened Bytes
  import opened KvRecord
  import opened KvLog
  import opened KvCrash
  import KvStore

  datatype Call = Put(key: bytes, value: bytes) | Get(key: bytes)
  datatype Reply = Rc(ok: bool) | Found(value: Option<bytes>) | Failed

  datatype Pc =
    | Idle
    | WantGlobal | WantMutex | WantFlock
    | Scanning(off: nat)
    | Writing(off: nat, done: nat)
    | Looking(off: nat, best: Option<bytes>)
    | DropFlock | DropMutex | DropGlobal

  datatype Thread = Thread(pid: nat, handle: nat, call: Call, pc: Pc)

  /** One turn at the file lock: who took it, for which call, how many effects it has had,
      behind which byte its reads failed, if they did, and what it replied, if it lived to. */
  datatype Turn = Turn(tid: nat, call: Call, done: nat, readable: Option<nat>, reply: Option<Reply>)

  datatype State = State(
    file: bytes,
    owner: map<nat, nat>,      // handle -> process
    threads: map<nat, Thread>,
    globals: map<nat, nat>,    // process -> thread holding its global mutex
    mutexes: map<nat, nat>,    // handle -> thread holding its mutex
    flock: Option<nat>,        // handle holding the file lock
    turns: seq<Turn>)          // in order of acquiring the file lock

  datatype Action =
    | Open(pid: nat, handle: nat)
    | Begin(tid: nat, pid: nat, handle: nat, call: Call)
    | Step(tid: nat)
    | Fail(tid: nat)
    | ReadError(tid: nat)
    | Kill(pid: nat)

  // ----- the sequential meaning -----

  /** How much of file `c` the reads of a turn deliver. */
  function ReadableOf(c: bytes, turn: Turn): (n: nat)
    ensures n <= |c|
  {
    if turn.readable.Some? && turn.readable.value <= |c| then turn.readable.value else |c|
  }

  function Exec(c: bytes, turn: Turn): bytes {
    match turn.call
    case Put(key, value) => PutFile(c, ReadableOf(c, turn), key, value, turn.done)
    case Get(_) => c
  }

  /** The file after the turns, run one after the other. */
  function Sequential(turns: seq<Turn>): bytes {
    if turns == [] then [] else Exec(Sequential(turns[..|turns| - 1]), turns[|turns| - 1])
  }

  /** A reply, if given, is what the call returns when run alone on file `c`; a lookup of which
      a system call failed found nothing out. */
  predicate ReplyOk(c: bytes, turn: Turn) {
    turn.reply.Some? ==>
      match turn.call
      case Put(key, value) => turn.reply.value == Rc(Acknowledged(key, value, turn.done))
      case Get(key) => turn.reply.value == Found(GetScan(c[..ReadableOf(c, turn)], key, None)) || turn.reply.value == Failed
  }

  predicate RepliesOk(turns: seq<Turn>) {
    turns == [] || (RepliesOk(turns[..|turns| - 1])
                    && ReplyOk(Sequential(turns[..|turns| - 1]), turns[|turns| - 1]))
  }

  // ----- the steps -----

  const Init := State([], map[], map[], map[], map[], None, [])

  predicate Accepted(call: Call) {
    match call
    case Put(key, value) => Storable(key, value)
    case Get(key) => 0 < |key| <= MAX_KEY
  }

  predicate Enabled(s: State, a: Action) {
    match a
    case Open(pid, handle) => handle !in s.owner
    case Begin(t, pid, handle, call) =>
      && (t in s.threads ==> s.threads[t].pid == pid && s.threads[t].pc == Idle)
      && handle in s.owner && s.owner[handle] == pid && Accepted(call)
    case Step(t) => t in s.threads && CanStep(s, s.threads[t])
    case Fail(t) => t in s.threads && CanFail(s.threads[t])
    case ReadError(t) => t in s.threads && (s.threads[t].pc.Scanning? || s.threads[t].pc.Looking?)
    case Kill(pid) => true
  }

  predicate CanStep(s: State, th: Thread) {
    match th.pc
    case Idle => false
    case WantGlobal => th.pid !in s.globals
    case WantMutex => th.handle !in s.mutexes
    case WantFlock => s.flock.None?
    case _ => true
  }

  /** Taking the file lock may fail, and so may a system call of a put up to its last one. A
      lookup fails where it sets the offset, and in mid-scan where it runs out of memory. */
  predicate CanFail(th: Thread) {
    match th.pc
    case WantFlock => true
    case Scanning(_) => th.call.Put?
    case Writing(_, done) => th.call.Put? && done < PutLength(th.call.key, th.call.value)
    case Looking(_, _) => th.call.Get?
    case _ => false
  }

  function Next(s: State, a: Action): State
    requires Enabled(s, a)
  {
    match a
    case Open(pid, handle) => s.(owner := s.owner[handle := pid])
    case Begin(t, pid, handle, call) =>
      s.(threads := s.threads[t := Thread(pid, handle, call, WantGlobal)])
    case Step(t) => StepOf(s, t)
    case Fail(t) => FailOf(s, t)
    case ReadError(t) => ReadErrorOf(s, t)
    case Kill(pid) =>
      s.(threads := map t | t in s.threads && s.threads[t].pid != pid :: s.threads[t],
         globals := s.globals - {pid},
         mutexes := map h | h in s.mutexes && (h !in s.owner || s.owner[h] != pid) :: s.mutexes[h],
         flock := if s.flock.Some? && s.flock.value in s.owner && s.owner[s.flock.value] == pid
                  then None else s.flock)
  }

  function Goto(s: State, t: nat, pc: Pc): State
    requires t in s.threads
  {
    s.(threads := s.threads[t := s.threads[t].(pc := pc)])
  }

  /** The call is answered; it goes on to release its locks. */
  function Answer(s: State, t: nat, reply: Reply): State
    requires t in s.threads
  {
    var n := |s.turns|;
    if n == 0 then s
    else Goto(s, t, DropFlock).(turns := s.turns[n - 1 := s.turns[n - 1].(reply := Some(reply))])
  }

  /** A call whose file lock failed gives its mutexes back; any other answers and goes on. */
  function FailOf(s: State, t: nat): State
    requires t in s.threads
  {
    if s.threads[t].pc.WantFlock? then Goto(s, t, DropMutex)
    else Answer(s, t, if s.threads[t].call.Put? then Rc(false) else Failed)
  }

  /** A read error ends a scan where it is: a put goes on to write there, and a lookup answers
      with what it has found so far. */
  function ReadErrorOf(s: State, t: nat): State
    requires t in s.threads && (s.threads[t].pc.Scanning? || s.threads[t].pc.Looking?)
  {
    var th := s.threads[t];
    match th.pc
    case Scanning(off) => Goto(Stopped(s, off), t, Writing(off, 0))
    case Looking(off, best) => Answer(Stopped(s, off), t, Found(best))
  }

  /** The reads of the current turn have failed behind byte `off`. */
  function Stopped(s: State, off: nat): State {
    var n := |s.turns|;
    if n == 0 then s else s.(turns := s.turns[n - 1 := s.turns[n - 1].(readable := Some(off))])
  }

  function StepOf(s: State, t: nat): State
    requires t in s.threads && CanStep(s, s.threads[t])
  {
    var th := s.threads[t];
    match th.pc
    case WantGlobal => Goto(s, t, WantMutex).(globals := s.globals[th.pid := t])
    case WantMutex => Goto(s, t, WantFlock).(mutexes := s.mutexes[th.handle := t])
    case WantFlock =>
      Goto(s, t, if th.call.Put? then Scanning(0) else Looking(0, None))
        .(flock := Some(th.handle), turns := s.turns + [Turn(t, th.call, 0, None, None)])
    case Scanning(off) => ScanStep(s, t, off)
    case Writing(off, done) => WriteStep(s, t, off, done)
    case Looking(off, best) => LookStep(s, t, off, best)
    case DropFlock => Goto(s, t, DropMutex).(flock := None)
    case DropMutex => Goto(s, t, DropGlobal).(mutexes := s.mutexes - {th.handle})
    case DropGlobal => Goto(s, t, Idle).(globals := s.globals - {th.pid})
  }

  /** Reads one record of the valid prefix, or ends the scan. */
  function ScanStep(s: State, t: nat, off: nat): State
    requires t in s.threads
  {
    if off <= |s.file| && Good(s.file[off..])
    then Goto(s, t, Scanning(off + RecordLen(s.file[off..])))
    else Goto(s, t, Writing(off, 0))
  }

  /** Issues one file effect; the last one answers the call. */
  function WriteStep(s: State, t: nat, off: nat, done: nat): State
    requires t in s.threads
  {
    var call := s.threads[t].call;
    if s.turns == [] || !call.Put? || !Storable(call.key, call.value) then s
    else if done >= PutLength(call.key, call.value) then Answer(s, t, Rc(true))
    else
      var n := |s.turns|;
      Goto(s, t, Writing(off, done + 1))
        .(file := Apply(s.file, EffectAt(off, call.key, call.value, done)),
          turns := s.turns[n - 1 := s.turns[n - 1].(done := done + 1)])
  }

  /** Reads one record on behalf of a lookup, or answers it. */
  function LookStep(s: State, t: nat, off: nat, best: Option<bytes>): State
    requires t in s.threads
  {
    var at := if off <= |s.file| then s.file[off..] else [];
    if !Whole(at) then Answer(s, t, Found(best))
    else
      var best' := if Good(at) && KeyOf(at) == s.threads[t].call.key then Some(ValueOf(at)) else best;
      Goto(s, t, Looking(off + RecordLen(at), best'))
  }

  // ----- what every step keeps -----

  function Level(pc: Pc): nat {
    match pc
    case Idle | WantGlobal => 0
    case WantMutex | DropGlobal => 1
    case WantFlock | DropMutex => 2
    case _ => 3
  }

  /** The locks a thread holds are those its place in the code says. */
  predicate ThreadLocks(s: State, t: nat) {
    t in s.threads ==>
      var th := s.threads[t];
      && (th.pc != Idle ==> th.handle in s.owner && s.owner[th.handle] == th.pid && Accepted(th.call))
      && (Level(th.pc) >= 1 ==> th.pid in s.globals && s.globals[th.pid] == t)
      && (Level(th.pc) >= 2 ==> th.handle in s.mutexes && s.mutexes[th.handle] == t)
      && (Level(th.pc) >= 3 ==> s.flock == Some(th.handle))
      && (th.pc.Scanning? || th.pc.Writing? ==> th.call.Put?)
      && (th.pc.Looking? ==> th.call.Get?)
  }

  /** A lock that is held is held by a live thread at a place that holds it. */
  predicate GlobalHeld(s: State, p: nat) {
    p in s.globals ==>
      var t := s.globals[p];
      t in s.threads && s.threads[t].pid == p && Level(s.threads[t].pc) >= 1
  }

  predicate MutexHeld(s: State, h: nat) {
    h in s.mutexes ==>
      var t := s.mutexes[h];
      t in s.threads && s.threads[t].handle == h && Level(s.threads[t].pc) >= 2
  }

  predicate FlockHeld(s: State) {
    s.flock.Some? ==>
      var h := s.flock.value;
      && h in s.mutexes && s.mutexes[h] in s.threads
      && Level(s.threads[s.mutexes[h]].pc) >= 3
  }

  ghost predicate Locks(s: State) {
    && (forall t :: ThreadLocks(s, t))
    && (forall p :: GlobalHeld(s, p))
    && (forall h :: MutexHeld(s, h))
    && FlockHeld(s)
  }

  /** What the holder of the file lock has done so far, against its turn. */
  predicate Working(file: bytes, turns: seq<Turn>, call: Call, pc: Pc) {
    && turns != []
    && var last := turns[|turns| - 1];
       match pc
       case Scanning(off) =>
         last.call == call && last.reply.None? && last.readable.None? && last.done == 0 && ScannedTo(file, off)
       case Writing(off, done) =>
         && call.Put? && last.call == call && last.reply.None?
         && last.done == done <= PutLength(call.key, call.value)
         && off == PrefixReadable(Sequential(turns[..|turns| - 1]), last)
       case Looking(off, best) =>
         last.call == call && call.Get? && last.readable.None? && LookedTo(file, off, call.key, best)
       case _ => true
  }

  /** The end of the valid prefix, as far as the reads of a turn deliver it. */
  function PrefixReadable(c: bytes, turn: Turn): nat {
    PrefixEnd(c[..ReadableOf(c, turn)])
  }

  predicate ScannedTo(file: bytes, off: nat) {
    && off <= |file| && PrefixEnd(file) == off + PrefixEnd(file[off..])
    && PrefixEnd(file[..off]) == off
  }

  predicate LookedTo(file: bytes, off: nat, key: bytes, best: Option<bytes>) {
    && off <= |file| && GetScan(file, key, None) == GetScan(file[off..], key, best)
    && Walked(file[..off]) && GetScan(file[..off], key, None) == best
  }

  ghost predicate Data(s: State) {
    && s.file == Sequential(s.turns)
    && RepliesOk(s.turns)
    && forall t :: t in s.threads && Level(s.threads[t].pc) >= 3 ==>
         Working(s.file, s.turns, s.threads[t].call, s.threads[t].pc)
  }

  /** Two threads never work on the file at once. */
  lemma OneHolder(s: State, t: nat, u: nat)
    requires Locks(s) && t in s.threads && u in s.threads
    requires Level(s.threads[t].pc) >= 3 && Level(s.threads[u].pc) >= 3
    ensures t == u
  {
    assert ThreadLocks(s, t) && ThreadLocks(s, u);
  }

  /** A thread that moves without taking or dropping a lock disturbs nobody. */
  lemma SameLevel(s: State, s': State, t: nat)
    requires Locks(s) && t in s.threads && t in s'.threads
    requires s'.owner == s.owner && s'.globals == s.globals && s'.mutexes == s.mutexes && s'.flock == s.flock
    requires s'.threads == s.threads[t := s'.threads[t]]
    requires s'.threads[t] == s.threads[t].(pc := s'.threads[t].pc)
    requires s.threads[t].pc != Idle && Level(s'.threads[t].pc) == Level(s.threads[t].pc)
    requires s'.threads[t].pc.Scanning? || s'.threads[t].pc.Writing? ==> s.threads[t].call.Put?
    requires s'.threads[t].pc.Looking? ==> s.threads[t].call.Get?
    ensures Locks(s')
  {
    forall u ensures ThreadLocks(s', u) {
      assert ThreadLocks(s, u);
    }
    forall p ensures GlobalHeld(s', p) {
      assert GlobalHeld(s, p);
    }
    forall h ensures MutexHeld(s', h) {
      assert MutexHeld(s, h);
    }
  }

  lemma LocksTake(s: State, t: nat)
    requires Locks(s) && t in s.threads && CanStep(s, s.threads[t])
    requires var pc := s.threads[t].pc; pc.WantGlobal? || pc.WantMutex? || pc.WantFlock?
    ensures Locks(StepOf(s, t))
  {
    var s' := StepOf(s, t);
    assert ThreadLocks(s, t);
    forall u ensures ThreadLocks(s', u) {
      assert ThreadLocks(s, u);
    }
    forall p ensures GlobalHeld(s', p) {
      assert GlobalHeld(s, p);
    }
    forall h ensures MutexHeld(s', h) {
      assert MutexHeld(s, h);
    }
  }

  lemma LocksDrop(s: State, t: nat)
    requires Locks(s) && t in s.threads && CanStep(s, s.threads[t])
    requires var pc := s.threads[t].pc; pc.DropFlock? || pc.DropMutex? || pc.DropGlobal?
    ensures Locks(StepOf(s, t))
  {
    var s' := StepOf(s, t);
    assert ThreadLocks(s, t);
    forall u ensures ThreadLocks(s', u) {
      assert ThreadLocks(s, u);
    }
    forall p ensures GlobalHeld(s', p) {
      assert GlobalHeld(s, p);
    }
    forall h ensures MutexHeld(s', h) {
      assert MutexHeld(s, h);
    }
  }

  lemma LocksKill(s: State, pid: nat)
    requires Locks(s)
    ensures Locks(Next(s, Kill(pid)))
  {
    var s' := Next(s, Kill(pid));
    forall u ensures ThreadLocks(s', u) {
      assert ThreadLocks(s, u);
    }
    forall p ensures GlobalHeld(s', p) {
      assert GlobalHeld(s, p);
    }
    forall h ensures MutexHeld(s', h) {
      assert MutexHeld(s, h);
      if h in s.mutexes {
        assert ThreadLocks(s, s.mutexes[h]);
      }
    }
    if s'.flock.Some? {
      assert ThreadLocks(s, s.mutexes[s.flock.value]);
      assert MutexHeld(s, s.flock.value);
    }
  }

  lemma LocksBegin(s: State, a: Action)
    requires Locks(s) && Enabled(s, a) && (a.Open? || a.Begin?)
    ensures Locks(Next(s, a))
  {
    var s' := Next(s, a);
    forall u ensures ThreadLocks(s', u) {
      assert ThreadLocks(s, u);
    }
    forall p ensures GlobalHeld(s', p) {
      assert GlobalHeld(s, p);
    }
    forall h ensures MutexHeld(s', h) {
      assert MutexHeld(s, h);
    }
  }

  lemma LocksWork(s: State, t: nat)
    requires Locks(s) && t in s.threads
    requires var pc := s.threads[t].pc; pc.Scanning? || pc.Writing? || pc.Looking?
    ensures Locks(StepOf(s, t))
  {
    assert ThreadLocks(s, t);
    var s' := StepOf(s, t);
    if s' != s {
      SameLevel(s, s', t);
    }
  }

  lemma LocksReadError(s: State, t: nat)
    requires Locks(s) && Enabled(s, ReadError(t))
    ensures Locks(ReadErrorOf(s, t))
  {
    assert ThreadLocks(s, t);
    var s' := ReadErrorOf(s, t);
    if s'.threads != s.threads {
      SameLevel(s, s', t);
    }
  }

  lemma LocksStep(s: State, a: Action)
    requires Locks(s) && Enabled(s, a)
    ensures Locks(Next(s, a))
  {
    match a
    case Open(_, _) => LocksBegin(s, a);
    case Begin(_, _, _, _) => LocksBegin(s, a);
    case Kill(pid) => LocksKill(s, pid);
    case Fail(t) =>
      if s.turns != [] || s.threads[t].pc.WantFlock? {
        SameLevel(s, Next(s, a), t);
      }
    case ReadError(t) => LocksReadError(s, t);
    case Step(t) =>
      match s.threads[t].pc {
        case WantGlobal | WantMutex | WantFlock => LocksTake(s, t);
        case DropFlock | DropMutex | DropGlobal => LocksDrop(s, t);
        case _ => LocksWork(s, t);
      }
  }

  // ----- the file and the replies -----

  /** Steps that touch neither the file nor the turns. */
  lemma DataFrame(s: State, s': State)
    requires Data(s) && s'.file == s.file && s'.turns == s.turns
    requires forall t :: t in s'.threads && Level(s'.threads[t].pc) >= 3 ==>
               t in s.threads && s.threads[t] == s'.threads[t]
    ensures Data(s')
  {
  }

  /** Steps of the holder of the file lock: it suffices to look at the holder. */
  lemma DataHolder(s: State, s': State, t: nat)
    requires Locks(s) && t in s.threads && Level(s.threads[t].pc) >= 3
    requires t in s'.threads && s'.threads == s.threads[t := s'.threads[t]]
    requires s'.file == Sequential(s'.turns) && RepliesOk(s'.turns)
    requires Working(s'.file, s'.turns, s'.threads[t].call, s'.threads[t].pc)
    ensures Data(s')
  {
    forall u | u in s'.threads && Level(s'.threads[u].pc) >= 3
      ensures u == t
    {
      if u != t {
        OneHolder(s, t, u);
      }
    }
  }

  lemma LastTurn(turns: seq<Turn>, turn: Turn)
    requires turns != []
    ensures var front := turns[..|turns| - 1];
            var turns' := turns[|turns| - 1 := turn];
            && turns'[..|turns'| - 1] == front
            && Sequential(turns') == Exec(Sequential(front), turn)
            && (RepliesOk(turns') <==> RepliesOk(front) && ReplyOk(Sequential(front), turn))
  {
    assert turns[|turns| - 1 := turn][..|turns| - 1] == turns[..|turns| - 1];
  }

  /** Taking the file lock opens a turn that has had no effect yet. */
  lemma NewTurn(turns: seq<Turn>, t: nat, call: Call)
    requires RepliesOk(turns)
    ensures var turns' := turns + [Turn(t, call, 0, None, None)];
            var pc := if call.Put? then Scanning(0) else Looking(0, None);
            && Sequential(turns') == Sequential(turns) && RepliesOk(turns')
            && Working(Sequential(turns), turns', call, pc)
  {
    var file := Sequential(turns);
    assert (turns + [Turn(t, call, 0, None, None)])[..|turns|] == turns;
    assert file[0..] == file;
  }

  lemma NoEffectYet(c: bytes, turn: Turn)
    requires turn.done == 0
    ensures Exec(c, turn) == c
  {
  }

  lemma ScanAdvances(file: bytes, off: nat)
    requires ScannedTo(file, off)
    ensures Good(file[off..]) ==> ScannedTo(file, off + RecordLen(file[off..]))
    ensures !Good(file[off..]) ==> PrefixEnd(file) == off
  {
    hide PrefixEnd, Good, HeaderOk;
    var at := file[off..];
    if Good(at) {
      GoodIsWhole(at);
      var n := RecordLen(at);
      FirstEntry(at);
      assert at[n..] == file[off + n..];
      PrefixOn(file[..off], at);
      assert file[..off] + at[..n] == file[..off + n];
    } else {
      NoEntry(at);
    }
  }

  lemma LookAdvances(file: bytes, off: nat, key: bytes, best: Option<bytes>)
    requires LookedTo(file, off, key, best)
    ensures var at := file[off..];
            if Whole(at)
            then LookedTo(file, off + RecordLen(at), key,
                   if Good(at) && KeyOf(at) == key then Some(ValueOf(at)) else best)
            else GetScan(file, key, None) == best
  {
    hide HeaderOk, Good, Walked, KeyOf, ValueOf;
    var at := file[off..];
    if Whole(at) {
      var n := RecordLen(at);
      assert at[n..] == file[off + n..];
      WalkOn(file[..off], at, key, None);
      assert file[..off] + at[..n] == file[..off + n];
    }
  }

  lemma WriteAdvances(before: bytes, turn: Turn, key: bytes, value: bytes, done: nat)
    requires Storable(key, value) && done < PutLength(key, value)
    ensures var n, off := ReadableOf(before, turn), PrefixReadable(before, turn);
            PutFile(before, n, key, value, done + 1)
              == Apply(PutFile(before, n, key, value, done), EffectAt(off, key, value, done))
  {
    hide PutFile, Stage, EffectAt, Apply, Storable;
    var n := ReadableOf(before, turn);
    PutFileIsStage(before, n, key, value, done);
    PutFileIsStage(before, n, key, value, done + 1);
    StageStep(before, PrefixReadable(before, turn), key, value, done);
  }

  lemma DataFlock(s: State, t: nat)
    requires Locks(s) && Data(s) && t in s.threads && s.threads[t].pc == WantFlock && s.flock.None?
    ensures Data(StepOf(s, t))
  {
    var s' := StepOf(s, t);
    NewTurn(s.turns, t, s.threads[t].call);
    forall u | u in s'.threads && Level(s'.threads[u].pc) >= 3
      ensures u == t
    {
      assert ThreadLocks(s, u);
    }
  }

  lemma DataAnswer(s: State, t: nat, reply: Reply)
    requires Locks(s) && Data(s) && t in s.threads && Level(s.threads[t].pc) >= 3
    requires s.turns != []
    requires ReplyOk(Sequential(s.turns[..|s.turns| - 1]), s.turns[|s.turns| - 1].(reply := Some(reply)))
    ensures Data(Answer(s, t, reply))
  {
    var last := s.turns[|s.turns| - 1];
    LastTurn(s.turns, last.(reply := Some(reply)));
    DataHolder(s, Answer(s, t, reply), t);
  }

  lemma DataScan(s: State, t: nat)
    requires Locks(s) && Data(s) && t in s.threads && s.threads[t].pc.Scanning?
    ensures Data(StepOf(s, t))
  {
    hide PutFile, GetScan, Good, PrefixEnd, Walked, WriteStep, LookStep;
    var th := s.threads[t];
    assert ThreadLocks(s, t);
    assert Working(s.file, s.turns, th.call, th.pc);
    ScanAdvances(s.file, th.pc.off);
    var before, last := Sequential(s.turns[..|s.turns| - 1]), s.turns[|s.turns| - 1];
    NoEffectYet(before, last);
    AllRead(before, last);
    DataHolder(s, StepOf(s, t), t);
  }

  lemma AllRead(c: bytes, turn: Turn)
    requires turn.readable.None?
    ensures c[..ReadableOf(c, turn)] == c
  {
  }

  lemma DataWrite(s: State, t: nat)
    requires Locks(s) && Data(s) && t in s.threads && s.threads[t].pc.Writing?
    ensures Data(StepOf(s, t))
  {
    hide PutFile, GetScan, PrefixReadable, Good, Apply, EffectAt, Image, Walked, ScanStep, LookStep;
    var th := s.threads[t];
    var call, done := th.call, th.pc.done;
    assert ThreadLocks(s, t);
    assert Working(s.file, s.turns, th.call, th.pc);
    var last := s.turns[|s.turns| - 1];
    if done >= PutLength(call.key, call.value) {
      DataAnswer(s, t, Rc(true));
    } else {
      LastTurn(s.turns, last.(done := done + 1));
      SameReads(Sequential(s.turns[..|s.turns| - 1]), last, last.(done := done + 1));
      WriteAdvances(Sequential(s.turns[..|s.turns| - 1]), last, call.key, call.value, done);
      DataHolder(s, StepOf(s, t), t);
    }
  }

  lemma SameReads(c: bytes, turn: Turn, turn': Turn)
    requires turn.readable == turn'.readable
    ensures ReadableOf(c, turn) == ReadableOf(c, turn') && PrefixReadable(c, turn) == PrefixReadable(c, turn')
  {
  }

  lemma DataLook(s: State, t: nat)
    requires Locks(s) && Data(s) && t in s.threads && s.threads[t].pc.Looking?
    ensures Data(StepOf(s, t))
  {
    hide PutFile, GetScan, PrefixEnd, Walked, ScanStep, WriteStep;
    var th := s.threads[t];
    assert Working(s.file, s.turns, th.call, th.pc);
    LookAdvances(s.file, th.pc.off, th.call.key, th.pc.best);
    if Whole(s.file[th.pc.off..]) {
      DataHolder(s, StepOf(s, t), t);
    } else {
      var before, last := Sequential(s.turns[..|s.turns| - 1]), s.turns[|s.turns| - 1];
      assert s.file == before;
      AllRead(before, last.(reply := Some(Found(th.pc.best))));
      DataAnswer(s, t, Found(th.pc.best));
    }
  }

  /** A read error in a put: the scan has read a valid prefix up to where it stands. */
  lemma DataStoppedScan(s: State, t: nat)
    requires Locks(s) && Data(s) && t in s.threads && s.threads[t].pc.Scanning?
    ensures Data(ReadErrorOf(s, t))
  {
    hide PutFile, GetScan, Good, PrefixEnd, Walked;
    var th := s.threads[t];
    assert ThreadLocks(s, t);
    assert Working(s.file, s.turns, th.call, th.pc);
    var before, last := Sequential(s.turns[..|s.turns| - 1]), s.turns[|s.turns| - 1];
    var turn := last.(readable := Some(th.pc.off));
    NoEffectYet(before, last);
    NoEffectYet(before, turn);
    LastTurn(s.turns, turn);
    DataHolder(s, ReadErrorOf(s, t), t);
  }

  /** A read error in a lookup: what it has found is what a lookup in the part read finds. */
  lemma DataStoppedLook(s: State, t: nat)
    requires Locks(s) && Data(s) && t in s.threads && s.threads[t].pc.Looking?
    ensures Data(ReadErrorOf(s, t))
  {
    hide PutFile, GetScan, PrefixEnd, Walked;
    var th := s.threads[t];
    assert Working(s.file, s.turns, th.call, th.pc);
    var before, last := Sequential(s.turns[..|s.turns| - 1]), s.turns[|s.turns| - 1];
    var turn := last.(readable := Some(th.pc.off), reply := Some(Found(th.pc.best)));
    assert s.file == before;
    LastTurn(s.turns, turn);
    DataHolder(s, ReadErrorOf(s, t), t);
  }

  lemma DataFail(s: State, t: nat)
    requires Locks(s) && Data(s) && Enabled(s, Fail(t))
    ensures Data(Next(s, Fail(t)))
  {
    hide PutFile, GetScan, PrefixEnd;
    var th := s.threads[t];
    assert ThreadLocks(s, t);
    if th.pc.WantFlock? {
      DataFrame(s, Next(s, Fail(t)));
    } else {
      assert Working(s.file, s.turns, th.call, th.pc);
      DataAnswer(s, t, if th.call.Put? then Rc(false) else Failed);
    }
  }

  /** The steps that only take or drop a lock other than by opening a turn. */
  lemma DataQuiet(s: State, t: nat)
    requires Data(s) && t in s.threads && CanStep(s, s.threads[t])
    requires var pc := s.threads[t].pc;
             !pc.WantFlock? && !pc.Scanning? && !pc.Writing? && !pc.Looking?
    ensures Data(StepOf(s, t))
  {
    hide Data, StepOf;
    LockStepMoves(s, t);
    DataFrame(s, StepOf(s, t));
  }

  /** Where a step that only takes or drops a lock leads. */
  function LockStep(th: Thread): Pc {
    match th.pc
    case WantGlobal => WantMutex
    case WantMutex => WantFlock
    case WantFlock => if th.call.Put? then Scanning(0) else Looking(0, None)
    case DropFlock => DropMutex
    case DropMutex => DropGlobal
    case _ => Idle
  }

  /** Such a step moves its thread on and leaves the file. */
  lemma LockStepMoves(s: State, t: nat)
    requires t in s.threads && CanStep(s, s.threads[t])
    requires var pc := s.threads[t].pc; !pc.Scanning? && !pc.Writing? && !pc.Looking?
    ensures var s' := StepOf(s, t);
            && s'.file == s.file && s'.threads == Goto(s, t, LockStep(s.threads[t])).threads
            && (!s.threads[t].pc.WantFlock? ==> s'.turns == s.turns)
  {
    hide ScanStep, WriteStep, LookStep;
  }

  lemma DataStep(s: State, a: Action)
    requires Locks(s) && Data(s) && Enabled(s, a)
    ensures Data(Next(s, a))
  {
    hide StepOf, Answer, FailOf, ReadErrorOf, Stopped;
    if a.Fail? {
      DataFail(s, a.tid);
    } else if a.ReadError? {
      if s.threads[a.tid].pc.Scanning? {
        DataStoppedScan(s, a.tid);
      } else {
        DataStoppedLook(s, a.tid);
      }
    } else if !a.Step? {
      DataFrame(s, Next(s, a));
    } else if s.threads[a.tid].pc.WantFlock? {
      DataFlock(s, a.tid);
    } else if s.threads[a.tid].pc.Scanning? {
      DataScan(s, a.tid);
    } else if s.threads[a.tid].pc.Writing? {
      DataWrite(s, a.tid);
    } else if s.threads[a.tid].pc.Looking? {
      DataLook(s, a.tid);
    } else {
      DataQuiet(s, a.tid);
    }
  }

  // ----- runs -----

  ghost predicate Runs(s: State, actions: seq<Action>, s': State)
    decreases |actions|
  {
    if actions == [] then s == s'
    else Enabled(s, actions[0]) && Runs(Next(s, actions[0]), actions[1..], s')
  }

  lemma {:induction false} RunsKeep(s: State, actions: seq<Action>, s': State)
    requires Locks(s) && Data(s) && Runs(s, actions, s')
    ensures Locks(s') && Data(s')
    decreases |actions|
  {
    if actions != [] {
      LocksStep(s, actions[0]);
      DataStep(s, actions[0]);
      RunsKeep(Next(s, actions[0]), actions[1..], s');
    }
  }

  /** Linearizability: in every reachable state the file is what the turns leave when run
      one after the other in the order in which they took the file lock, and every reply
      is the one its call gives in that sequential run. */
  lemma Linearizable(actions: seq<Action>, s: State)
    requires Runs(Init, actions, s)
    ensures s.file == Sequential(s.turns) && RepliesOk(s.turns)
  {
    RunsKeep(Init, actions, s);
  }

  /** In every reachable state, a put that replied returned 0 if and only if all its effects
      happened, and -1 otherwise. */
  lemma PutReplies(actions: seq<Action>, s: State, i: nat)
    requires Runs(Init, actions, s)
    requires i < |s.turns| && s.turns[i].call.Put? && s.turns[i].reply.Some?
    ensures var turn := s.turns[i];
            && Storable(turn.call.key, turn.call.value) && turn.done <= |PutEffects(0, turn.call.key, turn.call.value)|
            && turn.reply.value == Rc(turn.done == |PutEffects(0, turn.call.key, turn.call.value)|)
  {
    hide Sequential, PutEffects;
    Linearizable(actions, s);
    ReplyAt(s.turns, i);
    TurnsStayOk(Init, actions, s) by {
      NoTurns();
    }
    assert TurnOk(s.turns[i]);
  }

  /** A put has been accepted, and does no more than its effects. */
  predicate TurnOk(turn: Turn) {
    turn.call.Put? ==>
      && Storable(turn.call.key, turn.call.value)
      && turn.done <= PutLength(turn.call.key, turn.call.value)
  }

  ghost predicate TurnsOk(turns: seq<Turn>) {
    forall i :: 0 <= i < |turns| ==> TurnOk(turns[i])
  }

  lemma NoTurns()
    ensures Locks(Init) && Data(Init) && TurnsOk(Init.turns)
  {
  }

  lemma TurnsOkStep(s: State, a: Action)
    requires Locks(s) && Data(s) && TurnsOk(s.turns) && Enabled(s, a)
    ensures TurnsOk(Next(s, a).turns)
  {
    hide Sequential, RepliesOk, Apply, EffectAt, Good, Whole, RecordLen, ScannedTo, LookedTo, PrefixReadable;
    if (a.Step? || a.Fail? || a.ReadError?) && a.tid in s.threads {
      var th := s.threads[a.tid];
      assert ThreadLocks(s, a.tid);
      assert Level(th.pc) >= 3 ==> Working(s.file, s.turns, th.call, th.pc);
    }
  }

  lemma {:induction false} TurnsStayOk(s: State, actions: seq<Action>, s': State)
    requires Locks(s) && Data(s) && TurnsOk(s.turns) && Runs(s, actions, s')
    ensures TurnsOk(s'.turns)
    decreases |actions|
  {
    hide Locks, Data, Next, Enabled, TurnsOk;
    if actions != [] {
      LocksStep(s, actions[0]);
      DataStep(s, actions[0]);
      TurnsOkStep(s, actions[0]);
      TurnsStayOk(Next(s, actions[0]), actions[1..], s');
    }
  }

  /** No deadlock: whenever some call is under way, some call under way can take a step. */
  lemma NeverStuck(actions: seq<Action>, s: State, t: nat) returns (u: nat)
    requires Runs(Init, actions, s)
    requires t in s.threads && s.threads[t].pc != Idle
    ensures u in s.threads && s.threads[u].pc != Idle && Enabled(s, Step(u))
  {
    RunsKeep(Init, actions, s);
    if s.flock.Some? {
      u := s.mutexes[s.flock.value];
    } else {
      var th := s.threads[t];
      u := if th.pc.WantGlobal? && th.pid in s.globals then s.globals[th.pid] else t;
      assert GlobalHeld(s, th.pid);
      if s.threads[u].pc.WantMutex? {
        MutexFree(s, u);
      }
    }
  }

  /** Whoever holds the process mutex finds its handle's mutex free. */
  lemma MutexFree(s: State, t: nat)
    requires Locks(s) && t in s.threads && s.threads[t].pc == WantMutex
    ensures s.threads[t].handle !in s.mutexes
  {
    var h := s.threads[t].handle;
    assert ThreadLocks(s, t);
    assert MutexHeld(s, h);
    assert forall u :: u in s.threads ==> ThreadLocks(s, u);
  }

  // ----- what the sequential order means for readers -----

  function Puts(turns: seq<Turn>): seq<Attempt> {
    if turns == [] then []
    else
      var last := turns[|turns| - 1];
      Puts(turns[..|turns| - 1])
      + (if last.call.Put? then [Attempt(last.call.key, last.call.value, last.done)] else [])
  }

  /** No put of these turns lost a record: its scan, whether a read failed or not, came to the
      end of the valid prefix. */
  ghost predicate NothingLost(turns: seq<Turn>) {
    forall i :: 0 <= i < |turns| && turns[i].call.Put? ==> ScannedAll(turns, i)
  }

  predicate ScannedAll(turns: seq<Turn>, i: nat)
    requires i < |turns|
  {
    PrefixEnd(Sequential(turns[..i])) <= ReadableOf(Sequential(turns[..i]), turns[i])
  }

  /** Then the sequential order is one of the runs for which crash atomicity is proved. */
  lemma {:induction false} SequentialIsRun(turns: seq<Turn>)
    requires NothingLost(turns)
    ensures Sequential(turns) == Run(Puts(turns))
    decreases |turns|
  {
    hide PutFile, ScannedAll;
    if turns != [] {
      var n := |turns| - 1;
      var last, ps := turns[n], Puts(turns[..n]);
      NothingLostBefore(turns, n);
      SequentialIsRun(turns[..n]);
      if last.call.Put? {
        assert Puts(turns)[..|ps|] == ps;
        WholeScan(turns, n);
      } else {
        assert Puts(turns) == ps;
      }
    }
  }

  lemma NothingLostBefore(turns: seq<Turn>, n: nat)
    requires NothingLost(turns) && n <= |turns|
    ensures NothingLost(turns[..n])
  {
    hide Sequential;
    forall i | 0 <= i < n && turns[..n][i].call.Put? ensures ScannedAll(turns[..n], i) {
      assert turns[..n][..i] == turns[..i];
      assert ScannedAll(turns, i);
    }
  }

  /** A put whose scan came to the end of the prefix is one whose reads did not fail. */
  lemma WholeScan(turns: seq<Turn>, i: nat)
    requires i < |turns| && ScannedAll(turns, i) && turns[i].call.Put?
    ensures var c, call := Sequential(turns[..i]), turns[i].call;
            Exec(c, turns[i]) == PutFile(c, |c|, call.key, call.value, turns[i].done)
  {
    hide PrefixEnd, Stage, PutFile, Sequential;
    var c, call := Sequential(turns[..i]), turns[i].call;
    var n := ReadableOf(c, turns[i]);
    if Storable(call.key, call.value) {
      PartialScan(c, n);
      assert c[..|c|] == c;
      PutFileIsStage(c, n, call.key, call.value, turns[i].done);
      PutFileIsStage(c, |c|, call.key, call.value, turns[i].done);
    } else {
      NotStored(c, n, call.key, call.value, turns[i].done);
      NotStored(c, |c|, call.key, call.value, turns[i].done);
    }
  }

  lemma NotStored(c: bytes, readable: nat, key: bytes, value: bytes, done: nat)
    requires readable <= |c| && !Storable(key, value)
    ensures PutFile(c, readable, key, value, done) == c
  {
  }

  /** In every reachable state, if the turns before it lost no record, a lookup that got an
      answer got the last value they committed, dead processes' turns included, if no read of
      its own failed; and if one did, if and only if no entry for its key stands behind the
      failure, or the last of them repeats the last one in front of it. */
  lemma AnswersAreLastCommitted(actions: seq<Action>, s: State, i: nat)
    requires Runs(Init, actions, s)
    requires i < |s.turns| && s.turns[i].call.Get? && s.turns[i].reply.Some? && s.turns[i].reply.value != Failed
    requires NothingLost(s.turns[..i])
    ensures var c, key := Sequential(s.turns[..i]), s.turns[i].call.key;
            var limit := ReadableOf(c, s.turns[i]);
            var missed := LastValue(KvStore.Missed(c, limit), key, None);
            s.turns[i].reply.value == Found(LastValue(Contributions(Puts(s.turns[..i])), key, None))
            <==> missed.None? || missed == LastValue(KvStore.Seen(c, limit), key, None)
    ensures s.turns[i].readable.None? ==>
              s.turns[i].reply.value
              == Found(LastValue(Contributions(Puts(s.turns[..i])), s.turns[i].call.key, None))
  {
    hide GetScan, Sequential, Run, Contributions, KvStore.Seen, KvStore.Missed, LastValue;
    Linearizable(actions, s);
    ReplyAt(s.turns, i);
    var before, turn := s.turns[..i], s.turns[i];
    SequentialIsRun(before);
    var c := Sequential(before);
    KvStore.GetIsCurrentIff(Puts(before), turn.call.key, ReadableOf(c, turn));
    if turn.readable.None? {
      NoneMissed(c, turn.call.key);
    }
  }

  lemma NoneMissed(c: bytes, key: bytes)
    ensures LastValue(KvStore.Missed(c, |c|), key, None).None?
  {
    hide PrefixEnd, Entries;
    KvStore.SeenAndMissed(c, |c|);
    PartialScan(c, |c|);
  }

  lemma {:induction false} ReplyAt(turns: seq<Turn>, i: nat)
    requires RepliesOk(turns) && i < |turns|
    ensures ReplyOk(Sequential(turns[..i]), turns[i])
    decreases |turns|
  {
    var n := |turns| - 1;
    if i < n {
      ReplyAt(turns[..n], i);
      assert turns[..n][..i] == turns[..i];
    }
  }
}
