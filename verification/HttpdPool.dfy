/** The worker pool: a FIFO queue of accepted connections, handled by any number of workers
    and logged in the order of acceptance. Each critical section is one step; a worker
    blocked on a condition variable is either still waiting or has been signalled and has
    yet to run. Waiters may also wake for no reason. */
module HttpdPool {

  datatype Worker =
    | Ready                                  // about to enter dequeue
    | QueueWait(signalled: bool)             // blocked on queue_cv
    | Handling(ticket: nat)                    // inside handle_request
    | LogReady(ticket: nat)                    // about to enter ordered_log
    | LogWait(ticket: nat, signalled: bool)    // blocked on log_cv

  datatype State = State(
    queue: seq<nat>, nextSeq: nat, nextLog: nat, log: seq<nat>, workers: seq<Worker>)

  datatype Action =
    | Accept(wake: nat)       // the main thread enqueues a request and signals queue_cv
    | Dequeue(w: nat)
    | Handle(w: nat)
    | Log(w: nat)
    | Spurious(w: nat)

  predicate Start(s: State) {
    && s.queue == [] && s.nextSeq == s.nextLog == 0 && s.log == []
    && forall w :: 0 <= w < |s.workers| ==> s.workers[w] == Ready
  }

  // ----- the steps -----

  predicate Sleeping(s: State, w: int) {
    0 <= w < |s.workers| && s.workers[w] == QueueWait(false)
  }

  predicate Enabled(s: State, a: Action) {
    match a
    // the signal wakes one sleeping worker, any one, if there is one
    case Accept(wake) => Sleeping(s, wake) || forall w :: 0 <= w < |s.workers| ==> !Sleeping(s, w)
    case Dequeue(w) => w < |s.workers| && (s.workers[w].Ready? || s.workers[w] == QueueWait(true))
    case Handle(w) => w < |s.workers| && s.workers[w].Handling?
    case Log(w) =>
      w < |s.workers| && (s.workers[w].LogReady? || (s.workers[w].LogWait? && s.workers[w].signalled))
    case Spurious(w) =>
      w < |s.workers| && (s.workers[w].QueueWait? || s.workers[w].LogWait?) && !s.workers[w].signalled
  }

  function Next(s: State, a: Action): State
    requires Enabled(s, a)
  {
    match a
    case Accept(wake) =>
      s.(queue := s.queue + [s.nextSeq], nextSeq := s.nextSeq + 1,
         workers := if Sleeping(s, wake) then s.workers[wake := QueueWait(true)] else s.workers)
    case Dequeue(w) =>
      if s.queue == [] then s.(workers := s.workers[w := QueueWait(false)])
      else s.(queue := s.queue[1..], workers := s.workers[w := Handling(s.queue[0])])
    case Handle(w) => s.(workers := s.workers[w := LogReady(s.workers[w].ticket)])
    case Log(w) =>
      var n := s.workers[w].ticket;
      if n != s.nextLog then s.(workers := s.workers[w := LogWait(n, false)])
      else s.(log := s.log + [n], nextLog := s.nextLog + 1, workers := Broadcast(s.workers)[w := Ready])
    case Spurious(w) => s.(workers := s.workers[w := Signal(s.workers[w])])
  }

  function Signal(wk: Worker): Worker {
    match wk
    case QueueWait(_) => QueueWait(true)
    case LogWait(n, _) => LogWait(n, true)
    case _ => wk
  }

  /** Wakes everyone waiting on log_cv. */
  function Broadcast(ws: seq<Worker>): (r: seq<Worker>)
    ensures |r| == |ws|
    ensures forall w :: 0 <= w < |ws| ==> r[w] == if ws[w].LogWait? then LogWait(ws[w].ticket, true) else ws[w]
  {
    seq(|ws|, w requires 0 <= w < |ws| => if ws[w].LogWait? then LogWait(ws[w].ticket, true) else ws[w])
  }

  // ----- the invariant -----

  predicate Holds(s: State, w: int, n: int) {
    && 0 <= w < |s.workers|
    && (s.workers[w].Handling? || s.workers[w].LogReady? || s.workers[w].LogWait?)
    && s.workers[w].ticket == n
  }

  ghost predicate Held(s: State, n: int) {
    exists w :: Holds(s, w, n)
  }

  /** The number of the request at the head of the queue, or of the next to be accepted. */
  function Head(s: State): int { s.nextSeq - |s.queue| }

  /** Logged, held by one worker, queued: in this order the requests are numbered. */
  ghost predicate Ordered(s: State) {
    && s.nextLog <= Head(s)
    && |s.log| == s.nextLog && (forall i :: 0 <= i < |s.log| ==> s.log[i] == i)
    && (forall i :: 0 <= i < |s.queue| ==> s.queue[i] == Head(s) + i)
  }

  ghost predicate HeldOnce(s: State) {
    && (forall w, n :: Holds(s, w, n) ==> s.nextLog <= n < Head(s))
    && (forall n :: s.nextLog <= n < Head(s) ==> Held(s, n))
    && (forall v, w, n :: Holds(s, v, n) && Holds(s, w, n) ==> v == w)
  }

  function Signalled(ws: seq<Worker>): nat {
    if ws == [] then 0
    else (if ws[0] == QueueWait(true) then 1 else 0) + Signalled(ws[1..])
  }

  /** A sleeping worker never hides work: everything queued has a signalled worker coming. */
  ghost predicate QueueAwake(s: State) {
    (exists w :: Sleeping(s, w)) ==> |s.queue| <= Signalled(s.workers)
  }

  /** Nobody sleeps on log_cv while it is their turn. */
  ghost predicate LogAwake(s: State) {
    forall w :: 0 <= w < |s.workers| ==> s.workers[w] != LogWait(s.nextLog, false)
  }

  ghost predicate Inv(s: State) {
    Ordered(s) && HeldOnce(s) && QueueAwake(s) && LogAwake(s)
  }

  lemma {:induction false} SignalledUpdate(ws: seq<Worker>, w: nat, wk: Worker)
    requires w < |ws|
    ensures Signalled(ws[w := wk]) + (if ws[w] == QueueWait(true) then 1 else 0)
         == Signalled(ws) + (if wk == QueueWait(true) then 1 else 0)
    decreases |ws|
  {
    if w > 0 {
      assert ws[w := wk][1..] == ws[1..][w - 1 := wk];
      SignalledUpdate(ws[1..], w - 1, wk);
    } else {
      assert ws[w := wk][1..] == ws[1..];
    }
  }

  lemma {:induction false} SignalledBroadcast(ws: seq<Worker>)
    ensures Signalled(Broadcast(ws)) == Signalled(ws)
    decreases |ws|
  {
    if ws != [] {
      assert Broadcast(ws)[1..] == Broadcast(ws[1..]);
      SignalledBroadcast(ws[1..]);
    }
  }

  lemma {:induction false} NoneSignalled(ws: seq<Worker>)
    requires forall w :: 0 <= w < |ws| ==> ws[w] != QueueWait(true)
    ensures Signalled(ws) == 0
    decreases |ws|
  {
    if ws != [] {
      NoneSignalled(ws[1..]);
    }
  }

  lemma HoldsExplicit(s: State, s': State, a: Action, v: int, n: int)
    requires Enabled(s, a) && s' == Next(s, a)
    ensures match a
            case Accept(_) => Holds(s', v, n) <==> Holds(s, v, n)
            case Dequeue(w) =>
              Holds(s', v, n) <==> (if v == w then s.queue != [] && n == s.queue[0] else Holds(s, v, n))
            case Handle(_) => Holds(s', v, n) <==> Holds(s, v, n)
            case Log(w) => Holds(s', v, n) <==> Holds(s, v, n) && !(v == w && n == s.nextLog)
            case Spurious(_) => Holds(s', v, n) <==> Holds(s, v, n)
  {
  }

  lemma KeepsHeld(s: State, a: Action)
    requires Ordered(s) && HeldOnce(s) && Enabled(s, a)
    ensures HeldOnce(Next(s, a))
  {
    var s' := Next(s, a);
    forall v, n ensures Holds(s', v, n) ==> s'.nextLog <= n < Head(s') {
      HoldsExplicit(s, s', a, v, n);
      if a.Log? {
        assert Holds(s, a.w, s.workers[a.w].ticket);
      }
    }
    forall n | s'.nextLog <= n < Head(s') ensures Held(s', n) {
      if a.Dequeue? && n == Head(s) {
        assert Holds(s', a.w, n);
      } else {
        assert Held(s, n);
        var v :| Holds(s, v, n);
        HoldsExplicit(s, s', a, v, n);
        assert Holds(s', v, n);
      }
    }
    forall u, v, n | Holds(s', u, n) && Holds(s', v, n) ensures u == v {
      HoldsExplicit(s, s', a, u, n);
      HoldsExplicit(s, s', a, v, n);
    }
  }

  lemma KeepsOrdered(s: State, a: Action)
    requires Ordered(s) && HeldOnce(s) && Enabled(s, a)
    ensures Ordered(Next(s, a))
  {
    if a.Log? {
      assert Holds(s, a.w, s.workers[a.w].ticket);
    }
  }

  lemma KeepsAwake(s: State, a: Action)
    requires Inv(s) && Enabled(s, a)
    ensures QueueAwake(Next(s, a)) && LogAwake(Next(s, a))
  {
    var s' := Next(s, a);
    match a
    case Accept(wake) =>
      assert forall v :: Sleeping(s', v) ==> Sleeping(s, v);
      if Sleeping(s, wake) {
        SignalledUpdate(s.workers, wake, QueueWait(true));
      }
    case Dequeue(w) =>
      SignalledUpdate(s.workers, w, s'.workers[w]);
      if s.queue != [] && exists v :: Sleeping(s', v) {
        var v :| Sleeping(s', v);
        assert Sleeping(s, v);
      }
    case Handle(w) =>
      SignalledUpdate(s.workers, w, s'.workers[w]);
      assert forall v :: Sleeping(s', v) ==> Sleeping(s, v);
    case Log(w) => KeepsAwakeLog(s, w);
    case Spurious(w) =>
      SignalledUpdate(s.workers, w, s'.workers[w]);
      assert forall v :: Sleeping(s', v) ==> Sleeping(s, v);
  }

  lemma KeepsAwakeLog(s: State, w: nat)
    requires Inv(s) && Enabled(s, Log(w))
    ensures QueueAwake(Next(s, Log(w))) && LogAwake(Next(s, Log(w)))
  {
    var s' := Next(s, Log(w));
    assert forall v :: Sleeping(s', v) ==> Sleeping(s, v);
    if s.workers[w].ticket != s.nextLog {
      SignalledUpdate(s.workers, w, s'.workers[w]);
    } else {
      SignalledBroadcast(s.workers);
      SignalledUpdate(Broadcast(s.workers), w, Ready);
    }
  }

  lemma StepKeeps(s: State, a: Action)
    requires Inv(s) && Enabled(s, a)
    ensures Inv(Next(s, a))
  {
    KeepsOrdered(s, a);
    KeepsHeld(s, a);
    KeepsAwake(s, a);
  }

  // ----- runs -----

  ghost predicate Runs(s: State, actions: seq<Action>, s': State)
    decreases |actions|
  {
    if actions == [] then s == s'
    else Enabled(s, actions[0]) && Runs(Next(s, actions[0]), actions[1..], s')
  }

  lemma {:induction false} RunKeeps(s: State, actions: seq<Action>, s': State)
    requires Inv(s) && Runs(s, actions, s')
    ensures Inv(s') && |s'.workers| == |s.workers|
    decreases |actions|
  {
    if actions != [] {
      StepKeeps(s, actions[0]);
      RunKeeps(Next(s, actions[0]), actions[1..], s');
    }
  }

  lemma StartIsInv(s: State)
    requires Start(s)
    ensures Inv(s)
  {
    assert forall w, n :: !Holds(s, w, n);
  }

  /** In every reachable state the log is exactly 0, 1, 2, ... in order of acceptance, the
      queue holds the last requests accepted, in order, and every request in between is
      held by exactly one worker. */
  lemma LogIsInAcceptOrder(s0: State, actions: seq<Action>, s: State)
    requires Start(s0) && Runs(s0, actions, s)
    ensures Ordered(s) && HeldOnce(s)
  {
    StartIsInv(s0);
    RunKeeps(s0, actions, s);
  }

  /** No wakeup is lost on either condition variable. */
  lemma NoLostWakeup(s0: State, actions: seq<Action>, s: State)
    requires Start(s0) && Runs(s0, actions, s)
    ensures QueueAwake(s) && LogAwake(s)
  {
    StartIsInv(s0);
    RunKeeps(s0, actions, s);
  }

  /** While a request is not logged, either some worker holds the next one to log, or it
      is at the head of the queue and no worker holds anything. */
  lemma NextIsHeldOrQueued(s0: State, actions: seq<Action>, s: State)
    requires Start(s0) && Runs(s0, actions, s) && s.nextLog < s.nextSeq
    ensures Held(s, s.nextLog)
         || (s.queue != [] && s.queue[0] == s.nextLog && forall w, n :: !Holds(s, w, n))
  {
    StartIsInv(s0);
    RunKeeps(s0, actions, s);
  }

  predicate ByWorker(a: Action) { a.Dequeue? || a.Handle? || a.Log? }

  /** The pool never gets stuck: while a request is not logged, some worker can run. */
  lemma SomeWorkerCanRun(s0: State, actions: seq<Action>, s: State) returns (a: Action)
    requires Start(s0) && Runs(s0, actions, s) && |s0.workers| > 0 && s.nextLog < s.nextSeq
    ensures ByWorker(a) && Enabled(s, a)
  {
    StartIsInv(s0);
    RunKeeps(s0, actions, s);
    if Held(s, s.nextLog) {
      var w :| Holds(s, w, s.nextLog);
      a := if s.workers[w].Handling? then Handle(w) else Log(w);
    } else {
      a := SomeoneDequeues(s);
    }
  }

  lemma SomeoneDequeues(s: State) returns (a: Action)
    requires Inv(s) && |s.workers| > 0 && Head(s) == s.nextLog && s.queue != []
    ensures ByWorker(a) && Enabled(s, a)
  {
    AwakeForQueue(s);
    var w :| 0 <= w < |s.workers| && Enabled(s, Dequeue(w));
    a := Dequeue(w);
  }

  lemma AwakeForQueue(s: State)
    requires Inv(s) && |s.workers| > 0 && Head(s) == s.nextLog && s.queue != []
    ensures exists w :: 0 <= w < |s.workers| && Enabled(s, Dequeue(w))
  {
    forall w | 0 <= w < |s.workers| ensures Enabled(s, Dequeue(w)) || Sleeping(s, w) {
      TicketInRange(s, w);
    }
    if forall w :: 0 <= w < |s.workers| ==> s.workers[w] != QueueWait(true) {
      NoneSignalled(s.workers);
      assert !Sleeping(s, 0);
      assert Enabled(s, Dequeue(0));
    } else {
      var w :| 0 <= w < |s.workers| && s.workers[w] == QueueWait(true);
      assert Enabled(s, Dequeue(w));
    }
  }

  lemma TicketInRange(s: State, w: nat)
    requires HeldOnce(s) && w < |s.workers|
    ensures var wk := s.workers[w];
            wk.Handling? || wk.LogReady? || wk.LogWait? ==> s.nextLog <= wk.ticket < Head(s)
  {
    var wk := s.workers[w];
    if wk.Handling? || wk.LogReady? || wk.LogWait? {
      assert Holds(s, w, wk.ticket);
    }
  }

  // ----- everything is logged in the end -----

  function Weight(wk: Worker): nat {
    match wk
    case Ready => 1
    case QueueWait(signalled) => if signalled then 1 else 0
    case Handling(_) => 3
    case LogReady(_) => 2
    case LogWait(_, signalled) => if signalled then 1 else 0
  }

  function Weights(ws: seq<Worker>): nat {
    if ws == [] then 0 else Weight(ws[0]) + Weights(ws[1..])
  }

  /** Work left for the workers. */
  function Measure(s: State): int {
    (s.nextSeq - s.nextLog) * (|s.workers| + 2) + 4 * |s.queue| + Weights(s.workers)
  }

  lemma {:induction false} WeightsUpdate(ws: seq<Worker>, w: nat, wk: Worker)
    requires w < |ws|
    ensures Weights(ws[w := wk]) + Weight(ws[w]) == Weights(ws) + Weight(wk)
    decreases |ws|
  {
    if w > 0 {
      assert ws[w := wk][1..] == ws[1..][w - 1 := wk];
      WeightsUpdate(ws[1..], w - 1, wk);
    } else {
      assert ws[w := wk][1..] == ws[1..];
    }
  }

  lemma {:induction false} WeightsBroadcast(ws: seq<Worker>)
    ensures Weights(Broadcast(ws)) <= Weights(ws) + |ws|
    decreases |ws|
  {
    if ws != [] {
      assert Broadcast(ws)[1..] == Broadcast(ws[1..]);
      WeightsBroadcast(ws[1..]);
    }
  }

  /** Every step of a worker uses up work; an accepted request or a wakeup adds a bounded
      amount of it. */
  lemma MeasureStep(s: State, a: Action)
    requires Enabled(s, a)
    ensures Measure(Next(s, a)) <= Measure(s)
              + (if a.Accept? then |s.workers| + 7 else if a.Spurious? then 1 else -1)
  {
    var s' := Next(s, a);
    var unit := |s.workers| + 2;
    match a
    case Accept(wake) =>
      if Sleeping(s, wake) {
        WeightsUpdate(s.workers, wake, QueueWait(true));
      }
      assert (s.nextSeq + 1 - s.nextLog) * unit == (s.nextSeq - s.nextLog) * unit + unit;
    case Log(w) =>
      if s.workers[w].ticket == s.nextLog {
        WeightsBroadcast(s.workers);
        WeightsUpdate(Broadcast(s.workers), w, Ready);
        assert (s.nextSeq - (s.nextLog + 1)) * unit == (s.nextSeq - s.nextLog) * unit - unit;
      } else {
        WeightsUpdate(s.workers, w, s'.workers[w]);
      }
    case Dequeue(w) => WeightsUpdate(s.workers, w, s'.workers[w]);
    case Handle(w) => WeightsUpdate(s.workers, w, s'.workers[w]);
    case Spurious(w) => WeightsUpdate(s.workers, w, s'.workers[w]);
  }

  lemma MeasureIsNat(s: State)
    requires Inv(s)
    ensures Measure(s) >= 0
  {
    assert (s.nextSeq - s.nextLog) * (|s.workers| + 2) >= 0;
  }

  /** What a run may add to the work left. */
  function Added(actions: seq<Action>, workers: nat): int {
    if actions == [] then 0
    else (if actions[0].Accept? then workers + 7 else if actions[0].Spurious? then 1 else -1)
         + Added(actions[1..], workers)
  }

  lemma {:induction false} MeasureRun(s: State, actions: seq<Action>, s': State)
    requires Inv(s) && Runs(s, actions, s')
    ensures 0 <= Measure(s') <= Measure(s) + Added(actions, |s.workers|)
    decreases |actions|
  {
    hide Measure;
    if actions == [] {
      MeasureIsNat(s);
    } else {
      StepKeeps(s, actions[0]);
      MeasureStep(s, actions[0]);
      MeasureRun(Next(s, actions[0]), actions[1..], s');
    }
  }

  lemma {:induction false} AddedByWorkers(actions: seq<Action>, workers: nat)
    requires forall i :: 0 <= i < |actions| ==> ByWorker(actions[i])
    ensures Added(actions, workers) == -|actions|
    decreases |actions|
  {
    if actions != [] {
      AddedByWorkers(actions[1..], workers);
    }
  }

  /** Every accepted request is logged: from a reachable state, worker steps alone can go on
      only for a bounded number of steps, and when none is possible all is logged. */
  lemma AllIsLoggedInTheEnd(s0: State, before: seq<Action>, s: State, after: seq<Action>, s': State)
    requires Start(s0) && |s0.workers| > 0 && Runs(s0, before, s) && Runs(s, after, s')
    requires forall i :: 0 <= i < |after| ==> ByWorker(after[i])
    ensures |after| <= Measure(s)
    ensures (forall a :: ByWorker(a) ==> !Enabled(s', a)) ==>
              |s'.log| == s'.nextSeq == s.nextSeq
  {
    StartIsInv(s0);
    RunKeeps(s0, before, s);
    RunKeeps(s, after, s');
    MeasureRun(s, after, s');
    AddedByWorkers(after, |s.workers|);
    SeqKept(s, after, s');
    if s'.nextLog < s'.nextSeq {
      RunsAppend(s0, before, s, after, s');
      var a := SomeWorkerCanRun(s0, before + after, s');
    }
  }

  lemma {:induction false} SeqKept(s: State, actions: seq<Action>, s': State)
    requires Runs(s, actions, s') && forall i :: 0 <= i < |actions| ==> ByWorker(actions[i])
    ensures s'.nextSeq == s.nextSeq
    decreases |actions|
  {
    if actions != [] {
      assert ByWorker(actions[0]);
      SeqKept(Next(s, actions[0]), actions[1..], s');
    }
  }

  lemma {:induction false} RunsAppend(s: State, as1: seq<Action>, s1: State, as2: seq<Action>, s2: State)
    requires Runs(s, as1, s1) && Runs(s1, as2, s2)
    ensures Runs(s, as1 + as2, s2)
    decreases |as1|
  {
    if as1 == [] {
      assert as1 + as2 == as2;
    } else {
      assert (as1 + as2)[1..] == as1[1..] + as2;
      RunsAppend(Next(s, as1[0]), as1[1..], s1, as2, s2);
    }
  }
}
