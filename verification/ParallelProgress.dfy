/** Every run of a parallel loop comes to an end: the workers have a fixed amount of work, each
    step uses up one unit of it, and while some is left some worker can run. */
module ParallelProgress {
  import opened ParallelFor
  import opened ParallelRuns

  /** Steps, and moves to the next index, left for indices a..b. */
  function RangeWork<V>(k: Kernel<V>, a: int, b: int): nat
    decreases b - a
  {
    if a >= b then 0 else k.steps(a) + 1 + RangeWork(k, a + 1, b)
  }

  function WorkerWork<V>(k: Kernel<V>, sl: Slice, p: Pos): int {
    if p.idx >= sl.end then 0 else RangeWork(k, p.idx, sl.end) - p.step
  }

  function Work<V>(k: Kernel<V>, slices: seq<Slice>, pos: seq<Pos>): int
    requires |pos| == |slices|
  {
    if pos == [] then 0
    else WorkerWork(k, slices[0], pos[0]) + Work(k, slices[1..], pos[1..])
  }

  /** No worker has taken more steps of its index than there are. */
  ghost predicate Sound<V>(k: Kernel<V>, slices: seq<Slice>, pos: seq<Pos>) {
    |pos| == |slices| && forall w :: 0 <= w < |pos| ==> pos[w].step <= k.steps(pos[w].idx)
  }

  lemma {:induction false} WorkIsNat<V>(k: Kernel<V>, slices: seq<Slice>, pos: seq<Pos>)
    requires Sound(k, slices, pos)
    ensures Work(k, slices, pos) >= 0
    decreases |pos|
  {
    if pos != [] {
      WorkIsNat(k, slices[1..], pos[1..]);
    }
  }

  lemma {:induction false} WorkUpdate<V>(k: Kernel<V>, slices: seq<Slice>, pos: seq<Pos>, w: nat, p: Pos)
    requires |pos| == |slices| && w < |pos|
    ensures Work(k, slices, pos[w := p])
         == Work(k, slices, pos) - WorkerWork(k, slices[w], pos[w]) + WorkerWork(k, slices[w], p)
    decreases |pos|
  {
    if w == 0 {
      assert pos[0 := p][1..] == pos[1..];
    } else {
      assert pos[w := p][1..] == pos[1..][w - 1 := p];
      WorkUpdate(k, slices[1..], pos[1..], w - 1, p);
    }
  }

  lemma StepUsesWork<V>(k: Kernel<V>, slices: seq<Slice>, s: State<V>, w: nat)
    requires CanRun(slices, s, w) && Sound(k, slices, s.pos)
    ensures Sound(k, slices, Step(k, slices, s, w).pos)
    ensures Work(k, slices, Step(k, slices, s, w).pos) == Work(k, slices, s.pos) - 1
  {
    WorkUpdate(k, slices, s.pos, w, Step(k, slices, s, w).pos[w]);
  }

  /** No run is longer than the work it starts with. */
  lemma {:induction false} RunsEnd<V>(k: Kernel<V>, slices: seq<Slice>, s: State<V>, schedule: seq<nat>, s': State<V>)
    requires Sound(k, slices, s.pos) && Runs(k, slices, s, schedule, s')
    ensures Sound(k, slices, s'.pos) && |schedule| <= Work(k, slices, s.pos)
    decreases |schedule|
  {
    if schedule == [] {
      WorkIsNat(k, slices, s.pos);
    } else {
      StepUsesWork(k, slices, s, schedule[0]);
      RunsEnd(k, slices, Step(k, slices, s, schedule[0]), schedule[1..], s');
    }
  }

  /** Every run can be continued until all workers have finished. */
  lemma {:induction false} CanFinish<V>(k: Kernel<V>, slices: seq<Slice>, s: State<V>)
      returns (schedule: seq<nat>, s': State<V>)
    requires Sound(k, slices, s.pos)
    ensures Runs(k, slices, s, schedule, s') && Finished(slices, s')
    decreases Work(k, slices, s.pos)
  {
    if w: nat :| CanRun(slices, s, w) {
      StepUsesWork(k, slices, s, w);
      WorkIsNat(k, slices, s.pos);
      WorkIsNat(k, slices, Step(k, slices, s, w).pos);
      var rest;
      rest, s' := CanFinish(k, slices, Step(k, slices, s, w));
      schedule := [w] + rest;
      assert schedule[1..] == rest;
    } else {
      schedule, s' := [], s;
    }
  }

  /** `parallel_for` comes to an end, for every worker count: from the start, runs are
      bounded in length, and there is one in which all workers finish. */
  lemma ParallelForEnds<V>(k: Kernel<V>, begin: int, end: int, workers: int, m0: seq<V>)
      returns (schedule: seq<nat>, s: State<V>)
    requires begin < end
    ensures var slices := SlicesFor(begin, end, workers);
            var s0 := State(m0, Begin(slices), []);
            && Runs(k, slices, s0, schedule, s) && Finished(slices, s)
            && forall other, s' :: Runs(k, slices, s0, other, s') ==> |other| <= Work(k, slices, s0.pos)
  {
    var slices := SlicesFor(begin, end, workers);
    var s0 := State(m0, Begin(slices), []);
    schedule, s := CanFinish(k, slices, s0);
    forall other, s': State<V> | Runs(k, slices, s0, other, s') ensures |other| <= Work(k, slices, s0.pos) {
      RunsEnd(k, slices, s0, other, s');
    }
  }
}
