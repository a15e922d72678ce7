/** Interleavings of the slice workers. The body of the loop is a kernel: for each index a
    sequence of atomic memory steps. A kernel is local if every index writes only its own
    cells and reads only its own and shared, never written cells. */
module ParallelRuns {
  import opened ParallelFor

  datatype Kernel<!V> = Kernel(
    steps: int -> nat,                        // how many steps index i takes
    act: (int, nat, seq<V>) -> seq<V>,        // step n of index i
    own: int -> set<nat>,                     // the cells of index i
    shared: set<nat>)                         // cells nobody writes

  ghost predicate SameOn<V>(m: seq<V>, m': seq<V>, cells: set<nat>) {
    |m| == |m'| && forall c :: c in cells && c < |m| ==> m[c] == m'[c]
  }

  ghost predicate WritesOwn<V>(k: Kernel<V>, i: int, n: nat, m: seq<V>) {
    var m' := k.act(i, n, m);
    |m'| == |m| && forall c :: 0 <= c < |m| && c !in k.own(i) ==> m'[c] == m[c]
  }

  ghost predicate ReadsOwn<V>(k: Kernel<V>, i: int, n: nat, m: seq<V>, m': seq<V>) {
    SameOn(m, m', k.own(i) + k.shared) ==> SameOn(k.act(i, n, m), k.act(i, n, m'), k.own(i))
  }

  ghost predicate Apart<V>(k: Kernel<V>, i: int, j: int) {
    (i != j ==> k.own(i) !! k.own(j)) && k.own(i) !! k.shared
  }

  ghost predicate Local<V(!new)>(k: Kernel<V>, begin: int, end: int) {
    && (forall i, n, m :: WritesOwn(k, i, n, m))
    && (forall i, n, m, m' :: ReadsOwn(k, i, n, m, m'))
    && (forall i, j :: begin <= i < end && begin <= j < end ==> Apart(k, i, j))
  }

  /** Memory after the first `n` steps of index `i`, run on their own. */
  ghost function After<V>(k: Kernel<V>, i: int, n: nat, m: seq<V>): seq<V>
    decreases n
  {
    if n == 0 then m else k.act(i, n - 1, After(k, i, n - 1, m))
  }

  /** The serial loop from `begin` up to `end`. */
  ghost function Serial<V>(k: Kernel<V>, begin: int, end: int, m: seq<V>): seq<V>
    requires begin <= end
    decreases end - begin
  {
    if begin == end then m
    else After(k, end - 1, k.steps(end - 1), Serial(k, begin, end - 1, m))
  }

  // ----- interleaved runs -----

  datatype Pos = Pos(idx: int, step: nat)

  /** `trace` records the steps in the order in which they happen. */
  datatype State<!V> = State(mem: seq<V>, pos: seq<Pos>, trace: seq<(int, nat)>)

  ghost predicate CanRun<V>(slices: seq<Slice>, s: State<V>, w: nat) {
    w < |slices| && |s.pos| == |slices| && s.pos[w].idx < slices[w].end
  }

  /** Worker `w` takes the next step of its current index, or goes on to the next index. */
  ghost function Step<V>(k: Kernel<V>, slices: seq<Slice>, s: State<V>, w: nat): State<V>
    requires CanRun(slices, s, w)
  {
    var p := s.pos[w];
    if p.step < k.steps(p.idx)
    then State(k.act(p.idx, p.step, s.mem), s.pos[w := Pos(p.idx, p.step + 1)], s.trace + [(p.idx, p.step)])
    else State(s.mem, s.pos[w := Pos(p.idx + 1, 0)], s.trace)
  }

  function Begin(slices: seq<Slice>): (pos: seq<Pos>)
    ensures |pos| == |slices|
  {
    seq(|slices|, w requires 0 <= w < |slices| => Pos(slices[w].begin, 0))
  }

  ghost predicate Runs<V>(k: Kernel<V>, slices: seq<Slice>, s: State<V>, schedule: seq<nat>, s': State<V>)
    decreases |schedule|
  {
    if schedule == [] then s == s'
    else CanRun(slices, s, schedule[0])
         && Runs(k, slices, Step(k, slices, s, schedule[0]), schedule[1..], s')
  }

  ghost predicate Finished<V>(slices: seq<Slice>, s: State<V>) {
    |s.pos| == |slices| && forall w :: 0 <= w < |slices| ==> !CanRun(slices, s, w)
  }

  // ----- the invariant -----

  /** How many steps of index `i` a worker at `p` has taken. */
  function Taken<V>(k: Kernel<V>, p: Pos, i: int): nat {
    if i < p.idx then k.steps(i) else if i == p.idx then p.step else 0
  }

  predicate In(slices: seq<Slice>, w: int, x: int) {
    0 <= w < |slices| && InSlice(slices[w], x)
  }

  ghost predicate InSome(slices: seq<Slice>, x: int) {
    exists w :: In(slices, w, x)
  }

  /** Every index of the range is in exactly one slice, and no other index is in any. */
  ghost predicate Slicing(begin: int, end: int, slices: seq<Slice>) {
    && (forall x :: InSome(slices, x) <==> begin <= x < end)
    && (forall x, v, w :: In(slices, v, x) && In(slices, w, x) ==> v == w)
  }

  ghost predicate Owned<V>(k: Kernel<V>, begin: int, end: int, c: nat) {
    exists i :: begin <= i < end && c in k.own(i)
  }

  /** The cells of index `i` are what its own steps, run alone, make of them. */
  ghost predicate CellsOk<V>(k: Kernel<V>, m0: seq<V>, m: seq<V>, i: int, n: nat) {
    SameOn(m, After(k, i, n, m0), k.own(i))
  }

  ghost predicate WorkerOk<V>(k: Kernel<V>, slices: seq<Slice>, m0: seq<V>, s: State<V>, w: int, i: int) {
    In(slices, w, i) && |s.pos| == |slices| ==>
      CellsOk(k, m0, s.mem, i, Taken(k, s.pos[w], i))
  }

  ghost predicate Untouched<V>(k: Kernel<V>, begin: int, end: int, m0: seq<V>, m: seq<V>) {
    |m| == |m0| && forall c :: 0 <= c < |m| && !Owned(k, begin, end, c) ==> m[c] == m0[c]
  }

  ghost predicate Inv<V>(k: Kernel<V>, begin: int, end: int, slices: seq<Slice>, m0: seq<V>, s: State<V>) {
    && |s.pos| == |slices|
    && (forall w :: 0 <= w < |slices| ==> s.pos[w].idx >= slices[w].begin)
    && (forall w :: 0 <= w < |slices| ==> s.pos[w].step <= k.steps(s.pos[w].idx))
    && (forall w, i :: WorkerOk(k, slices, m0, s, w, i))
    && Untouched(k, begin, end, m0, s.mem)
  }

  lemma {:induction false} AfterWrites<V(!new)>(k: Kernel<V>, begin: int, end: int, i: int, n: nat, m: seq<V>)
    requires Local(k, begin, end)
    ensures var m' := After(k, i, n, m);
            |m'| == |m| && forall c :: 0 <= c < |m| && c !in k.own(i) ==> m'[c] == m[c]
    decreases n
  {
    if n > 0 {
      AfterWrites(k, begin, end, i, n - 1, m);
      assert WritesOwn(k, i, n - 1, After(k, i, n - 1, m));
    }
  }

  /** One more step of index `i` in any memory that agrees on what it may read. */
  lemma StepLocal<V(!new)>(k: Kernel<V>, begin: int, end: int, i: int, n: nat, m0: seq<V>, m: seq<V>)
    requires Local(k, begin, end) && begin <= i < end
    requires CellsOk(k, m0, m, i, n) && SameOn(m, m0, k.shared)
    ensures CellsOk(k, m0, k.act(i, n, m), i, n + 1)
  {
    AfterWrites(k, begin, end, i, n, m0);
    assert Apart(k, i, i);
    assert ReadsOwn(k, i, n, m, After(k, i, n, m0));
  }

  lemma OthersKeep<V(!new)>(k: Kernel<V>, begin: int, end: int, i: int, n: nat, m: seq<V>, j: int)
    requires Local(k, begin, end) && begin <= i < end && begin <= j < end && i != j
    ensures SameOn(k.act(i, n, m), m, k.own(j))
  {
    assert WritesOwn(k, i, n, m) && Apart(k, i, j);
  }

  lemma SharedKept<V(!new)>(k: Kernel<V>, begin: int, end: int, m0: seq<V>, m: seq<V>)
    requires Local(k, begin, end) && Untouched(k, begin, end, m0, m)
    ensures SameOn(m, m0, k.shared)
  {
    forall c | c in k.shared && c < |m| ensures m[c] == m0[c] {
      forall i | begin <= i < end ensures c !in k.own(i) {
        assert Apart(k, i, i);
      }
      assert !Owned(k, begin, end, c);
    }
  }

  lemma UntouchedStep<V(!new)>(k: Kernel<V>, begin: int, end: int, i: int, n: nat, m0: seq<V>, m: seq<V>)
    requires Local(k, begin, end) && begin <= i < end && Untouched(k, begin, end, m0, m)
    ensures Untouched(k, begin, end, m0, k.act(i, n, m))
  {
    assert WritesOwn(k, i, n, m);
  }

  lemma InvStep<V(!new)>(k: Kernel<V>, begin: int, end: int, slices: seq<Slice>, m0: seq<V>, s: State<V>, w: nat)
    requires Local(k, begin, end) && Slicing(begin, end, slices)
    requires Inv(k, begin, end, slices, m0, s) && CanRun(slices, s, w)
    ensures Inv(k, begin, end, slices, m0, Step(k, slices, s, w))
  {
    var p := s.pos[w];
    var s' := Step(k, slices, s, w);
    assert In(slices, w, p.idx) && InSome(slices, p.idx);
    if p.step < k.steps(p.idx) {
      UntouchedStep(k, begin, end, p.idx, p.step, m0, s.mem);
      SharedKept(k, begin, end, m0, s.mem);
    }
    forall v, i ensures WorkerOk(k, slices, m0, s', v, i) {
      assert WorkerOk(k, slices, m0, s, v, i);
      if In(slices, v, i) && p.step < k.steps(p.idx) {
        assert InSome(slices, i);
        if i == p.idx {
          StepLocal(k, begin, end, i, p.step, m0, s.mem);
        } else {
          OthersKeep(k, begin, end, p.idx, p.step, s.mem, i);
        }
      }
    }
  }

  lemma {:induction false} InvRun<V(!new)>(k: Kernel<V>, begin: int, end: int, slices: seq<Slice>, m0: seq<V>,
                                           s: State<V>, schedule: seq<nat>, s': State<V>)
    requires Local(k, begin, end) && Slicing(begin, end, slices)
    requires Inv(k, begin, end, slices, m0, s) && Runs(k, slices, s, schedule, s')
    ensures Inv(k, begin, end, slices, m0, s')
    decreases |schedule|
  {
    if schedule != [] {
      InvStep(k, begin, end, slices, m0, s, schedule[0]);
      InvRun(k, begin, end, slices, m0, Step(k, slices, s, schedule[0]), schedule[1..], s');
    }
  }

  // ----- the outcome -----

  /** Every index has had all its steps, and nothing else has changed. */
  ghost predicate Outcome<V>(k: Kernel<V>, begin: int, end: int, m0: seq<V>, m: seq<V>) {
    && Untouched(k, begin, end, m0, m)
    && forall i :: begin <= i < end ==> CellsOk(k, m0, m, i, k.steps(i))
  }

  lemma OutcomeUnique<V>(k: Kernel<V>, begin: int, end: int, m0: seq<V>, m: seq<V>, m': seq<V>)
    requires Outcome(k, begin, end, m0, m) && Outcome(k, begin, end, m0, m')
    ensures m == m'
  {
    forall c | 0 <= c < |m| ensures m[c] == m'[c] {
      if Owned(k, begin, end, c) {
        var i :| begin <= i < end && c in k.own(i);
        assert CellsOk(k, m0, m, i, k.steps(i)) && CellsOk(k, m0, m', i, k.steps(i));
      }
    }
  }

  lemma {:induction false} AfterLocal<V(!new)>(k: Kernel<V>, begin: int, end: int, i: int, n: nat, m0: seq<V>, m: seq<V>)
    requires Local(k, begin, end) && begin <= i < end
    requires SameOn(m, m0, k.own(i) + k.shared)
    ensures CellsOk(k, m0, After(k, i, n, m), i, n)
    decreases n
  {
    if n > 0 {
      AfterLocal(k, begin, end, i, n - 1, m0, m);
      AfterWrites(k, begin, end, i, n - 1, m);
      assert Apart(k, i, i);
      StepLocal(k, begin, end, i, n - 1, m0, After(k, i, n - 1, m));
    }
  }

  lemma {:induction false} SerialOutcome<V(!new)>(k: Kernel<V>, begin: int, mid: int, end: int, m0: seq<V>)
    requires Local(k, begin, end) && begin <= mid <= end
    ensures Outcome(k, begin, mid, m0, Serial(k, begin, mid, m0))
    decreases mid - begin
  {
    if begin < mid {
      var i := mid - 1;
      SerialOutcome(k, begin, i, end, m0);
      var m := Serial(k, begin, i, m0);
      var m' := After(k, i, k.steps(i), m);
      AfterWrites(k, begin, end, i, k.steps(i), m);
      forall j | begin <= j < mid ensures Apart(k, i, j) && Apart(k, j, i) {
      }
      OwnStillFresh(k, begin, i, end, m0, m);
      AfterLocal(k, begin, end, i, k.steps(i), m0, m);
      forall j | begin <= j < mid ensures CellsOk(k, m0, m', j, k.steps(j)) {
        if j < i {
          assert CellsOk(k, m0, m, j, k.steps(j)) && Apart(k, i, j);
        }
      }
      forall c | 0 <= c < |m0| && !Owned(k, begin, mid, c) ensures m'[c] == m0[c] {
        assert c !in k.own(i);
        assert !Owned(k, begin, i, c);
      }
    }
  }

  lemma OwnStillFresh<V(!new)>(k: Kernel<V>, begin: int, i: int, end: int, m0: seq<V>, m: seq<V>)
    requires Local(k, begin, end) && begin <= i < end && Untouched(k, begin, i, m0, m)
    ensures SameOn(m, m0, k.own(i) + k.shared)
  {
    forall c | c in k.own(i) + k.shared && c < |m| ensures m[c] == m0[c] {
      forall j | begin <= j < i ensures c !in k.own(j) {
        assert Apart(k, i, j) && Apart(k, j, j);
      }
    }
  }

  /** Any-schedule determinism: however the workers are interleaved, when all have finished
      the memory is what the serial loop leaves. */
  lemma AnyScheduleIsSerial<V(!new)>(k: Kernel<V>, begin: int, end: int, slices: seq<Slice>, m0: seq<V>,
                                     schedule: seq<nat>, s: State<V>)
    requires begin <= end && Local(k, begin, end) && Slicing(begin, end, slices)
    requires Runs(k, slices, State(m0, Begin(slices), []), schedule, s) && Finished(slices, s)
    ensures s.mem == Serial(k, begin, end, m0)
  {
    InvRun(k, begin, end, slices, m0, State(m0, Begin(slices), []), schedule, s);
    forall i | begin <= i < end ensures CellsOk(k, m0, s.mem, i, k.steps(i)) {
      assert InSome(slices, i);
      var w :| In(slices, w, i);
      assert !CanRun(slices, s, w) && WorkerOk(k, slices, m0, s, w, i);
    }
    SerialOutcome(k, begin, end, end, m0);
    OutcomeUnique(k, begin, end, m0, s.mem, Serial(k, begin, end, m0));
  }

  /** The slices `parallel_for` computes, for any worker count. */
  function SlicesFor(begin: int, end: int, workers: int): seq<Slice>
    requires begin < end
  {
    var n := WorkersFor(workers, end - begin);
    seq(n, i requires 0 <= i < n => SliceAt(begin, end, n, i))
  }

  lemma SlicesForSlicing(begin: int, end: int, workers: int)
    requires begin < end
    ensures Slicing(begin, end, SlicesFor(begin, end, workers))
  {
    var n := WorkersFor(workers, end - begin);
    var slices := SlicesFor(begin, end, workers);
    forall x ensures InSome(slices, x) <==> begin <= x < end {
      if begin <= x < end {
        var i := SomeSlice(begin, end, n, x);
        assert In(slices, i, x);
      }
      if InSome(slices, x) {
        var w :| In(slices, w, x);
        OneSlice(begin, end, n, x, w, w);
      }
    }
    forall x, v, w | In(slices, v, x) && In(slices, w, x) ensures v == w {
      OneSlice(begin, end, n, x, v, w);
    }
  }

  /** `parallel_for`, for every worker count and every interleaving. */
  lemma ParallelForIsSerial<V(!new)>(k: Kernel<V>, begin: int, end: int, workers: int, m0: seq<V>,
                                     schedule: seq<nat>, s: State<V>)
    requires begin < end && Local(k, begin, end)
    requires var slices := SlicesFor(begin, end, workers);
             Runs(k, slices, State(m0, Begin(slices), []), schedule, s) && Finished(slices, s)
    ensures s.mem == Serial(k, begin, end, m0)
  {
    SlicesForSlicing(begin, end, workers);
    AnyScheduleIsSerial(k, begin, end, SlicesFor(begin, end, workers), m0, schedule, s);
  }

  // ----- every step exactly once -----

  /** The steps of index `i` in a trace, in order. */
  function StepsOf(trace: seq<(int, nat)>, i: int): seq<nat> {
    if trace == [] then []
    else
      var last := trace[|trace| - 1];
      StepsOf(trace[..|trace| - 1], i) + (if last.0 == i then [last.1] else [])
  }

  function UpTo(n: nat): (s: seq<nat>)
    ensures |s| == n && forall j :: 0 <= j < n ==> s[j] == j
  {
    seq(n, j => j)
  }

  /** Steps done so far, index by index: in order, none twice, none for other indices. */
  ghost predicate TraceOk<V>(k: Kernel<V>, slices: seq<Slice>, s: State<V>, w: int, i: int) {
    In(slices, w, i) && |s.pos| == |slices| ==>
      Taken(k, s.pos[w], i) <= k.steps(i) && StepsOf(s.trace, i) == UpTo(Taken(k, s.pos[w], i))
  }

  ghost predicate Traced<V>(k: Kernel<V>, begin: int, end: int, slices: seq<Slice>, s: State<V>) {
    && |s.pos| == |slices|
    && (forall w :: 0 <= w < |slices| ==> s.pos[w].idx >= slices[w].begin)
    && (forall w, i :: TraceOk(k, slices, s, w, i))
    && (forall i :: !(begin <= i < end) ==> StepsOf(s.trace, i) == [])
  }

  lemma TraceStep<V>(k: Kernel<V>, begin: int, end: int, slices: seq<Slice>, s: State<V>, w: nat)
    requires Slicing(begin, end, slices) && Traced(k, begin, end, slices, s) && CanRun(slices, s, w)
    ensures Traced(k, begin, end, slices, Step(k, slices, s, w))
  {
    hide StepsOf, TraceOk;
    var s' := Step(k, slices, s, w);
    assert In(slices, w, s.pos[w].idx) && InSome(slices, s.pos[w].idx);
    forall v, i ensures TraceOk(k, slices, s', v, i) {
      TraceOkStep(k, begin, end, slices, s, w, v, i);
    }
    forall i | !(begin <= i < end) ensures StepsOf(s'.trace, i) == [] {
      StepsAfter(k, slices, s, w, i);
    }
  }

  /** A step adds to the steps of its own index alone. */
  lemma StepsAfter<V>(k: Kernel<V>, slices: seq<Slice>, s: State<V>, w: nat, i: int)
    requires CanRun(slices, s, w)
    ensures var p := s.pos[w];
            var next := if i == p.idx && p.step < k.steps(i) then [p.step] else [];
            StepsOf(Step(k, slices, s, w).trace, i) == StepsOf(s.trace, i) + next
  {
    var p, s' := s.pos[w], Step(k, slices, s, w);
    if p.step < k.steps(p.idx) {
      assert s'.trace[..|s.trace|] == s.trace;
    }
  }

  lemma TraceOkStep<V>(k: Kernel<V>, begin: int, end: int, slices: seq<Slice>, s: State<V>, w: nat, v: int, i: int)
    requires Slicing(begin, end, slices) && Traced(k, begin, end, slices, s) && CanRun(slices, s, w)
    ensures TraceOk(k, slices, Step(k, slices, s, w), v, i)
  {
    hide StepsOf, InSome;
    assert TraceOk(k, slices, s, v, i);
    assert In(slices, w, s.pos[w].idx);
    StepsAfter(k, slices, s, w, i);
  }

  lemma {:induction false} TraceRun<V>(k: Kernel<V>, begin: int, end: int, slices: seq<Slice>,
                                       s: State<V>, schedule: seq<nat>, s': State<V>)
    requires Slicing(begin, end, slices) && Traced(k, begin, end, slices, s) && Runs(k, slices, s, schedule, s')
    ensures Traced(k, begin, end, slices, s')
    decreases |schedule|
  {
    if schedule != [] {
      TraceStep(k, begin, end, slices, s, schedule[0]);
      TraceRun(k, begin, end, slices, Step(k, slices, s, schedule[0]), schedule[1..], s');
    }
  }

  /** In every finished run each index of the range has had each of its steps exactly once
      and in order, and no index outside the range has been touched. */
  lemma EveryIndexOnce<V>(k: Kernel<V>, begin: int, end: int, workers: int, m0: seq<V>,
                          schedule: seq<nat>, s: State<V>, i: int)
    requires begin < end
    requires var slices := SlicesFor(begin, end, workers);
             Runs(k, slices, State(m0, Begin(slices), []), schedule, s) && Finished(slices, s)
    ensures StepsOf(s.trace, i) == if begin <= i < end then UpTo(k.steps(i)) else []
  {
    var slices := SlicesFor(begin, end, workers);
    SlicesForSlicing(begin, end, workers);
    TraceRun(k, begin, end, slices, State(m0, Begin(slices), []), schedule, s);
    if begin <= i < end {
      assert InSome(slices, i);
      var w :| In(slices, w, i);
      assert !CanRun(slices, s, w) && TraceOk(k, slices, s, w, i);
    }
  }
}
