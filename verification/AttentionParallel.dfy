/** `attention_forward`: whatever the worker count and however the stores of the units are
    interleaved, memory ends with the attention tensor and the weights of every unit. */
module AttentionParallel {
  import opened Floats
  import opened AttentionIndex
  import opened AttentionColumns
  import opened AttentionSteps
  import opened KernelLocality
  import opened ParallelKernels
  import AK = AttentionKernel
  import AR = AttentionRange
  import T = Transformer
  import B = Buffers
  import PR = ParallelRuns

  function SizesOf(l: Layout): Sizes { Sizes(l.T, l.C, l.NH) }

  /** Where the rows of a unit start. */
  datatype Place = Place(pre: nat, att: nat, out: nat)

  function PlaceOf(l: Layout, u: Unit): Place
    requires l.NH > 0
  {
    Place(l.preatt + AttCell(u, l.T, l.NH, 0), l.att + AttCell(u, l.T, l.NH, 0),
          l.out + OutCell(u, l.T, l.C, l.C / l.NH, 0))
  }

  function TargetOf(q: Place, p: Phase): nat {
    match p
    case Score(j) => q.pre + j
    case Exp(j) => q.att + j
    case Scale(j) => q.att + j
    case Zero(j) => q.out + j
    case Mixing(_, i) => q.out + i
  }

  /** The rows of a unit, as far as they are seen. */
  function RowsSeen<F>(seen: map<nat, F>, q: Place, t: nat, z: Sizes, default: F): Rows<F>
    requires z.NH > 0
  {
    Rows(Read(seen, q.pre, t + 1, default), Read(seen, q.att, z.T, default), Read(seen, q.out, HeadSize(z), default))
  }

  /** What `attention_range` stores: step by step, from its own rows and the input. */
  ghost function AttentionStores<F>(ops: Ops<F>, l: Layout): Stores<F>
    requires l.T > 0 && l.NH > 0
  {
    var z := SizesOf(l);
    Stores(
      (unit: int) => AttentionOwn(l, unit),
      Stretch(l.inp, InpSize(l)),
      (unit: int) => if unit < 0 then 0 else StepCount(z, Decode(unit, l.T, l.NH).t),
      (unit: int, n: nat) => if unit < 0 then 0 else
        var u := Decode(unit, l.T, l.NH);
        TargetOf(PlaceOf(l, u), PhaseOf(z, u.t, n)),
      (unit: int, n: nat, seen: map<nat, F>) => if unit < 0 then ops.zero else
        var u := Decode(unit, l.T, l.NH);
        Stored(ops, Read(seen, l.inp, InpSize(l), ops.zero), u, z,
               RowsSeen(seen, PlaceOf(l, u), u.t, z, ops.zero), PhaseOf(z, u.t, n)))
  }

  // ----- where the rows lie -----

  predicate InMemory(l: Layout, size: nat) {
    && l.preatt + AttSize(l) <= size && l.att + AttSize(l) <= size
    && l.out + OutSize(l) <= size && l.inp + InpSize(l) <= size
  }

  /** The three rows and the input lie in memory and apart from each other. */
  predicate PlaceOk(l: Layout, q: Place, size: nat)
    requires l.NH > 0
  {
    var hs := HeadSize(SizesOf(l));
    && q.pre + l.T <= size && q.att + l.T <= size && q.out + hs <= size && l.inp + InpSize(l) <= size
    && KernelLocality.Before(q.pre, l.T, q.att, l.T)
    && KernelLocality.Before(q.pre, l.T, q.out, hs)
    && KernelLocality.Before(q.att, l.T, q.out, hs)
    && KernelLocality.Before(l.inp, InpSize(l), q.pre, l.T)
    && KernelLocality.Before(l.inp, InpSize(l), q.att, l.T)
    && KernelLocality.Before(l.inp, InpSize(l), q.out, hs)
  }

  lemma UnitPlaced(l: Layout, unit: nat, size: nat)
    requires LayoutOk(l) && SizesOk(SizesOf(l)) && InMemory(l, size) && unit < Units(l)
    ensures var u := Decode(unit, l.T, l.NH);
            u.b < l.B && u.t < l.T && u.h < l.NH && PlaceOk(l, PlaceOf(l, u), size)
  {
    hide AttCell, OutCell, Decode;
    DecodeInRange(unit, l.B, l.T, l.NH);
    var u := Decode(unit, l.T, l.NH);
    AR.AttRowInside(u, l.B, l.T, l.NH);
    PartInside(l.B, l.T, l.C, l.NH, unit);
  }

  lemma AttCellAt(u: Unit, T: nat, NH: nat, j: nat)
    ensures AttCell(u, T, NH, j) == AttCell(u, T, NH, 0) + j
  {
  }

  lemma OutCellAt(u: Unit, T: nat, C: nat, hs: nat, i: nat)
    ensures OutCell(u, T, C, hs, i) == OutCell(u, T, C, hs, 0) + i
  {
  }

  /** A unit owns exactly the cells of its three rows. */
  lemma OwnStretches(l: Layout, unit: nat)
    requires l.T > 0 && l.NH > 0
    ensures var u := Decode(unit, l.T, l.NH);
            var q := PlaceOf(l, u);
            && Stretch(q.pre, l.T) <= AttentionOwn(l, unit)
            && Stretch(q.att, l.T) <= AttentionOwn(l, unit)
            && Stretch(q.out, HeadSize(SizesOf(l))) <= AttentionOwn(l, unit)
  {
    hide AttCell, OutCell, Decode;
    var u := Decode(unit, l.T, l.NH);
    var q, hs := PlaceOf(l, u), l.C / l.NH;
    forall c | c in Stretch(q.pre, l.T) ensures c in AttentionOwn(l, unit) {
      AttCellAt(u, l.T, l.NH, c - q.pre);
    }
    forall c | c in Stretch(q.att, l.T) ensures c in AttentionOwn(l, unit) {
      AttCellAt(u, l.T, l.NH, c - q.att);
    }
    forall c | c in Stretch(q.out, hs) ensures c in AttentionOwn(l, unit) {
      OutCellAt(u, l.T, l.C, hs, c - q.out);
    }
  }

  // ----- one step in memory -----

  function RowsAt<F>(m: seq<F>, l: Layout, q: Place, t: nat): Rows<F>
    requires l.NH > 0 && PlaceOk(l, q, |m|) && t < l.T
  {
    Rows(m[q.pre..q.pre + t + 1], m[q.att..q.att + l.T], m[q.out..q.out + HeadSize(SizesOf(l))])
  }

  function InputAt<F>(m: seq<F>, l: Layout): seq<F>
    requires l.inp + InpSize(l) <= |m|
  {
    m[l.inp..l.inp + InpSize(l)]
  }

  lemma RowsSeenAre<F>(m: seq<F>, l: Layout, q: Place, t: nat, cells: set<nat>, default: F)
    requires l.NH > 0 && PlaceOk(l, q, |m|) && t < l.T
    requires Stretch(q.pre, l.T) <= cells && Stretch(q.att, l.T) <= cells
    requires Stretch(q.out, HeadSize(SizesOf(l))) <= cells && Stretch(l.inp, InpSize(l)) <= cells
    ensures RowsSeen(View(m, cells), q, t, SizesOf(l), default) == RowsAt(m, l, q, t)
    ensures Read(View(m, cells), l.inp, InpSize(l), default) == InputAt(m, l)
  {
    hide Read, View, Stretch, InpSize, HeadSize;
    Shorter(q.pre, t + 1, l.T);
    ReadIs(m, cells, q.pre, t + 1, default);
    ReadIs(m, cells, q.att, l.T, default);
    ReadIs(m, cells, q.out, HeadSize(SizesOf(l)), default);
    ReadIs(m, cells, l.inp, InpSize(l), default);
  }

  lemma Shorter(at: nat, n: nat, n': nat)
    requires n <= n'
    ensures Stretch(at, n) <= Stretch(at, n')
  {
  }

  /** A store into one of the rows changes that row at that place, and nothing else. */
  lemma StoreInRows<F>(m: seq<F>, l: Layout, u: Unit, q: Place, p: Phase, v: F)
    requires l.NH > 0 && PlaceOk(l, q, |m|) && u.t < l.T && Inside(u, SizesOf(l), p)
    ensures var c := TargetOf(q, p);
            && c < |m|
            && RowsAt(m[c := v], l, q, u.t) == RowsStep(RowsAt(m, l, q, u.t), p, v)
            && InputAt(m[c := v], l) == InputAt(m, l)
  {
    hide RowsAt, InputAt, PlaceOk;
    match p
    case Score(j) => StoreInPre(m, l, q, u.t, j, v);
    case Exp(j) => StoreInAtt(m, l, q, u.t, j, v);
    case Scale(j) => StoreInAtt(m, l, q, u.t, j, v);
    case Zero(j) => StoreInOut(m, l, q, u.t, j, v);
    case Mixing(_, i) => StoreInOut(m, l, q, u.t, i, v);
  }

  lemma StoreInPre<F>(m: seq<F>, l: Layout, q: Place, t: nat, j: nat, v: F)
    requires l.NH > 0 && PlaceOk(l, q, |m|) && t < l.T && j <= t
    ensures q.pre + j < |m| && InputAt(m[q.pre + j := v], l) == InputAt(m, l)
    ensures var r := RowsAt(m, l, q, t); RowsAt(m[q.pre + j := v], l, q, t) == r.(pre := Put(r.pre, j, v))
  {
    hide InpSize, Put, HeadSize;
    var c, hs, n := q.pre + j, HeadSize(SizesOf(l)), InpSize(l);
    assert |m[c := v]| == |m|;
    StoreInside(m, c, v, q.pre, t + 1);
    StoreOutside(m, c, v, q.att, l.T);
    StoreOutside(m, c, v, q.out, hs);
    StoreOutside(m, c, v, l.inp, n);
  }

  lemma StoreInAtt<F>(m: seq<F>, l: Layout, q: Place, t: nat, j: nat, v: F)
    requires l.NH > 0 && PlaceOk(l, q, |m|) && t < l.T && j < l.T
    ensures q.att + j < |m| && InputAt(m[q.att + j := v], l) == InputAt(m, l)
    ensures var r := RowsAt(m, l, q, t); RowsAt(m[q.att + j := v], l, q, t) == r.(att := Put(r.att, j, v))
  {
    hide InpSize, Put, HeadSize;
    var c, hs, n := q.att + j, HeadSize(SizesOf(l)), InpSize(l);
    assert |m[c := v]| == |m|;
    StoreOutside(m, c, v, q.pre, t + 1);
    StoreInside(m, c, v, q.att, l.T);
    StoreOutside(m, c, v, q.out, hs);
    StoreOutside(m, c, v, l.inp, n);
  }

  lemma StoreInOut<F>(m: seq<F>, l: Layout, q: Place, t: nat, j: nat, v: F)
    requires l.NH > 0 && PlaceOk(l, q, |m|) && t < l.T && j < HeadSize(SizesOf(l))
    ensures q.out + j < |m| && InputAt(m[q.out + j := v], l) == InputAt(m, l)
    ensures var r := RowsAt(m, l, q, t); RowsAt(m[q.out + j := v], l, q, t) == r.(out := Put(r.out, j, v))
  {
    hide InpSize, Put, HeadSize;
    var c, hs, n := q.out + j, HeadSize(SizesOf(l)), InpSize(l);
    assert |m[c := v]| == |m|;
    StoreOutside(m, c, v, q.pre, t + 1);
    StoreOutside(m, c, v, q.att, l.T);
    StoreInside(m, c, v, q.out, hs);
    StoreOutside(m, c, v, l.inp, n);
  }

  lemma StoreInside<F>(m: seq<F>, c: nat, v: F, at: nat, n: nat)
    requires at <= c < at + n <= |m|
    ensures m[c := v][at..at + n] == Put(m[at..at + n], c - at, v)
  {
  }

  lemma StoreOutside<F>(m: seq<F>, c: nat, v: F, at: nat, n: nat)
    requires at + n <= |m| && c < |m| && (c < at || at + n <= c)
    ensures m[c := v][at..at + n] == m[at..at + n]
  {
  }

  lemma TargetOwned(l: Layout, u: Unit, q: Place, p: Phase, cells: set<nat>)
    requires l.NH > 0 && u.t < l.T && Inside(u, SizesOf(l), p)
    requires Stretch(q.pre, l.T) <= cells && Stretch(q.att, l.T) <= cells && Stretch(q.out, HeadSize(SizesOf(l))) <= cells
    ensures TargetOf(q, p) in cells
  {
    var c := TargetOf(q, p);
    match p
    case Score(j) => assert c in Stretch(q.pre, l.T);
    case Exp(j) => assert c in Stretch(q.att, l.T);
    case Scale(j) => assert c in Stretch(q.att, l.T);
    case Zero(j) => assert c in Stretch(q.out, HeadSize(SizesOf(l)));
    case Mixing(_, i) => assert c in Stretch(q.out, HeadSize(SizesOf(l)));
  }

  /** A step in memory is a step on the unit's rows. */
  lemma StepInMemory<F>(ops: Ops<F>, l: Layout, unit: nat, n: nat, m: seq<F>)
    requires LayoutOk(l) && SizesOk(SizesOf(l)) && InMemory(l, |m|) && unit < Units(l)
    requires n < StepCount(SizesOf(l), Decode(unit, l.T, l.NH).t)
    ensures var u := Decode(unit, l.T, l.NH);
            var q, p := PlaceOf(l, u), PhaseOf(SizesOf(l), u.t, n);
            var m' := StoreStep(AttentionStores(ops, l), unit, n, m);
            && u.t < l.T && |m'| == |m| && PlaceOk(l, q, |m|)
            && RowsAt(m', l, q, u.t)
               == RowsStep(RowsAt(m, l, q, u.t), p, Stored(ops, InputAt(m, l), u, SizesOf(l), RowsAt(m, l, q, u.t), p))
            && InputAt(m', l) == InputAt(m, l)
  {
    hide Decode, PlaceOf, PhaseOf, Stored, RowsStep, RowsAt, InputAt, RowsSeen, Read, View, Stretch, AttentionOwn;
    hide StepCount, Inside, TargetOf, LayoutOk, InMemory, PlaceOk, InpSize;
    UnitPlaced(l, unit, |m|);
    OwnStretches(l, unit);
    var k, u := AttentionStores(ops, l), Decode(unit, l.T, l.NH);
    var q, p := PlaceOf(l, u), PhaseOf(SizesOf(l), u.t, n);
    NextPhase(SizesOf(l), u, n);
    TargetOwned(l, u, q, p, AttentionOwn(l, unit));
    var seen := View(m, k.own(unit) + k.shared);
    RowsSeenAre(m, l, q, u.t, k.own(unit) + k.shared, ops.zero);
    StoreInRows(m, l, u, q, p, k.value(unit, n, seen));
  }

  // ----- one unit alone -----

  /** Sizes, memory and input fit together, and the input stretch holds `x`. */
  ghost predicate Ready<F>(l: Layout, x: seq<Row<F>>, m: seq<F>) {
    && LayoutOk(l) && SizesOk(SizesOf(l)) && InMemory(l, |m|) && Units(l) > 0
    && |x| == l.B * l.T && B.Holds(InputAt(m, l), x, 3 * l.C)
  }

  lemma UnitReady<F>(l: Layout, x: seq<Row<F>>, m: seq<F>, unit: nat)
    requires Ready(l, x, m) && unit < Units(l)
    ensures var u := Decode(unit, l.T, l.NH);
            && u.t < l.T && u.b < l.B && u.h < l.NH && UnitWell(x, u, SizesOf(l)) && PlaceOk(l, PlaceOf(l, u), |m|)
            && RowsFit(RowsAt(m, l, PlaceOf(l, u), u.t), u, SizesOf(l))
  {
    hide Decode, Ready, PlaceOk, PlaceOf, LayoutOk, InMemory, Units, RowsAt, RowsFit;
    ReadyFacts(l, x, m);
    UnitPlaced(l, unit, |m|);
    assert unit < l.B * (l.T * l.NH) by {
      UnitsAre(l);
    }
    AR.UnitInRange(x, l.B, l.T, l.C, l.NH, unit);
    RowsAtFit(m, l, PlaceOf(l, Decode(unit, l.T, l.NH)), Decode(unit, l.T, l.NH));
  }

  lemma ReadyFacts<F>(l: Layout, x: seq<Row<F>>, m: seq<F>)
    requires Ready(l, x, m)
    ensures LayoutOk(l) && SizesOk(SizesOf(l)) && InMemory(l, |m|) && AR.Sizes(x, l.B, l.T, l.C, l.NH)
    ensures l.inp + InpSize(l) <= |m|
  {
    hide LayoutOk, B.Filled, Units;
  }

  lemma UnitsAre(l: Layout)
    ensures Units(l) == l.B * (l.T * l.NH)
  {
  }

  lemma RowsAtFit<F>(m: seq<F>, l: Layout, q: Place, u: Unit)
    requires l.NH > 0 && PlaceOk(l, q, |m|) && u.t < l.T
    ensures RowsFit(RowsAt(m, l, q, u.t), u, SizesOf(l))
  {
  }

  /** The rows of the unit after n of its steps, in closed form; the input is untouched. */
  ghost predicate Reached<F>(ops: Ops<F>, l: Layout, x: seq<Row<F>>, unit: nat, n: nat, m0: seq<F>, m: seq<F>)
    requires Ready(l, x, m0) && unit < Units(l)
  {
    UnitReady(l, x, m0, unit);
    var u := Decode(unit, l.T, l.NH);
    var q := PlaceOf(l, u);
    && |m| == |m0| && InputAt(m, l) == InputAt(m0, l)
    && AttentionSteps.Before(ops, x, u, SizesOf(l), RowsAt(m0, l, q, u.t), PhaseOf(SizesOf(l), u.t, n), RowsAt(m, l, q, u.t))
  }

  lemma {:induction false} UnitAfter<F>(ops: Ops<F>, l: Layout, x: seq<Row<F>>, unit: nat, n: nat, m0: seq<F>)
    requires Ready(l, x, m0) && unit < Units(l) && n <= StepCount(SizesOf(l), Decode(unit, l.T, l.NH).t)
    ensures Reached(ops, l, x, unit, n, m0, PR.After(StoreKernel(AttentionStores(ops, l)), unit, n, m0))
    decreases n
  {
    hide PR.After, Reached, Ready, StoreStep, AttentionStores, StepCount, Decode;
    ReadySizes(l, x, m0);
    AfterStep(StoreKernel(AttentionStores(ops, l)), unit, n, m0);
    if n == 0 {
      ReachedNone(ops, l, x, unit, m0);
    } else {
      UnitAfter(ops, l, x, unit, n - 1, m0);
      ReachedNext(ops, l, x, unit, n - 1, m0, PR.After(StoreKernel(AttentionStores(ops, l)), unit, n - 1, m0));
    }
  }

  lemma ReadySizes<F>(l: Layout, x: seq<Row<F>>, m: seq<F>)
    requires Ready(l, x, m)
    ensures l.T > 0 && l.NH > 0
  {
  }

  lemma ReachedNone<F>(ops: Ops<F>, l: Layout, x: seq<Row<F>>, unit: nat, m0: seq<F>)
    requires Ready(l, x, m0) && unit < Units(l)
    ensures Reached(ops, l, x, unit, 0, m0, m0)
  {
    hide Decode, PlaceOf, RowsAt, AttentionSteps.Before, UnitWell, RowsFit;
    UnitReady(l, x, m0, unit);
    var u := Decode(unit, l.T, l.NH);
    UnitBegin(ops, x, u, SizesOf(l), RowsAt(m0, l, PlaceOf(l, u), u.t));
  }

  lemma ReachedNext<F>(ops: Ops<F>, l: Layout, x: seq<Row<F>>, unit: nat, n: nat, m0: seq<F>, m: seq<F>)
    requires Ready(l, x, m0) && unit < Units(l) && n < StepCount(SizesOf(l), Decode(unit, l.T, l.NH).t)
    requires Reached(ops, l, x, unit, n, m0, m)
    ensures Reached(ops, l, x, unit, n + 1, m0, StoreStep(AttentionStores(ops, l), unit, n, m))
  {
    hide Decode, PlaceOf, RowsAt, InputAt, AttentionSteps.Before, UnitWell, RowsFit, StepCount, PhaseOf, StoreStep;
    hide AttentionStores, Stored, RowsStep, B.Holds, LayoutOk, InMemory, PlaceOk;
    ReadyFacts(l, x, m0);
    UnitReady(l, x, m0, unit);
    StepInMemory(ops, l, unit, n, m);
    var u := Decode(unit, l.T, l.NH);
    var q := PlaceOf(l, u);
    UnitStep(ops, InputAt(m, l), x, u, SizesOf(l), RowsAt(m0, l, q, u.t), n, RowsAt(m, l, q, u.t));
  }

  // ----- all units, in any order -----

  /** The rows of a unit hold its scores, its weights and its output. */
  ghost predicate UnitDone<F>(ops: Ops<F>, l: Layout, x: seq<Row<F>>, unit: nat, m: seq<F>) {
    && l.T > 0 && l.NH > 0
    && var u := Decode(unit, l.T, l.NH);
       && u.t < l.T && UnitWell(x, u, SizesOf(l)) && PlaceOk(l, PlaceOf(l, u), |m|)
       && var s := AK.UnitScores(ops, x, u, l.T, l.C, l.NH);
          RowsAt(m, l, PlaceOf(l, u), u.t) == Rows(s, AK.Padded(ops, s, l.T), AK.UnitOut(ops, x, u, l.T, l.C, l.NH))
  }

  lemma UnitFinished<F>(ops: Ops<F>, l: Layout, x: seq<Row<F>>, unit: nat, m0: seq<F>)
    requires Ready(l, x, m0) && unit < Units(l)
    ensures var k := StoreKernel(AttentionStores(ops, l));
            UnitDone(ops, l, x, unit, PR.After(k, unit, k.steps(unit), m0))
  {
    hide PR.After, PlaceOf, RowsAt, AttentionSteps.Before, UnitWell, RowsFit, StepCount, PhaseOf, PlaceOk;
    hide AK.UnitScores, AK.Padded, AK.UnitOut, Decode, LayoutOk;
    UnitReady(l, x, m0, unit);
    var k, u := StoreKernel(AttentionStores(ops, l)), Decode(unit, l.T, l.NH);
    var m := PR.After(k, unit, k.steps(unit), m0);
    UnitAfter(ops, l, x, unit, k.steps(unit), m0);
    UnitEnd(ops, x, u, SizesOf(l), RowsAt(m0, l, PlaceOf(l, u), u.t), RowsAt(m, l, PlaceOf(l, u), u.t));
  }

  /** What holds of a unit's rows in one memory holds in another with the same cells. */
  lemma SameRows<F>(ops: Ops<F>, l: Layout, x: seq<Row<F>>, unit: nat, m: seq<F>, m': seq<F>)
    requires UnitDone(ops, l, x, unit, m) && PR.SameOn(m', m, AttentionOwn(l, unit))
    ensures UnitDone(ops, l, x, unit, m')
  {
    hide Decode, PlaceOf, AK.UnitScores, AK.Padded, AK.UnitOut, UnitWell, InpSize, AttentionOwn, HeadSize;
    OwnStretches(l, unit);
    var u := Decode(unit, l.T, l.NH);
    var q, cells := PlaceOf(l, u), AttentionOwn(l, unit);
    Shorter(q.pre, u.t + 1, l.T);
    SameStretch(m, m', cells, q.pre, u.t + 1);
    SameStretch(m, m', cells, q.att, l.T);
    SameStretch(m, m', cells, q.out, HeadSize(SizesOf(l)));
  }

  lemma SameStretch<F>(m: seq<F>, m': seq<F>, cells: set<nat>, at: nat, n: nat)
    requires PR.SameOn(m', m, cells) && Stretch(at, n) <= cells && at + n <= |m|
    ensures m'[at..at + n] == m[at..at + n]
  {
    var a, b := m'[at..at + n], m[at..at + n];
    forall j | 0 <= j < n ensures a[j] == b[j] {
      assert at + j in Stretch(at, n);
    }
  }

  /** What the output tensor held at the start. */
  function GapAt<F>(m: seq<F>, l: Layout): (gap: seq<Row<F>>)
    requires l.out + OutSize(l) <= |m|
    ensures |gap| == l.B * l.T
  {
    B.RowsOf(m[l.out..l.out + OutSize(l)], l.B * l.T, l.C)
  }

  /** The output tensor is the attention of the input, over what it held. */
  ghost predicate AttentionAt<F>(ops: Ops<F>, l: Layout, x: seq<Row<F>>, gap: seq<Row<F>>, m: seq<F>) {
    && T.Width(x, 3 * l.C) && l.T > 0 && l.NH > 0 && |gap| == |x| && T.Width(gap, l.C)
    && HoldsAt(m, l.out, T.Attention(ops, x, l.T, l.C, l.NH, gap), l.C)
  }

  /** For every worker count and every interleaving of the stores: when `parallel_for` has
      finished, every unit's scores, weights and output are in place, and the output tensor
      is the attention of the input tensor. */
  lemma AttentionTensorInParallel<F(!new)>(ops: Ops<F>, l: Layout, x: seq<Row<F>>, workers: int, m0: seq<F>,
                                           schedule: seq<nat>, s: PR.State<F>)
    requires Ready(l, x, m0)
    requires var slices := PR.SlicesFor(0, Units(l), workers);
             && PR.Runs(StoreKernel(AttentionStores(ops, l)), slices, PR.State(m0, PR.Begin(slices), []), schedule, s)
             && PR.Finished(slices, s)
    ensures forall unit: nat :: unit < Units(l) ==> UnitDone(ops, l, x, unit, s.mem)
    ensures AttentionAt(ops, l, x, GapAt(m0, l), s.mem)
    ensures OnlyOutputs(l, m0, s.mem)
  {
    hide PR.Runs, PR.Finished, PR.After, PR.Serial, UnitDone, AttentionAt, AttentionOwn, LayoutOk, InMemory, B.Filled;
    hide Decode, Stored, RowsSeen, StepCount, PhaseOf, TargetOf, PlaceOf, B.CellIs, GapAt;
    var ks := AttentionStores(ops, l);
    StoresAttention(ops, l);
    AttentionInParallel(ks, l, workers, m0, schedule, s);
    AttentionIsLocal(ks, l);
    var k := StoreKernel(ks);
    PR.SerialOutcome(k, 0, Units(l), Units(l), m0);
    forall unit: nat | unit < Units(l) ensures UnitDone(ops, l, x, unit, s.mem) {
      UnitFinished(ops, l, x, unit, m0);
      assert PR.CellsOk(k, m0, s.mem, unit, k.steps(unit));
      SameRows(ops, l, x, unit, PR.After(k, unit, k.steps(unit), m0), s.mem);
    }
    forall c: nat | c < |m0| && !OwnedCell(l, c) ensures s.mem[c] == m0[c] {
      assert !PR.Owned(k, 0, Units(l), c);
    }
    UnitsFill(ops, l, x, m0, s.mem);
    forall c | 0 <= c < |m0| && !InOutputs(l, c) ensures s.mem[c] == m0[c] {
      if PR.Owned(k, 0, Units(l), c) {
        var unit :| 0 <= unit < Units(l) && c in k.own(unit);
        OwnInOutputs(l, unit, c);
      }
    }
  }

  predicate InOutputs(l: Layout, c: nat) {
    || InStretch(c, l.preatt, AttSize(l)) || InStretch(c, l.att, AttSize(l)) || InStretch(c, l.out, OutSize(l))
  }

  /** Nothing but preatt, att and out has changed. */
  ghost predicate OnlyOutputs<F>(l: Layout, m0: seq<F>, m: seq<F>) {
    |m| == |m0| && forall c :: 0 <= c < |m| && !InOutputs(l, c) ==> m[c] == m0[c]
  }

  lemma OwnInOutputs(l: Layout, unit: nat, c: nat)
    requires LayoutOk(l) && unit < Units(l) && c in AttentionOwn(l, unit)
    ensures InOutputs(l, c)
  {
    hide AttentionOwn, AttCell, OutCell, LayoutOk;
    var u, which, x := OwnCell(l, unit, c);
  }

  lemma StoresAttention<F>(ops: Ops<F>, l: Layout)
    requires l.T > 0 && l.NH > 0
    ensures IsAttention(AttentionStores(ops, l), l)
  {
    hide AttentionOwn, Stored, RowsSeen, StepCount, PhaseOf, TargetOf, PlaceOf, Decode;
  }

  /** All units done, and nothing else changed, is the tensor done. */
  lemma UnitsFill<F>(ops: Ops<F>, l: Layout, x: seq<Row<F>>, m0: seq<F>, m: seq<F>)
    requires Ready(l, x, m0) && |m| == |m0|
    requires forall unit: nat :: unit < Units(l) ==> UnitDone(ops, l, x, unit, m)
    requires forall c: nat :: c < |m| && !OwnedCell(l, c) ==> m[c] == m0[c]
    ensures l.out + OutSize(l) <= |m0| && AttentionAt(ops, l, x, GapAt(m0, l), m)
  {
    hide UnitDone, B.CellIs, T.Attention, B.Holds, OwnedCell, AR.CellDone;
    ReadyFacts(l, x, m0);
    var gap, n := GapAt(m0, l), |x| * l.C;
    var before, now := m0[l.out..l.out + n], m[l.out..l.out + n];
    B.RowsHold(before, |x|, l.C);
    var y := T.Attention(ops, x, l.T, l.C, l.NH, gap);
    forall c: nat | c < n ensures AR.CellDone(now, before, y, l.T, l.C, l.NH, 0, l.B * (l.T * l.NH), c) {
      CellFilled(ops, l, x, m0, m, c);
    }
    AR.AllUnitsDone(ops, now, before, x, l.B, l.T, l.C, l.NH, gap);
  }

  lemma CellFilled<F>(ops: Ops<F>, l: Layout, x: seq<Row<F>>, m0: seq<F>, m: seq<F>, c: nat)
    requires LayoutOk(l) && l.C > 0 && l.out + OutSize(l) <= |m| == |m0| && c < OutSize(l)
    requires AR.Sizes(x, l.B, l.T, l.C, l.NH) && T.Width(GapAt(m0, l), l.C)
    requires forall unit: nat :: unit < Units(l) ==> UnitDone(ops, l, x, unit, m)
    requires !OwnedCell(l, l.out + c) ==> m[l.out + c] == m0[l.out + c]
    ensures var before, now := m0[l.out..l.out + OutSize(l)], m[l.out..l.out + OutSize(l)];
            var y := T.Attention(ops, x, l.T, l.C, l.NH, GapAt(m0, l));
            AR.CellDone(now, before, y, l.T, l.C, l.NH, 0, l.B * (l.T * l.NH), c)
  {
    hide UnitDone, B.CellIs, T.Attention, OwnedCell, InPart, GapAt, LayoutOk;
    OwnedInSomePart(l, c);
    if InSomePart(c, 0, Units(l), l.T, l.C, l.NH) {
      var unit :| 0 <= unit < Units(l) && InPart(c, unit, l.T, l.C, l.NH);
      UnitCell(ops, l, x, m, unit, c, GapAt(m0, l));
    }
  }

  lemma UnitCell<F>(ops: Ops<F>, l: Layout, x: seq<Row<F>>, m: seq<F>, unit: nat, c: nat, gap: seq<Row<F>>)
    requires AR.Sizes(x, l.B, l.T, l.C, l.NH) && unit < Units(l) && InPart(c, unit, l.T, l.C, l.NH)
    requires UnitDone(ops, l, x, unit, m) && |gap| == |x| && T.Width(gap, l.C)
    ensures AttentionCellAt(ops, l, x, gap, m, c)
  {
    hide Decode, OutCell, AttCell, AK.UnitScores, AK.Padded, AK.UnitOut, B.CellIs, T.Attention, UnitWell, InpSize;
    var u, hs := Decode(unit, l.T, l.NH), l.C / l.NH;
    AR.UnitFits(ops, x, l.B, l.T, l.C, l.NH, unit, gap);
    var q, row, i := PlaceOf(l, u), AK.UnitOut(ops, x, u, l.T, l.C, l.NH), c - OutStart(unit, l.T, l.C, l.NH);
    assert m[q.out + i] == m[q.out..q.out + hs][i] == row[i];
    B.RowCell(row, T.Attention(ops, x, l.T, l.C, l.NH, gap), l.C, OutStart(unit, l.T, l.C, l.NH), i);
  }

  /** Cell c of the output tensor is in place. */
  ghost predicate AttentionCellAt<F>(ops: Ops<F>, l: Layout, x: seq<Row<F>>, gap: seq<Row<F>>, m: seq<F>, c: nat) {
    && T.Width(x, 3 * l.C) && l.T > 0 && l.NH > 0 && |gap| == |x| && T.Width(gap, l.C) && l.out + c < |m|
    && B.CellIs(m[l.out + c], T.Attention(ops, x, l.T, l.C, l.NH, gap), l.C, c)
  }
}
