/** When the output of attention is a function of its input: exactly if every column belongs to
    a head. Otherwise what memory held shows through. */
module AttentionDetermined {
  import opened Floats
  import opened KernelLocality
  import opened AttentionParallel
  import Causality
  import ParallelProgress
  import PR = ParallelRuns
  import Tr = Transformer
  import B = Buffers

  /** `parallel_for` over the units may take memory m to m'. */
  ghost predicate AttentionRuns<F(!new)>(ops: Ops<F>, l: Layout, workers: int, m: seq<F>, m': seq<F>) {
    && l.T > 0 && l.NH > 0 && Units(l) > 0
    && exists schedule, s: PR.State<F> :: AttentionRun(ops, l, workers, m, schedule, s) && s.mem == m'
  }

  ghost predicate AttentionRun<F>(ops: Ops<F>, l: Layout, workers: int, m: seq<F>, schedule: seq<nat>, s: PR.State<F>)
    requires l.T > 0 && l.NH > 0 && Units(l) > 0
  {
    var slices := PR.SlicesFor(0, Units(l), workers);
    && PR.Runs(StoreKernel(AttentionStores(ops, l)), slices, PR.State(m, PR.Begin(slices), []), schedule, s)
    && PR.Finished(slices, s)
  }

  lemma AttentionEnds<F(!new)>(ops: Ops<F>, l: Layout, workers: int, m: seq<F>) returns (m': seq<F>)
    requires l.T > 0 && l.NH > 0 && Units(l) > 0
    ensures AttentionRuns(ops, l, workers, m, m')
  {
    var schedule, s := ParallelProgress.ParallelForEnds(StoreKernel(AttentionStores(ops, l)), 0, Units(l), workers, m);
    assert AttentionRun(ops, l, workers, m, schedule, s);
    m' := s.mem;
  }

  function OutputAt<F>(m: seq<F>, l: Layout): seq<F> {
    if l.out + OutSize(l) <= |m| then m[l.out..l.out + OutSize(l)] else []
  }

  /** Two finished runs on memories of the same size with the same input have the same output. */
  ghost predicate SameOutput<F(!new)>(ops: Ops<F>, l: Layout, workers: int, m: seq<F>, m': seq<F>, n: seq<F>, n': seq<F>) {
    && AttentionRuns(ops, l, workers, m, m') && AttentionRuns(ops, l, workers, n, n')
    && |m| == |n| && InMemory(l, |m|) && InputAt(m, l) == InputAt(n, l)
    ==> OutputAt(m', l) == OutputAt(n', l)
  }

  ghost predicate Determined<F(!new)>(ops: Ops<F>, l: Layout, workers: int) {
    forall m, m', n, n' :: SameOutput(ops, l, workers, m, m', n, n')
  }

  /** Where heads divide the channels, what the tensor held does not matter. */
  lemma GapIrrelevant<F>(ops: Ops<F>, x: seq<Row<F>>, T: nat, C: nat, NH: nat, gap: seq<Row<F>>, gap': seq<Row<F>>)
    requires Tr.Width(x, 3 * C) && T > 0 && NH > 0 && C % NH == 0
    requires |gap| == |gap'| == |x| && Tr.Width(gap, C) && Tr.Width(gap', C)
    ensures Tr.Attention(ops, x, T, C, NH, gap) == Tr.Attention(ops, x, T, C, NH, gap')
  {
    hide Tr.Attention;
    var y, y' := Tr.Attention(ops, x, T, C, NH, gap), Tr.Attention(ops, x, T, C, NH, gap');
    forall r | 0 <= r < |x| ensures y[r] == y'[r] {
      Causality.DividedGapAgree(C, NH, gap, r, gap', r, 0);
      assert Causality.SameGapAt(C, NH, gap, r, gap', r, 0);
      Causality.AttentionOfHistory(ops, x, r, T, x, r, T, C, NH, gap, gap');
    }
  }

  lemma HoldsUnique<F>(s: seq<F>, s': seq<F>, y: seq<Row<F>>, C: nat)
    requires B.Holds(s, y, C) && B.Holds(s', y, C)
    ensures s == s'
  {
    forall j | 0 <= j < |s| ensures s[j] == s'[j] {
      assert B.CellIs(s[j], y, C, j) && B.CellIs(s'[j], y, C, j);
    }
  }

  lemma DividedIsDetermined<F(!new)>(ops: Ops<F>, l: Layout, workers: int, m: seq<F>, m': seq<F>, n: seq<F>, n': seq<F>)
    requires LayoutOk(l) && l.C > 0 && l.C % l.NH == 0
    ensures SameOutput(ops, l, workers, m, m', n, n')
  {
    hide AttentionRun, LayoutOk, AttentionAt;
    if AttentionRuns(ops, l, workers, m, m') && AttentionRuns(ops, l, workers, n, n')
       && |m| == |n| && InMemory(l, |m|) && InputAt(m, l) == InputAt(n, l) {
      var x := B.RowsOf(InputAt(m, l), l.B * l.T, 3 * l.C);
      Leaves(ops, l, workers, m, m', x);
      Leaves(ops, l, workers, n, n', x);
      SameTensor(ops, l, x, GapAt(m, l), m', GapAt(n, l), n');
    }
  }

  lemma Leaves<F(!new)>(ops: Ops<F>, l: Layout, workers: int, m: seq<F>, m': seq<F>, x: seq<Row<F>>)
    requires LayoutOk(l) && l.C > 0 && InMemory(l, |m|) && AttentionRuns(ops, l, workers, m, m')
    requires x == B.RowsOf(InputAt(m, l), l.B * l.T, 3 * l.C)
    ensures AttentionAt(ops, l, x, GapAt(m, l), m')
  {
    hide LayoutOk, AttentionAt, B.Holds, PR.Runs, PR.Finished, UnitDone, B.RowsOf;
    var schedule, s: PR.State<F> :| AttentionRun(ops, l, workers, m, schedule, s) && s.mem == m';
    B.RowsHold(InputAt(m, l), l.B * l.T, 3 * l.C);
    AttentionTensorInParallel(ops, l, x, workers, m, schedule, s);
  }

  lemma SameTensor<F>(ops: Ops<F>, l: Layout, x: seq<Row<F>>, gap: seq<Row<F>>, m: seq<F>, gap': seq<Row<F>>, n: seq<F>)
    requires l.NH > 0 && l.C % l.NH == 0 && |x| == l.B * l.T
    requires AttentionAt(ops, l, x, gap, m) && AttentionAt(ops, l, x, gap', n)
    ensures OutputAt(m, l) == OutputAt(n, l)
  {
    hide Tr.Attention, B.Holds;
    GapIrrelevant(ops, x, l.T, l.C, l.NH, gap, gap');
    HoldsUnique(OutputAt(m, l), OutputAt(n, l), Tr.Attention(ops, x, l.T, l.C, l.NH, gap), l.C);
  }

  lemma UndividedShowsMemory<F(!new)>(ops: Ops<F>, l: Layout, workers: int, size: nat, a: F, b: F)
      returns (m: seq<F>, m': seq<F>, n: seq<F>, n': seq<F>)
    requires LayoutOk(l) && l.B > 0 && l.C > 0 && Units(l) > 0 && InMemory(l, size) && a != b && l.C % l.NH != 0
    ensures !SameOutput(ops, l, workers, m, m', n, n')
  {
    hide OwnedCell, LayoutOk, InMemory, InOut, AttentionRuns, InputAt, OutputAt, Units;
    var c := UnownedCell(l);
    m := seq(size, _ => a);
    OutsideInput(l, m, c, b);
    n := m[c := b];
    m' := AttentionEnds(ops, l, workers, m);
    n' := AttentionEnds(ops, l, workers, n);
    CellKept(ops, l, workers, m, m', c);
    CellKept(ops, l, workers, n, n', c);
    OutputCell(l, m', c);
    OutputCell(l, n', c);
  }

  lemma UnownedCell(l: Layout) returns (c: nat)
    requires LayoutOk(l) && l.B > 0 && l.C > 0 && l.C % l.NH != 0
    ensures l.T > 0 && l.NH > 0 && InOut(l, c) && !OwnedCell(l, c)
  {
    hide OwnedCell;
    OutOwnedIff(l);
    c :| InOut(l, c) && !OwnedCell(l, c);
  }

  lemma OutputCell<F>(l: Layout, m: seq<F>, c: nat)
    requires InMemory(l, |m|) && InOut(l, c)
    ensures c - l.out < |OutputAt(m, l)| && OutputAt(m, l)[c - l.out] == m[c]
  {
  }

  lemma CellKept<F(!new)>(ops: Ops<F>, l: Layout, workers: int, m: seq<F>, m': seq<F>, c: nat)
    requires LayoutOk(l) && AttentionRuns(ops, l, workers, m, m') && c < |m| && !OwnedCell(l, c)
    ensures |m'| == |m| && m'[c] == m[c]
  {
    hide LayoutOk, OwnedCell, PR.Runs, PR.Finished;
    var schedule, s: PR.State<F> :| AttentionRun(ops, l, workers, m, schedule, s) && s.mem == m';
    StoresAttention(ops, l);
    UnownedCellKept(AttentionStores(ops, l), l, workers, m, schedule, s, c);
  }

  lemma OutsideInput<F>(l: Layout, m: seq<F>, c: nat, b: F)
    requires LayoutOk(l) && InMemory(l, |m|) && InOut(l, c)
    ensures l.out <= c < |m| && InputAt(m[c := b], l) == InputAt(m, l)
  {
  }

  /** The output of `attention_forward` is determined by its input, for every worker count and
      every interleaving, if and only if the head count divides the channels. */
  lemma DeterminedIff<F(!new)>(ops: Ops<F>, l: Layout, workers: int, size: nat, a: F, b: F)
    requires LayoutOk(l) && l.B > 0 && l.C > 0 && Units(l) > 0 && InMemory(l, size) && a != b
    ensures Determined(ops, l, workers) <==> l.C % l.NH == 0
  {
    hide SameOutput, LayoutOk, InMemory;
    if l.C % l.NH == 0 {
      forall m, m', n, n' ensures SameOutput(ops, l, workers, m, m', n, n') {
        DividedIsDetermined(ops, l, workers, m, m', n, n');
      }
    } else {
      var m, m', n, n' := UndividedShowsMemory(ops, l, workers, size, a, b);
    }
  }
}
