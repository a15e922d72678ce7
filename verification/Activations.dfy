/** The activation tensors of the forward pass in one block of memory, kind after kind and
    within a kind layer after layer. */
module Activations {
  import opened KernelLocality
  import opened ParallelKernels
  import Indexing

  datatype Dims = Dims(B: nat, T: nat, C: nat, NH: nat, V: nat, L: nat)

  function RowCount(z: Dims): nat { z.B * z.T }

  /** A tensor of one layer; kinds that exist once have layer 0. */
  datatype Tensor = Tensor(kind: nat, layer: nat)

  const ENCODED := 0
  const LN1 := 1
  const LN1_MEAN := 2
  const LN1_RSTD := 3
  const QKV := 4
  const ATTY := 5
  const PREATT := 6
  const ATT := 7
  const ATTPROJ := 8
  const RESIDUAL2 := 9
  const LN2 := 10
  const LN2_MEAN := 11
  const LN2_RSTD := 12
  const FCH := 13
  const FCH_GELU := 14
  const FCPROJ := 15
  const RESIDUAL3 := 16
  const LNF := 17
  const LNF_MEAN := 18
  const LNF_RSTD := 19
  const LOGITS := 20
  const PROBS := 21
  const LOSSES := 22
  const KINDS := 23

  /** Cells of one tensor. */
  function Size(z: Dims, kind: nat): nat {
    var rows := z.B * z.T;
    if kind == QKV then rows * (3 * z.C)
    else if kind == PREATT || kind == ATT then z.B * z.NH * z.T * z.T
    else if kind == FCH || kind == FCH_GELU then rows * (4 * z.C)
    else if kind == LOGITS || kind == PROBS then rows * z.V
    else if kind in {LN1_MEAN, LN1_RSTD, LN2_MEAN, LN2_RSTD, LNF_MEAN, LNF_RSTD, LOSSES} then rows
    else rows * z.C
  }

  function Layers(z: Dims, kind: nat): nat {
    if LN1 <= kind <= RESIDUAL3 then z.L else 1
  }

  function Start(z: Dims, kind: nat): nat {
    if kind == 0 then 0 else Start(z, kind - 1) + Layers(z, kind - 1) * Size(z, kind - 1)
  }

  function Total(z: Dims): nat { Start(z, KINDS) }

  predicate Valid(z: Dims, t: Tensor) {
    t.kind < KINDS && t.layer < Layers(z, t.kind)
  }

  function At(z: Dims, t: Tensor): nat {
    Start(z, t.kind) + t.layer * Size(z, t.kind)
  }

  lemma {:induction false} StartsAscend(z: Dims, k: nat, k': nat)
    requires k < k'
    ensures Start(z, k) + Layers(z, k) * Size(z, k) <= Start(z, k')
    decreases k'
  {
    hide Size, Layers;
    if k + 1 < k' {
      StartsAscend(z, k, k' - 1);
    }
  }

  lemma InsideKind(z: Dims, t: Tensor)
    requires Valid(z, t)
    ensures Start(z, t.kind) <= At(z, t)
    ensures At(z, t) + Size(z, t.kind) <= Start(z, t.kind) + Layers(z, t.kind) * Size(z, t.kind)
  {
    hide Start, Size, Layers;
    Indexing.MulMono(t.layer + 1, Layers(z, t.kind), Size(z, t.kind));
    Indexing.NextRow(t.layer, Size(z, t.kind));
  }

  /** Every tensor lies inside the block. */
  lemma InsideTotal(z: Dims, t: Tensor)
    requires Valid(z, t)
    ensures At(z, t) + Size(z, t.kind) <= Total(z)
  {
    hide Size, Layers;
    InsideKind(z, t);
    StartsAscend(z, t.kind, KINDS);
  }

  /** Different tensors do not overlap. */
  lemma TensorsApart(z: Dims, t: Tensor, t': Tensor)
    requires Valid(z, t) && Valid(z, t') && t != t'
    ensures Before(At(z, t), Size(z, t.kind), At(z, t'), Size(z, t'.kind))
  {
    hide Start, Size, Layers;
    InsideKind(z, t);
    InsideKind(z, t');
    if t.kind < t'.kind {
      StartsAscend(z, t.kind, t'.kind);
    } else if t'.kind < t.kind {
      StartsAscend(z, t'.kind, t.kind);
    } else if t.layer < t'.layer {
      Indexing.MulMono(t.layer + 1, t'.layer, Size(z, t.kind));
      Indexing.NextRow(t.layer, Size(z, t.kind));
    } else {
      Indexing.MulMono(t'.layer + 1, t.layer, Size(z, t.kind));
      Indexing.NextRow(t'.layer, Size(z, t.kind));
    }
  }

  // ----- what a call leaves alone -----

  predicate InTensor(z: Dims, t: Tensor, c: nat) { InStretch(c, At(z, t), Size(z, t.kind)) }

  ghost predicate InSome(z: Dims, outs: set<Tensor>, c: nat) {
    exists t :: t in outs && InTensor(z, t, c)
  }

  /** Cells outside the tensors `outs` are as they were. */
  ghost predicate Wrote<F>(z: Dims, outs: set<Tensor>, m: seq<F>, m': seq<F>) {
    |m'| == |m| == Total(z) && forall c :: 0 <= c < |m| && !InSome(z, outs, c) ==> m'[c] == m[c]
  }

  /** A tensor that is not written keeps its contents. */
  lemma TensorKept<F>(z: Dims, outs: set<Tensor>, m: seq<F>, m': seq<F>, t: Tensor)
    requires Wrote(z, outs, m, m') && Valid(z, t) && t !in outs && (forall o :: o in outs ==> Valid(z, o))
    ensures At(z, t) + Size(z, t.kind) <= |m|
    ensures m'[At(z, t)..At(z, t) + Size(z, t.kind)] == m[At(z, t)..At(z, t) + Size(z, t.kind)]
  {
    hide At, Size, Total, Valid;
    InsideTotal(z, t);
    var a, n := At(z, t), Size(z, t.kind);
    var x, y := m'[a..a + n], m[a..a + n];
    forall j | 0 <= j < n ensures x[j] == y[j] {
      if InSome(z, outs, a + j) {
        var o :| o in outs && InTensor(z, o, a + j);
        TensorsApart(z, o, t);
        assert false;
      }
    }
  }

  /** What a filler writes, if its cells lie in `outs`. */
  lemma FillerWrote<F>(f: Filler<F>, z: Dims, outs: set<Tensor>, m: seq<F>, m': seq<F>)
    requires OnlyCells(f, m, m') && |m| == Total(z)
    requires forall i, j: nat :: IsCell(f, i, j) ==> InSome(z, outs, f.target(i, j))
    ensures Wrote(z, outs, m, m')
  {
    hide InSome, Total;
  }
}
