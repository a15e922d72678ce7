/** A forward pass always comes to an end: from every memory of the right size there is one,
    and by `ParallelProgress` no loop of it can go on forever. */
module PassExists {
  import opened Options
  import opened Floats
  import opened Activations
  import opened KernelLocality
  import opened ParallelKernels
  import opened ParallelCalls
  import opened ParallelForward
  import AttentionDetermined
  import ParallelProgress
  import T = Transformer

  /** Every call ends. */
  lemma CallEnds<F(!new)>(f: Filler<F>, workers: int, m: seq<F>) returns (m': seq<F>)
    requires f.rows > 0
    ensures Runs(f, workers, m, m')
  {
    var schedule, s := ParallelProgress.ParallelForEnds(StoreKernel(FillStores(f)), 0, f.rows, workers, m);
    assert Finishes(f, workers, m, schedule, s);
    m' := s.mem;
  }

  /** There is work for every call. */
  lemma SomeRows(z: Dims, C: nat)
    requires DimsOk(z) && C > 0
    ensures z.B * z.T > 0 && z.B * z.T * C > 0
  {
  }

  lemma AttendEnds<F(!new)>(ops: Ops<F>, z: Dims, workers: int, w: T.Layer<F>, l: nat, m: seq<F>) returns (ms: seq<seq<F>>)
    requires DimsOk(z) && l < z.L
    ensures AttendRun(ops, z, workers, w, l, ms) && ms[0] == m
  {
    hide Runs, RunsAttention, At, Stretch;
    SomeRows(z, z.C);
    SomeRows(z, 3 * z.C);
    var m1 := CallEnds(NormOf(ops, z, ResidualOfLayer(l), Tensor(LN1, l), Tensor(LN1_MEAN, l), Tensor(LN1_RSTD, l), w.ln1w, w.ln1b), workers, m);
    var m2 := CallEnds(MatmulOf(ops, z, Tensor(LN1, l), Tensor(QKV, l), w.qkvw, Some(w.qkvb), z.C, 3 * z.C), workers, m1);
    var m3 := AttentionStepEnds(ops, z, l, workers, m2);
    var m4 := CallEnds(MatmulOf(ops, z, Tensor(ATTY, l), Tensor(ATTPROJ, l), w.attprojw, Some(w.attprojb), z.C, z.C), workers, m3);
    var m5 := CallEnds(ResidualOf(ops, z, ResidualOfLayer(l), Tensor(ATTPROJ, l), Tensor(RESIDUAL2, l)), workers, m4);
    ms := [m, m1, m2, m3, m4, m5];
  }

  lemma AttentionStepEnds<F(!new)>(ops: Ops<F>, z: Dims, l: nat, workers: int, m: seq<F>) returns (m': seq<F>)
    requires DimsOk(z) && l < z.L
    ensures RunsAttention(ops, z, l, workers, m, m')
  {
    AttentionLies(z, l);
    m' := AttentionDetermined.AttentionEnds(ops, LayoutOf(z, l), workers, m);
  }

  lemma FeedEnds<F(!new)>(ops: Ops<F>, z: Dims, workers: int, w: T.Layer<F>, l: nat, m: seq<F>) returns (ms: seq<seq<F>>)
    requires DimsOk(z)
    ensures FeedRun(ops, z, workers, w, l, ms) && ms[0] == m
  {
    hide Runs, At, Stretch;
    SomeRows(z, z.C);
    SomeRows(z, 4 * z.C);
    var m1 := CallEnds(NormOf(ops, z, Tensor(RESIDUAL2, l), Tensor(LN2, l), Tensor(LN2_MEAN, l), Tensor(LN2_RSTD, l), w.ln2w, w.ln2b), workers, m);
    var m2 := CallEnds(MatmulOf(ops, z, Tensor(LN2, l), Tensor(FCH, l), w.fcw, Some(w.fcb), z.C, 4 * z.C), workers, m1);
    var m3 := CallEnds(GeluOf(ops, z, Tensor(FCH, l), Tensor(FCH_GELU, l), 4 * z.C), workers, m2);
    var m4 := CallEnds(MatmulOf(ops, z, Tensor(FCH_GELU, l), Tensor(FCPROJ, l), w.fcprojw, Some(w.fcprojb), 4 * z.C, z.C), workers, m3);
    var m5 := CallEnds(ResidualOf(ops, z, Tensor(RESIDUAL2, l), Tensor(FCPROJ, l), Tensor(RESIDUAL3, l)), workers, m4);
    ms := [m, m1, m2, m3, m4, m5];
  }

  lemma LayerEnds<F(!new)>(ops: Ops<F>, z: Dims, workers: int, w: T.Layer<F>, l: nat, m: seq<F>) returns (ms: seq<seq<F>>)
    requires DimsOk(z) && l < z.L
    ensures LayerRun(ops, z, workers, w, l, ms) && ms[0] == m
  {
    hide Runs, RunsAttention;
    var first := AttendEnds(ops, z, workers, w, l, m);
    var second := FeedEnds(ops, z, workers, w, l, first[5]);
    ms := first + second[1..];
    assert ms[..6] == first && ms[5..] == second;
  }

  lemma HeadEnds<F(!new)>(ops: Ops<F>, z: Dims, workers: int, model: T.Model<F>, m: seq<F>) returns (ms: seq<seq<F>>)
    requires DimsOk(z) && z.L > 0
    ensures HeadRun(ops, z, workers, model, ms) && ms[0] == m
  {
    hide Runs, At, Stretch;
    SomeRows(z, z.V);
    var m1 := CallEnds(NormOf(ops, z, Tensor(RESIDUAL3, z.L - 1), Tensor(LNF, 0), Tensor(LNF_MEAN, 0), Tensor(LNF_RSTD, 0), model.lnfw, model.lnfb), workers, m);
    var m2 := CallEnds(MatmulOf(ops, z, Tensor(LNF, 0), Tensor(LOGITS, 0), model.wte, None, z.C, z.V), workers, m1);
    var m3 := CallEnds(SoftmaxOf(ops, z, Tensor(LOGITS, 0), Tensor(PROBS, 0)), workers, m2);
    ms := [m, m1, m2, m3];
  }

  /** The encoder and the first n layers. */
  ghost predicate FirstLayers<F(!new)>(ops: Ops<F>, z: Dims, workers: int, model: T.Model<F>, tokens: seq<nat>, ms: seq<seq<F>>, n: nat) {
    && |ms| == 2 + 10 * n && n <= |model.layers|
    && Runs(EncoderOf(ops, z, Tensor(ENCODED, 0), model, tokens), workers, ms[0], ms[1])
    && forall l :: 0 <= l < n ==> LayerRun(ops, z, workers, model.layers[l], l, LayerPart(ms, l))
  }

  lemma {:induction false} LayersEnd<F(!new)>(ops: Ops<F>, z: Dims, workers: int, model: T.Model<F>, tokens: seq<nat>, m: seq<F>, n: nat)
      returns (ms: seq<seq<F>>)
    requires DimsOk(z) && n <= z.L == |model.layers| && |tokens| == z.B * z.T
    ensures FirstLayers(ops, z, workers, model, tokens, ms, n) && ms[0] == m
    decreases n
  {
    hide Runs, LayerRun, EncoderOf;
    if n == 0 {
      var m1 := EncoderEnds(ops, z, workers, model, tokens, m);
      ms := [m, m1];
    } else {
      var l := n - 1;
      var before := LayersEnd(ops, z, workers, model, tokens, m, l);
      var part := LayerEnds(ops, z, workers, model.layers[l], l, before[|before| - 1]);
      PartLength(ops, z, workers, model.layers[l], l, part);
      ms := before + part[1..];
      forall k | 0 <= k < n ensures LayerRun(ops, z, workers, model.layers[k], k, LayerPart(ms, k)) {
        if k < l {
          assert LayerPart(ms, k) == LayerPart(before, k);
        } else {
          assert LayerPart(ms, l) == part;
        }
      }
    }
  }

  lemma PartLength<F(!new)>(ops: Ops<F>, z: Dims, workers: int, w: T.Layer<F>, l: nat, ms: seq<seq<F>>)
    requires LayerRun(ops, z, workers, w, l, ms)
    ensures |ms| == 11
  {
  }

  lemma EncoderEnds<F(!new)>(ops: Ops<F>, z: Dims, workers: int, model: T.Model<F>, tokens: seq<nat>, m: seq<F>) returns (m': seq<F>)
    requires DimsOk(z) && |tokens| == z.B * z.T
    ensures Runs(EncoderOf(ops, z, Tensor(ENCODED, 0), model, tokens), workers, m, m')
  {
    SomeRows(z, 1);
    m' := CallEnds(EncoderOf(ops, z, Tensor(ENCODED, 0), model, tokens), workers, m);
  }

  /** From every memory of the right size there is a pass, for every model with a layer. */
  lemma PassEnds<F(!new)>(ops: Ops<F>, z: Dims, workers: int, model: T.Model<F>, tokens: seq<nat>, m: seq<F>) returns (ms: seq<seq<F>>)
    requires T.ModelOk(model) && T.TokensOk(model, tokens, z.T) && Matches(z, model, tokens)
    requires z.B > 0 && z.L > 0 && |m| == Total(z)
    ensures Pass(ops, z, workers, model, tokens, ms) && ms[0] == m
  {
    hide Runs, LayerRun, HeadRun, EncoderOf, Total;
    var first := LayersEnd(ops, z, workers, model, tokens, m, z.L);
    var second := HeadEnds(ops, z, workers, model, first[|first| - 1]);
    HeadLength(ops, z, workers, model, second);
    ms := first + second[1..];
    assert ms[1 + 10 * z.L..] == second;
    forall l | 0 <= l < z.L ensures LayerRun(ops, z, workers, model.layers[l], l, LayerPart(ms, l)) {
      assert LayerPart(ms, l) == LayerPart(first, l);
    }
  }

  lemma HeadLength<F(!new)>(ops: Ops<F>, z: Dims, workers: int, model: T.Model<F>, ms: seq<seq<F>>)
    requires HeadRun(ops, z, workers, model, ms)
    ensures |ms| == 4
  {
  }
}
