/** The generation loop of `main`: token t is sampled from a forward pass over the t tokens
    before it. Causality makes this the same as one pass over the finished sequence. */
module Generation {
  import opened Floats
  import opened Transformer
  import Buffers
  import Causality
  import ForwardPass

  /** The first index at which the running sum passes one half, or the last index. */
  ghost predicate IsSample<F>(ops: Ops<F>, p: Row<F>, r: nat) {
    && r < |p|
    && (forall i :: 0 <= i < r ==> !Passed(ops, p, i))
    && (Passed(ops, p, r) || r == |p| - 1)
  }

  predicate Passed<F>(ops: Ops<F>, p: Row<F>, i: nat) requires i < |p| {
    ops.greater(Sum(ops, ops.zero, p, i + 1), ops.half)
  }

  /** `sample_mult`. */
  method SampleMult<F>(ops: Ops<F>, p: Row<F>) returns (r: nat)
    requires p != []
    ensures IsSample(ops, p, r)
  {
    var cdf := ops.zero;
    for i := 0 to |p|
      invariant cdf == Sum(ops, ops.zero, p, i)
      invariant forall k :: 0 <= k < i ==> !Passed(ops, p, k)
    {
      cdf := ops.add(cdf, p[i]);
      if ops.greater(cdf, ops.half) {
        return i;
      }
    }
    return |p| - 1;
  }

  lemma SampleIsUnique<F>(ops: Ops<F>, p: Row<F>, r: nat, s: nat)
    requires IsSample(ops, p, r) && IsSample(ops, p, s)
    ensures r == s
  {
  }

  /** What memory obtained for pass t holds in the attention outputs: anything. */
  type Memory<!F> = (nat, nat, nat) -> F

  function HeldAt<F>(junk: Memory<F>, t: nat, L: nat, size: nat): (held: seq<seq<F>>)
    ensures |held| == L && forall l :: 0 <= l < L ==> |held[l]| == size
  {
    seq(L, l requires 0 <= l < L => seq(size, i requires 0 <= i < size => junk(t, l, i)))
  }

  ghost function GapsAt<F>(m: Model<F>, junk: Memory<F>, t: nat): (gaps: Gaps<F>) {
    ForwardPass.GapsOf(HeldAt(junk, t, |m.layers|, t * m.config.channels), t, m.config.channels)
  }

  lemma GapsAtOk<F>(m: Model<F>, toks: seq<nat>, junk: Memory<F>)
    requires ModelOk(m) && TokensOk(m, toks, |toks|)
    ensures PassOk(m, toks, |toks|, GapsAt(m, junk, |toks|))
  {
    ForwardPass.GapsFit(m, toks, HeldAt(junk, |toks|, |m.layers|, |toks| * m.config.channels));
  }

  /** Token `next` is the one sampled after a pass over `toks` in memory `junk`. */
  ghost predicate Follows<F>(ops: Ops<F>, m: Model<F>, toks: seq<nat>, junk: Memory<F>, next: nat) {
    && toks != [] && ModelOk(m) && TokensOk(m, toks, |toks|)
    && (GapsAtOk(m, toks, junk);
        IsSample(ops, Probs(ops, m, toks, |toks|, GapsAt(m, junk, |toks|))[|toks| - 1], next))
  }

  /** Every token from `given` on follows from those before it, in the memory of its pass. */
  ghost predicate Followed<F>(ops: Ops<F>, m: Model<F>, toks: seq<nat>, junk: Memory<F>, given: nat) {
    forall s :: given <= s < |toks| ==> FollowsAt(ops, m, toks, junk, s)
  }

  ghost predicate FollowsAt<F>(ops: Ops<F>, m: Model<F>, toks: seq<nat>, junk: Memory<F>, s: int) {
    0 <= s < |toks| && Follows(ops, m, toks[..s], junk, toks[s])
  }

  lemma FollowedMore<F>(ops: Ops<F>, m: Model<F>, toks: seq<nat>, junk: Memory<F>, given: nat, next: nat)
    requires Followed(ops, m, toks, junk, given) && Follows(ops, m, toks, junk, next)
    ensures Followed(ops, m, toks + [next], junk, given)
  {
    hide Follows;
    var longer := toks + [next];
    forall s | given <= s < |longer| ensures FollowsAt(ops, m, longer, junk, s) {
      assert longer[..s] == toks[..s];
      if s < |toks| {
        assert FollowsAt(ops, m, toks, junk, s);
      } else {
        assert toks[..s] == toks;
      }
    }
  }

  /** The loop of `main`: a forward pass over the first t tokens in fresh memory, then token t.
      Every generated token is the one sampled from the pass over those before it. */
  method Generate<F>(ops: Ops<F>, m: Model<F>, tokens: array<nat>, given: nat, junk: Memory<F>)
    requires ModelOk(m) && |m.layers| > 0
    requires 1 <= given <= tokens.Length && tokens.Length * m.config.channels <= |m.wpe|
    requires forall i :: 0 <= i < given ==> tokens[i] < m.config.vocab
    modifies tokens
    ensures tokens[..given] == old(tokens[..given])
    ensures forall i :: 0 <= i < tokens.Length ==> tokens[i] < m.config.vocab
    ensures Followed(ops, m, tokens[..], junk, given)
  {
    hide ModelOk, Follows;
    for t := given to tokens.Length
      invariant tokens[..given] == old(tokens[..given])
      invariant forall i :: 0 <= i < t ==> tokens[i] < m.config.vocab
      invariant Followed(ops, m, tokens[..t], junk, given)
    {
      ghost var toks := tokens[..t];
      Fits(m, t, tokens.Length);
      var next := NextToken(ops, m, tokens[..t], junk);
      FollowedMore(ops, m, toks, junk, given, next);
      tokens[t] := next;
      assert tokens[..t + 1] == toks + [next];
      assert tokens[..given] == toks[..given];
    }
    assert tokens[..] == tokens[..tokens.Length];
  }

  /** A pass, and the token sampled from its last row. */
  method NextToken<F>(ops: Ops<F>, m: Model<F>, toks: seq<nat>, junk: Memory<F>) returns (next: nat)
    requires ModelOk(m) && |m.layers| > 0 && toks != [] && TokensOk(m, toks, |toks|)
    ensures Follows(ops, m, toks, junk, next) && next < m.config.vocab
  {
    hide Probs, Logits, Buffers.Holds, ForwardPass.GapsOf, IsSample;
    var t, V := |toks|, m.config.vocab;
    var held := HeldAt(junk, t, |m.layers|, t * m.config.channels);
    var logits, probs := ForwardPass.Forward(ops, m, toks, 1, t, held);
    ghost var y := Probs(ops, m, toks, t, GapsAt(m, junk, t));
    Buffers.RowAt(probs, y, V, t - 1);
    var row := Slice(probs, t - 1, V);
    next := SampleMult(ops, row);
    SampleInRange(ops, row, next);
  }

  lemma Fits<F>(m: Model<F>, t: nat, n: nat)
    requires t <= n && n * m.config.channels <= |m.wpe|
    ensures t * m.config.channels <= |m.wpe|
  {
    assert (n - t) * m.config.channels >= 0;
  }

  lemma SampleInRange<F>(ops: Ops<F>, p: Row<F>, r: nat)
    requires IsSample(ops, p, r)
    ensures r < |p|
  {
  }

  // ----- generation is one pass over its result -----

  /** What the memories of two passes held agrees on positions 0..p in columns of no head. */
  ghost predicate SameHeld<F>(m: Model<F>, n: nat, gaps: Gaps<F>, n': nat, gaps': Gaps<F>, p: nat) {
    && m.config.heads > 0 && |gaps| == |gaps'| && Causality.GapsAgree(m, n, gaps, n', gaps', 0, p)
  }

  /** Where the head count divides the channels, there are no such columns. */
  lemma DividedSameHeld<F>(m: Model<F>, n: nat, gaps: Gaps<F>, n': nat, gaps': Gaps<F>, p: nat)
    requires m.config.heads > 0 && m.config.channels % m.config.heads == 0 && |gaps| == |gaps'|
    ensures SameHeld(m, n, gaps, n', gaps', p)
  {
    Causality.DividedGapsAgree(m, n, gaps, n', gaps', 0, p);
  }

  /** The row a token is sampled from is the same in every longer sequence. */
  lemma RowOfPrefix<F>(ops: Ops<F>, m: Model<F>, short: seq<nat>, gaps: Gaps<F>, long: seq<nat>, gaps': Gaps<F>, p: nat)
    requires PassOk(m, short, |short|, gaps) && PassOk(m, long, |long|, gaps')
    requires SameHeld(m, |short|, gaps, |long|, gaps', p)
    requires p < |short| && p < |long| && short[..p + 1] == long[..p + 1]
    ensures Probs(ops, m, short, |short|, gaps)[p] == Probs(ops, m, long, |long|, gaps')[p]
  {
    hide Probs, Logits, ModelOk, Causality.GapsAgree;
    assert Causality.SameTokens(short, |short|, long, |long|, 0, p) by {
      forall t | 0 <= t <= p
        ensures Causality.SameToken(short, 0 * |short|, long, 0 * |long|, t)
      {
        assert short[t] == short[..p + 1][t] == long[..p + 1][t] == long[t];
      }
    }
    Causality.ForwardIsCausal(ops, m, short, |short|, gaps, long, |long|, gaps', 0, p);
  }

  /** Token s is the one sampled after a single pass over the whole of `toks`. */
  ghost predicate SampledAt<F>(ops: Ops<F>, m: Model<F>, toks: seq<nat>, gaps: Gaps<F>, s: int)
    requires PassOk(m, toks, |toks|, gaps)
  {
    1 <= s < |toks| && IsSample(ops, Probs(ops, m, toks, |toks|, gaps)[s - 1], toks[s])
  }

  /** One pass over the finished sequence confirms every token from `given` on. */
  ghost predicate Generated<F>(ops: Ops<F>, m: Model<F>, toks: seq<nat>, gaps: Gaps<F>, given: nat) {
    && PassOk(m, toks, |toks|, gaps)
    && forall s :: given <= s < |toks| ==> SampledAt(ops, m, toks, gaps, s)
  }

  /** The memory of each pass that generated a token held what that of the one pass did, in
      columns of no head. */
  ghost predicate PassesAgree<F>(m: Model<F>, toks: seq<nat>, junk: Memory<F>, gaps: Gaps<F>, given: nat) {
    forall s :: given <= s < |toks| ==> StepAgrees(m, toks, junk, gaps, s)
  }

  ghost predicate StepAgrees<F>(m: Model<F>, toks: seq<nat>, junk: Memory<F>, gaps: Gaps<F>, s: int) {
    s >= 1 && SameHeld(m, s, GapsAt(m, junk, s), |toks|, gaps, s - 1)
  }

  /** Where the head count divides the channels, passes in any memories agree. */
  lemma DividedPassesAgree<F>(m: Model<F>, toks: seq<nat>, junk: Memory<F>, gaps: Gaps<F>, given: nat)
    requires PassOk(m, toks, |toks|, gaps) && 1 <= given
    requires m.config.channels % m.config.heads == 0
    ensures PassesAgree(m, toks, junk, gaps, given)
  {
    hide SameHeld;
    forall s | given <= s < |toks| ensures StepAgrees(m, toks, junk, gaps, s) {
      DividedSameHeld(m, s, GapsAt(m, junk, s), |toks|, gaps, s - 1);
    }
  }

  /** Token by token generation is one pass over its result: a single pass over the finished
      sequence selects each generated token at its place, and conversely. */
  lemma GenerationIsOnePass<F>(ops: Ops<F>, m: Model<F>, toks: seq<nat>, junk: Memory<F>, gaps: Gaps<F>, given: nat)
    requires PassOk(m, toks, |toks|, gaps) && 1 <= given && PassesAgree(m, toks, junk, gaps, given)
    ensures Followed(ops, m, toks, junk, given) <==> Generated(ops, m, toks, gaps, given)
  {
    hide Follows, IsSample, Probs, StepAgrees;
    forall s | given <= s < |toks| ensures FollowsAt(ops, m, toks, junk, s) <==> SampledAt(ops, m, toks, gaps, s) {
      StepIsPass(ops, m, toks, junk, gaps, s);
    }
  }

  lemma StepIsPass<F>(ops: Ops<F>, m: Model<F>, toks: seq<nat>, junk: Memory<F>, gaps: Gaps<F>, s: nat)
    requires PassOk(m, toks, |toks|, gaps) && 1 <= s < |toks| && StepAgrees(m, toks, junk, gaps, s)
    ensures FollowsAt(ops, m, toks, junk, s) <==> SampledAt(ops, m, toks, gaps, s)
  {
    hide IsSample, Probs, ModelOk, GapsAt, SameHeld;
    var short := toks[..s];
    Fits(m, s, |toks|);
    GapsAtOk(m, short, junk);
    assert short[..s] == toks[..s];
    RowOfPrefix(ops, m, short, GapsAt(m, junk, s), toks, gaps, s - 1);
  }

  /** The prompt determines everything that follows: any two sequences that a pass confirms token
      by token are equal as far as both go. */
  lemma {:induction false} GenerationIsDetermined<F>(ops: Ops<F>, m: Model<F>, a: seq<nat>, gaps: Gaps<F>,
                                                     c: seq<nat>, gaps': Gaps<F>, given: nat, n: nat)
    requires Generated(ops, m, a, gaps, given) && Generated(ops, m, c, gaps', given)
    requires 1 <= given <= n <= |a| && n <= |c| && a[..given] == c[..given]
    requires n >= 2 ==> SameHeld(m, |a|, gaps, |c|, gaps', n - 2)
    ensures a[..n] == c[..n]
    decreases n
  {
    hide ModelOk, Probs, IsSample, Causality.GapsAgree;
    if n > given {
      if n > 2 {
        Causality.GapsAgreeBefore(m, |a|, gaps, |c|, gaps', 0, n - 2, n - 3);
      }
      GenerationIsDetermined(ops, m, a, gaps, c, gaps', given, n - 1);
      RowOfPrefix(ops, m, a, gaps, c, gaps', n - 2);
      assert SampledAt(ops, m, a, gaps, n - 1) && SampledAt(ops, m, c, gaps', n - 1);
      SampleIsUnique(ops, Probs(ops, m, a, |a|, gaps)[n - 2], a[n - 1], c[n - 1]);
      assert a[..n] == a[..n - 1] + [a[n - 1]] && c[..n] == c[..n - 1] + [c[n - 1]];
    }
  }
}
