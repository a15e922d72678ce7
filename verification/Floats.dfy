/** Floating point left uninterpreted: a type with operations and constants about which
    nothing is assumed, and the left-to-right folds the kernels accumulate with. */
module Floats {

  datatype Ops<!F> = Ops(
    zero: F, one: F, half: F, lowest: F, epsilon: F, geluCube: F, geluScale: F,
    add: (F, F) -> F, sub: (F, F) -> F, mul: (F, F) -> F, div: (F, F) -> F,
    greater: (F, F) -> bool, isZero: F -> bool,
    sqrt: F -> F, exp: F -> F, tanh: F -> F, ofInt: int -> F)

  type Row<F> = seq<F>

  /** Sum of x[0..n], added to `acc` from the left. */
  function Sum<F>(ops: Ops<F>, acc: F, x: Row<F>, n: nat): F
    requires n <= |x|
  {
    if n == 0 then acc else ops.add(Sum(ops, acc, x, n - 1), x[n - 1])
  }

  /** Sum of x[i] * w[i] for i below n, added to `acc` from the left. */
  function Dot<F>(ops: Ops<F>, acc: F, x: Row<F>, w: Row<F>, n: nat): F
    requires n <= |x| && n <= |w|
  {
    if n == 0 then acc else ops.add(Dot(ops, acc, x, w, n - 1), ops.mul(x[n - 1], w[n - 1]))
  }

  /** Sum of (x[i] - m)^2 for i below n. */
  function SquareSum<F>(ops: Ops<F>, m: F, x: Row<F>, n: nat): F
    requires n <= |x|
  {
    if n == 0 then ops.zero
    else
      var shift := ops.sub(x[n - 1], m);
      ops.add(SquareSum(ops, m, x, n - 1), ops.mul(shift, shift))
  }

  /** The running maximum of x[0..n], starting from the constant the kernels use. */
  function Max<F>(ops: Ops<F>, x: Row<F>, n: nat): F
    requires n <= |x|
  {
    if n == 0 then ops.lowest
    else
      var m := Max(ops, x, n - 1);
      if ops.greater(x[n - 1], m) then x[n - 1] else m
  }

  /** `greater` is a strict weak order, as the comparison of numbers is. */
  ghost predicate Orders<F(!new)>(ops: Ops<F>) {
    && (forall a :: !ops.greater(a, a))
    && (forall a, b, c :: ops.greater(a, b) && ops.greater(b, c) ==> ops.greater(a, c))
    && (forall a, b, c :: !ops.greater(a, b) && !ops.greater(b, c) ==> !ops.greater(a, c))
  }

  lemma Asymmetric<F(!new)>(ops: Ops<F>, a: F, b: F)
    requires Orders(ops)
    ensures ops.greater(a, b) ==> !ops.greater(b, a)
    ensures !ops.greater(a, a)
  {
  }

  /** The running maximum is no less than the constant and any element, and is one of them. */
  lemma {:induction false} MaxIsGreatest<F(!new)>(ops: Ops<F>, x: Row<F>, n: nat)
    requires Orders(ops) && n <= |x|
    ensures !ops.greater(ops.lowest, Max(ops, x, n))
    ensures forall i :: 0 <= i < n ==> !ops.greater(x[i], Max(ops, x, n))
    ensures Max(ops, x, n) == ops.lowest || Max(ops, x, n) in x[..n]
    decreases n
  {
    if n > 0 {
      MaxIsGreatest(ops, x, n - 1);
      var m, m' := Max(ops, x, n - 1), Max(ops, x, n);
      Asymmetric(ops, x[n - 1], m);
      forall i | 0 <= i < n ensures !ops.greater(x[i], m') {
        if i < n - 1 {
          assert !ops.greater(x[i], m) && !ops.greater(m, m');
        }
      }
      assert x[n - 1] in x[..n];
      assert m in x[..n - 1] ==> m in x[..n];
    }
  }
}
