/** Sums, products and bounds over sequences of reals. Reals stand for Python floats; rounding is
    outside the model. The truncation that the programs themselves apply to an amount is modelled, with
    Python's rule for negative numbers, as is taking the smaller or the greater of two numbers, which
    several components need. */
module RealMath {

  function Min(a: real, b: real): real { if a <= b then a else b }

  function Max(a: real, b: real): real { if a >= b then a else b }

  function MinInt(a: int, b: int): int { if a <= b then a else b }

  function MaxInt(a: int, b: int): int { if a >= b then a else b }

  /** Python's `int(x)`: truncation towards zero. */
  function Truncate(x: real): int {
    if x >= 0.0 then x.Floor else -((-x).Floor)
  }

  /** What the model relies on about `** 0.5` and `math.sqrt`. */
  ghost predicate SquareRoot(root: real -> real) {
    forall x: real :: x >= 0.0 ==> root(x) >= 0.0 && root(x) * root(x) == x
  }

  function Sum(xs: seq<real>): real {
    if xs == [] then 0.0 else xs[0] + Sum(xs[1..])
  }

  /** Pointwise product. */
  function Times(xs: seq<real>, ys: seq<real>): (ps: seq<real>)
    requires |xs| == |ys|
    ensures |ps| == |xs|
  {
    seq(|xs|, i requires 0 <= i < |xs| => xs[i] * ys[i])
  }

  lemma TimesAt(xs: seq<real>, ys: seq<real>, i: nat)
    requires i < |xs| == |ys|
    ensures Times(xs, ys)[i] == xs[i] * ys[i]
  {
  }

  /** The elements measured from `m`. */
  function Shifted(xs: seq<real>, m: real): (ys: seq<real>)
    ensures |ys| == |xs| && forall i :: 0 <= i < |xs| ==> ys[i] == xs[i] - m
  {
    seq(|xs|, i requires 0 <= i < |xs| => xs[i] - m)
  }

  function Scaled(t: real, xs: seq<real>): (ps: seq<real>)
    ensures |ps| == |xs|
  {
    if xs == [] then [] else [t * xs[0]] + Scaled(t, xs[1..])
  }

  lemma {:induction false} ScaledAt(t: real, xs: seq<real>, i: nat)
    requires i < |xs|
    ensures Scaled(t, xs)[i] == t * xs[i]
  {
    if i > 0 { ScaledAt(t, xs[1..], i - 1); }
  }

  function Dot(xs: seq<real>, ys: seq<real>): real
    requires |xs| == |ys|
  {
    Sum(Times(xs, ys))
  }

  lemma {:induction false} SumNonNegative(xs: seq<real>)
    requires forall i :: 0 <= i < |xs| ==> xs[i] >= 0.0
    ensures Sum(xs) >= 0.0
  {
    if xs != [] { SumNonNegative(xs[1..]); }
  }

  lemma {:induction false} SumScaled(t: real, xs: seq<real>)
    ensures Sum(Scaled(t, xs)) == t * Sum(xs)
  {
    if xs == [] {
      TimesZero(t, Sum(xs));
    } else {
      SumScaled(t, xs[1..]);
      Distribute(t, xs[0], Sum(xs[1..]), Sum(xs));
    }
  }

  lemma TimesZero(t: real, z: real)
    requires z == 0.0
    ensures t * z == 0.0
  {
  }

  lemma SameProduct(t: real, x: real, y: real)
    requires x == y
    ensures t * x == t * y
  {
  }

  lemma Distribute(t: real, x: real, y: real, z: real)
    requires z == x + y
    ensures t * z == t * x + t * y
  {
  }

  lemma {:induction false} SumPointwise(p: seq<real>, q: seq<real>, u: seq<real>)
    requires |p| == |q| == |u|
    requires forall i :: 0 <= i < |p| ==> p[i] == q[i] + u[i]
    ensures Sum(p) == Sum(q) + Sum(u)
  {
    if p != [] { SumPointwise(p[1..], q[1..], u[1..]); }
  }

  lemma {:induction false} SumMonotone(p: seq<real>, q: seq<real>)
    requires |p| == |q| && forall i :: 0 <= i < |p| ==> p[i] <= q[i]
    ensures Sum(p) <= Sum(q)
    ensures Sum(p) == Sum(q) ==> p == q
  {
    if p != [] {
      SumMonotone(p[1..], q[1..]);
      assert p == [p[0]] + p[1..] && q == [q[0]] + q[1..];
    }
  }

  lemma {:induction false} SumAppend(xs: seq<real>, ys: seq<real>)
    ensures Sum(xs + ys) == Sum(xs) + Sum(ys)
  {
    if xs == [] {
      assert xs + ys == ys;
    } else {
      assert (xs + ys)[1..] == xs[1..] + ys;
      SumAppend(xs[1..], ys);
    }
  }

  function Squared(x: real): real { x * x }

  lemma SquareNonNegative(x: real)
    ensures x * x >= 0.0
    ensures x != 0.0 ==> x * x > 0.0
  {
    if x > 0.0 {
      PositiveProduct(x, x);
    } else if x < 0.0 {
      PositiveProduct(-x, -x);
      assert x * x == (-x) * (-x);
    }
  }

  lemma PositiveProduct(a: real, b: real)
    requires a > 0.0 && b > 0.0
    ensures a * b > 0.0
  {
  }

  lemma ProductIsPositive(a: real, b: real, product: real)
    requires a > 0.0 && b > 0.0 && product == a * b
    ensures product > 0.0
  {
  }

  lemma SquareIsPositive(x: real)
    requires x != 0.0
    ensures Squared(x) > 0.0
  {
    if x > 0.0 { ProductIsPositive(x, x, Squared(x)); } else { ProductIsPositive(-x, -x, Squared(x)); }
  }

  lemma PositiveFactor(a: real, b: real)
    requires b > 0.0 && a * b > 0.0
    ensures a > 0.0
  {
  }

  lemma PositiveRoot(root: real -> real, x: real)
    requires SquareRoot(root) && x > 0.0
    ensures root(x) > 0.0
  {
    assert root(x) * root(x) == x;
  }

  lemma DivideCancels(a: real, b: real)
    requires b != 0.0
    ensures a / b * b == a
  {
  }
}
