/**
 * Combinators: the fuzzy AND/OR/XOR families that combine membership
 * functions of the same domain, point by point.
 */
module Combinators {
  import opened Wrappers
  import opened Reals
  import opened Functions

  /** A combined membership whose evaluation can raise (empty operands, division by zero). */
  type Combined = real -> Result<real>

  /** The memberships of all operands at one point, in operand order. */
  function Values(fs: seq<Membership>, z: real): (vs: seq<real>)
    ensures |vs| == |fs| && forall i :: 0 <= i < |fs| ==> vs[i] == fs[i](z)
  {
    seq(|fs|, i requires 0 <= i < |fs| => fs[i](z))
  }

  predicate AllInUnit(vs: seq<real>)
  {
    forall i :: 0 <= i < |vs| ==> InUnit(vs[i])
  }

  // ---------------------------------------------------------------
  // n-ary MIN, MAX, product
  // ---------------------------------------------------------------

  /** `MIN(*funcs)`: Python's `min` over the operands; an empty operand list raises. */
  function MIN(fs: seq<Membership>): (f: Combined)
    ensures forall z :: f(z).Err? <==> |fs| == 0
    ensures forall z :: f(z).Ok? ==> forall i :: 0 <= i < |fs| ==> f(z).value <= fs[i](z)
    ensures forall z :: f(z).Ok? ==> exists i :: 0 <= i < |fs| && f(z).value == fs[i](z)
  {
    z => if |fs| == 0 then Err(ValueError("min() arg is an empty sequence"))
         else Ok(SeqMin(Values(fs, z)))
  }

  /** `MAX(*funcs)`: Python's `max` over the operands; an empty operand list raises. */
  function MAX(fs: seq<Membership>): (f: Combined)
    ensures forall z :: f(z).Err? <==> |fs| == 0
    ensures forall z :: f(z).Ok? ==> forall i :: 0 <= i < |fs| ==> fs[i](z) <= f(z).value
    ensures forall z :: f(z).Ok? ==> exists i :: 0 <= i < |fs| && f(z).value == fs[i](z)
  {
    z => if |fs| == 0 then Err(ValueError("max() arg is an empty sequence"))
         else Ok(SeqMax(Values(fs, z)))
  }

  /** `MIN` is the greatest lower bound of the operands, and fails exactly without operands. */
  lemma MINIsLowerBound(fs: seq<Membership>, z: real)
    ensures MIN(fs)(z).Err? <==> |fs| == 0
    ensures MIN(fs)(z).Ok? ==> forall i :: 0 <= i < |fs| ==> MIN(fs)(z).value <= fs[i](z)
    ensures MIN(fs)(z).Ok? ==> exists i :: 0 <= i < |fs| && MIN(fs)(z).value == fs[i](z)
    ensures MIN(fs)(z).Ok? && AllInUnit(Values(fs, z)) ==> InUnit(MIN(fs)(z).value)
  {
    if |fs| > 0 {
      var vs := Values(fs, z);
      var i :| 0 <= i < |vs| && SeqMin(vs) == vs[i];
      assert InUnit(vs[i]) || !AllInUnit(vs);
    }
  }

  /** `MAX` is the least upper bound of the operands, and fails exactly without operands. */
  lemma MAXIsUpperBound(fs: seq<Membership>, z: real)
    ensures MAX(fs)(z).Err? <==> |fs| == 0
    ensures MAX(fs)(z).Ok? ==> forall i :: 0 <= i < |fs| ==> fs[i](z) <= MAX(fs)(z).value
    ensures MAX(fs)(z).Ok? ==> exists i :: 0 <= i < |fs| && MAX(fs)(z).value == fs[i](z)
    ensures MAX(fs)(z).Ok? && AllInUnit(Values(fs, z)) ==> InUnit(MAX(fs)(z).value)
  {
    if |fs| > 0 {
      var vs := Values(fs, z);
      var i :| 0 <= i < |vs| && SeqMax(vs) == vs[i];
      assert InUnit(vs[i]) || !AllInUnit(vs);
    }
  }

  /** `reduce(multiply, ...)` without an initial value: a left fold of a non-empty sequence. */
  function SeqProduct(vs: seq<real>): real
    requires |vs| > 0
  {
    if |vs| == 1 then vs[0] else SeqProduct(vs[..|vs| - 1]) * vs[|vs| - 1]
  }

  /** `product(*funcs)`: the left-folded product; `reduce` of no operands raises. */
  function Product(fs: seq<Membership>): (f: Combined)
    ensures forall z :: f(z).Err? <==> |fs| == 0
    ensures forall z :: f(z).Ok? && AllInUnit(Values(fs, z)) ==>
      InUnit(f(z).value) && forall i :: 0 <= i < |fs| ==> f(z).value <= fs[i](z)
  {
    assert forall z :: |fs| > 0 && AllInUnit(Values(fs, z)) ==>
      InUnit(SeqProduct(Values(fs, z))) && forall i :: 0 <= i < |fs| ==> SeqProduct(Values(fs, z)) <= fs[i](z) by {
      forall z | |fs| > 0 && AllInUnit(Values(fs, z))
        ensures InUnit(SeqProduct(Values(fs, z)))
        ensures forall i :: 0 <= i < |fs| ==> SeqProduct(Values(fs, z)) <= fs[i](z)
      {
        SeqProductInUnit(Values(fs, z));
      }
    }
    z => if |fs| == 0 then Err(TypeError("reduce() of empty iterable with no initial value"))
         else Ok(SeqProduct(Values(fs, z)))
  }

  /** A product of unit values stays in [0, 1] and below every factor. */
  lemma {:induction false} SeqProductInUnit(vs: seq<real>)
    requires |vs| > 0 && AllInUnit(vs)
    ensures InUnit(SeqProduct(vs))
    ensures forall i :: 0 <= i < |vs| ==> SeqProduct(vs) <= vs[i]
    decreases |vs|
  {
    if |vs| > 1 {
      var init := vs[..|vs| - 1];
      var last := vs[|vs| - 1];
      assert AllInUnit(init) by {
        forall i | 0 <= i < |init| ensures InUnit(init[i]) { assert init[i] == vs[i]; }
      }
      SeqProductInUnit(init);
      var p := SeqProduct(init);
      var q := SeqProduct(vs);
      ProductStep(p, last, q);
      forall i | 0 <= i < |vs| ensures q <= vs[i] {
        if i < |vs| - 1 { assert init[i] == vs[i]; }
      }
    }
  }

  lemma ProductFacts(fs: seq<Membership>, z: real)
    ensures Product(fs)(z).Err? <==> |fs| == 0
    ensures Product(fs)(z).Ok? && AllInUnit(Values(fs, z)) ==>
      InUnit(Product(fs)(z).value) && forall i :: 0 <= i < |fs| ==> Product(fs)(z).value <= fs[i](z)
  {
    if |fs| > 0 && AllInUnit(Values(fs, z)) {
      SeqProductInUnit(Values(fs, z));
    }
  }

  // ---------------------------------------------------------------
  // Binary point operators
  // ---------------------------------------------------------------

  /** `bounded_sum`: x + y - x y. */
  function BoundedSumOp(x: real, y: real): real
  {
    x + y - x * y
  }

  /** The bounded sum is the algebraic sum 1 - (1 - x)(1 - y): an OR that dominates MAX on [0, 1]. */
  lemma BoundedSumFacts(x: real, y: real)
    ensures BoundedSumOp(x, y) == BoundedSumOp(y, x)
    ensures BoundedSumOp(x, y) == 1.0 - (1.0 - x) * (1.0 - y)
    ensures InUnit(x) && InUnit(y) ==> InUnit(BoundedSumOp(x, y)) && BoundedSumOp(x, y) >= Max2(x, y)
  {
    if InUnit(x) && InUnit(y) {
      ScaledUnit(1.0 - x, 1.0 - y);
      ScaledUnit(x, 1.0 - y);
      ScaledUnit(y, 1.0 - x);
      assert BoundedSumOp(x, y) == x + y * (1.0 - x);
      assert BoundedSumOp(x, y) == y + x * (1.0 - y);
    }
  }

  /** `lukasiewicz_AND`: min(1, x + y). */
  function LukasiewiczAndOp(x: real, y: real): real
  {
    Min2(1.0, x + y)
  }

  /** `lukasiewicz_OR`: max(0, x + y - 1). */
  function LukasiewiczOrOp(x: real, y: real): real
  {
    Max2(0.0, x + y - 1.0)
  }

  lemma LukasiewiczFacts(x: real, y: real)
    requires InUnit(x) && InUnit(y)
    ensures InUnit(LukasiewiczAndOp(x, y)) && InUnit(LukasiewiczOrOp(x, y))
    ensures LukasiewiczAndOp(x, y) == LukasiewiczAndOp(y, x)
    ensures LukasiewiczOrOp(x, y) == LukasiewiczOrOp(y, x)
    ensures LukasiewiczOrOp(x, y) <= Min2(x, y) && Max2(x, y) <= LukasiewiczAndOp(x, y)
    ensures LukasiewiczOrOp(x, y) == 1.0 - LukasiewiczAndOp(1.0 - x, 1.0 - y)
  {
  }

  /**
   * As written, `lukasiewicz_AND` is an OR: on 1/2 and 1/2 it yields 1, above
   * both operands, while an AND never exceeds MIN.
   */
  lemma LukasiewiczAndExceedsMin()
    ensures LukasiewiczAndOp(0.5, 0.5) == 1.0 > Min2(0.5, 0.5)
  {
  }

  /** The Lukasiewicz t-norm the AND variant evidently means: max(0, x + y - 1). */
  function LukasiewiczTNorm(x: real, y: real): real
  {
    Max2(0.0, x + y - 1.0)
  }

  /** The Lukasiewicz t-conorm the OR variant evidently means: min(1, x + y). */
  function LukasiewiczTConorm(x: real, y: real): real
  {
    Min2(1.0, x + y)
  }

  /** The corrected pair is an AND below MIN and an OR above MAX, neutral on 1 and 0 respectively. */
  lemma LukasiewiczCorrected(x: real, y: real)
    requires InUnit(x) && InUnit(y)
    ensures InUnit(LukasiewiczTNorm(x, y)) && LukasiewiczTNorm(x, y) <= Min2(x, y)
    ensures InUnit(LukasiewiczTConorm(x, y)) && LukasiewiczTConorm(x, y) >= Max2(x, y)
    ensures LukasiewiczTNorm(x, 1.0) == x && LukasiewiczTConorm(x, 0.0) == x
  {
  }

  /** `einstein_product`: x y / (2 - (x + y - x y)); a zero denominator raises. */
  function EinsteinProductOp(x: real, y: real): Result<real>
  {
    var d := 2.0 - (x + y - x * y);
    if d == 0.0 then Err(ZeroDivisionError("float division by zero")) else Ok((x * y) / d)
  }

  /** `einstein_sum`: (x + y) / (1 + x y); a zero denominator raises. */
  function EinsteinSumOp(x: real, y: real): Result<real>
  {
    var d := 1.0 + x * y;
    if d == 0.0 then Err(ZeroDivisionError("float division by zero")) else Ok((x + y) / d)
  }

  lemma FractionInUnit(n: real, d: real)
    requires 0.0 <= n <= d && d > 0.0
    ensures InUnit(n / d)
  {
    UnitRatio(n, d);
  }

  /** On [0, 1] the Einstein denominators are at least 1, and both results are memberships. */
  lemma EinsteinFacts(x: real, y: real)
    requires InUnit(x) && InUnit(y)
    ensures EinsteinProductOp(x, y).Ok? && InUnit(EinsteinProductOp(x, y).value)
    ensures EinsteinSumOp(x, y).Ok? && InUnit(EinsteinSumOp(x, y).value)
    ensures EinsteinProductOp(x, y) == EinsteinProductOp(y, x)
    ensures EinsteinSumOp(x, y) == EinsteinSumOp(y, x)
  {
    ScaledUnit(x, y);
    ScaledUnit(1.0 - x, 1.0 - y);
    assert 2.0 - (x + y - x * y) == 1.0 + (1.0 - x) * (1.0 - y);
    FractionInUnit(x * y, 2.0 - (x + y - x * y));
    // x + y <= 1 + x y because (1 - x)(1 - y) >= 0
    FractionInUnit(x + y, 1.0 + x * y);
  }

  lemma EinsteinProductAll(a: Membership, b: Membership)
    ensures forall z :: InUnit(a(z)) && InUnit(b(z)) ==>
      EinsteinProductOp(a(z), b(z)).Ok? && InUnit(EinsteinProductOp(a(z), b(z)).value)
  {
    forall z | InUnit(a(z)) && InUnit(b(z))
      ensures EinsteinProductOp(a(z), b(z)).Ok? && InUnit(EinsteinProductOp(a(z), b(z)).value)
    {
      EinsteinFacts(a(z), b(z));
    }
  }

  lemma EinsteinSumAll(a: Membership, b: Membership)
    ensures forall z :: InUnit(a(z)) && InUnit(b(z)) ==>
      EinsteinSumOp(a(z), b(z)).Ok? && InUnit(EinsteinSumOp(a(z), b(z)).value)
  {
    forall z | InUnit(a(z)) && InUnit(b(z))
      ensures EinsteinSumOp(a(z), b(z)).Ok? && InUnit(EinsteinSumOp(a(z), b(z)).value)
    {
      EinsteinFacts(a(z), b(z));
    }
  }

  /** Off [0, 1] the Einstein product can divide by zero. */
  lemma EinsteinProductCanRaise()
    ensures EinsteinProductOp(2.0, 0.0).Err?
  {
  }

  /** `hamacher_product`: x y / (x + y - x y) unless an operand is 0, when it is 0. */
  function HamacherProductOp(x: real, y: real): Result<real>
  {
    if x != 0.0 && y != 0.0 then
      var d := x + y - x * y;
      if d == 0.0 then Err(ZeroDivisionError("float division by zero")) else Ok((x * y) / d)
    else Ok(0.0)
  }

  /** `hamacher_sum`: (x + y - 2 x y) / (1 - x y) unless both operands are 1, when it is 1. */
  function HamacherSumOp(x: real, y: real): Result<real>
  {
    if x != 1.0 || y != 1.0 then
      var d := 1.0 - x * y;
      if d == 0.0 then Err(ZeroDivisionError("float division by zero")) else Ok((x + y - 2.0 * x * y) / d)
    else Ok(1.0)
  }

  /** On [0, 1] the Hamacher product never divides by zero, is 0 on a zero operand, and stays below MIN. */
  lemma HamacherProductFacts(x: real, y: real)
    requires InUnit(x) && InUnit(y)
    ensures HamacherProductOp(x, y).Ok?
    ensures x == 0.0 || y == 0.0 ==> HamacherProductOp(x, y).value == 0.0
    ensures InUnit(HamacherProductOp(x, y).value)
    ensures HamacherProductOp(x, y).value <= Min2(x, y)
  {
    if x != 0.0 && y != 0.0 {
      var d := x + y - x * y;
      ScaledUnit(y, 1.0 - x);
      ScaledUnit(x, 1.0 - y);
      assert d == x + y * (1.0 - x) && d == y + x * (1.0 - y);
      assert d >= x && d >= y;
      // x y / d <= x y / x = y, and likewise <= x
      QuotientBelow(x, y, d);
      QuotientBelow(y, x, d);
      assert (x * y) / d == (y * x) / d;
      FractionInUnit(x * y, d) by { ScaledUnit(x, y); }
    }
  }

  lemma HamacherProductAll(a: Membership, b: Membership)
    ensures forall z :: InUnit(a(z)) && InUnit(b(z)) ==>
      HamacherProductOp(a(z), b(z)).Ok? && InUnit(HamacherProductOp(a(z), b(z)).value)
      && HamacherProductOp(a(z), b(z)).value <= Min2(a(z), b(z))
  {
    forall z | InUnit(a(z)) && InUnit(b(z))
      ensures HamacherProductOp(a(z), b(z)).Ok? && InUnit(HamacherProductOp(a(z), b(z)).value)
      ensures HamacherProductOp(a(z), b(z)).value <= Min2(a(z), b(z))
    {
      HamacherProductFacts(a(z), b(z));
    }
  }

  /** With 0 < a <= d and b >= 0, the quotient a b / d is at most b. */
  lemma QuotientBelow(a: real, b: real, d: real)
    requires 0.0 < a <= d && b >= 0.0
    ensures (a * b) / d <= b
  {
    var q := (a * b) / d;
    assert q * d == a * b;
    assert q >= 0.0 by { assert a * b >= 0.0; DivSign(a * b, d); }
    MulMono(q, a, d);
    assert q * a <= a * b;
    DivideOut(q, a, b);
  }

  lemma DivSign(n: real, d: real)
    requires n >= 0.0 && d > 0.0
    ensures n / d >= 0.0
  {
    var q := n / d;
    assert q * d == n;
  }

  /** From q a <= a b with a > 0 it follows that q <= b. */
  lemma DivideOut(q: real, a: real, b: real)
    requires a > 0.0 && q * a <= a * b
    ensures q <= b
  {
    assert (b - q) * a >= 0.0;
    MulSignPos(b - q, a);
  }

  lemma MulSignPos(u: real, a: real)
    requires a > 0.0 && u * a >= 0.0
    ensures u >= 0.0
  {
    var w := u * a;
    assert u == w / a;
    DivSign(w, a);
  }

  /**
   * On [0, 1] the Hamacher sum never divides by zero, stays in [0, 1], lies
   * above MAX, and is 1 exactly when one operand is 1.
   */
  lemma HamacherSumFacts(x: real, y: real)
    requires InUnit(x) && InUnit(y)
    ensures HamacherSumOp(x, y).Ok?
    ensures InUnit(HamacherSumOp(x, y).value)
    ensures HamacherSumOp(x, y).value >= Max2(x, y)
    ensures HamacherSumOp(x, y).value == 1.0 <==> x == 1.0 || y == 1.0
  {
    if x != 1.0 || y != 1.0 {
      var d := 1.0 - x * y;
      var n := x + y - 2.0 * x * y;
      ScaledUnit(x, y);
      assert x * y < 1.0 by {
        if x < 1.0 { ScaledUnit(y, x); MulStrict(x, y); } else { assert y < 1.0; }
      }
      assert d > 0.0;
      var q := n / d;
      assert q * d == n;
      // 1 - q = (1 - x)(1 - y) / d
      assert d - n == (1.0 - x) * (1.0 - y);
      ScaledUnit(1.0 - x, 1.0 - y);
      assert (1.0 - q) * d == (1.0 - x) * (1.0 - y);
      MulSignPos(1.0 - q, d);
      // q - x = y (1 - x)^2 / d, and symmetrically
      assert (q - x) * d == y * ((1.0 - x) * (1.0 - x));
      assert (q - y) * d == x * ((1.0 - y) * (1.0 - y));
      SquareNonNeg(1.0 - x);
      SquareNonNeg(1.0 - y);
      ScaledUnitAny(y, (1.0 - x) * (1.0 - x));
      ScaledUnitAny(x, (1.0 - y) * (1.0 - y));
      MulSignPos(q - x, d);
      MulSignPos(q - y, d);
      if q == 1.0 {
        assert (1.0 - x) * (1.0 - y) == 0.0;
        ZeroProduct(1.0 - x, 1.0 - y);
      }
    }
  }

  lemma HamacherSumAll(a: Membership, b: Membership)
    ensures forall z :: InUnit(a(z)) && InUnit(b(z)) ==>
      HamacherSumOp(a(z), b(z)).Ok? && InUnit(HamacherSumOp(a(z), b(z)).value)
      && Max2(a(z), b(z)) <= HamacherSumOp(a(z), b(z)).value
  {
    forall z | InUnit(a(z)) && InUnit(b(z))
      ensures HamacherSumOp(a(z), b(z)).Ok? && InUnit(HamacherSumOp(a(z), b(z)).value)
      ensures Max2(a(z), b(z)) <= HamacherSumOp(a(z), b(z)).value
    {
      HamacherSumFacts(a(z), b(z));
    }
  }

  lemma MulStrict(x: real, y: real)
    requires 0.0 <= x < 1.0 && 0.0 <= y <= 1.0
    ensures x * y < 1.0
  {
    MulMono(x, y, 1.0);
  }

  lemma SquareNonNeg(a: real)
    ensures a * a >= 0.0
  {
  }

  lemma ScaledUnitAny(k: real, t: real)
    requires k >= 0.0 && t >= 0.0
    ensures k * t >= 0.0
  {
  }

  lemma ZeroProduct(a: real, b: real)
    requires a * b == 0.0
    ensures a == 0.0 || b == 0.0
  {
  }

  /** `lambda_op(l)`: l x y + (1 - l)(x + y - x y). */
  function LambdaOp(l: real, x: real, y: real): real
  {
    l * (x * y) + (1.0 - l) * (x + y - x * y)
  }

  /** The lambda operator is the convex combination of product and bounded sum. */
  lemma LambdaOpFacts(l: real, x: real, y: real)
    requires 0.0 <= l <= 1.0
    requires InUnit(x) && InUnit(y)
    ensures x * y <= LambdaOp(l, x, y) <= BoundedSumOp(x, y)
    ensures InUnit(LambdaOp(l, x, y))
    ensures LambdaOp(1.0, x, y) == x * y && LambdaOp(0.0, x, y) == BoundedSumOp(x, y)
  {
    BoundedSumFacts(x, y);
    ProductBelowBoundedSum(x, y);
    LambdaOpBetween(l, x, y);
    LambdaOpEnds(x, y);
  }

  /** The lambda operator lies between the product and the bounded sum. */
  lemma LambdaOpBetween(l: real, x: real, y: real)
    requires 0.0 <= l <= 1.0
    requires x * y <= BoundedSumOp(x, y)
    ensures x * y <= LambdaOp(l, x, y) <= BoundedSumOp(x, y)
  {
    LambdaOpConvex(l, x, y);
    ConvexStep(x * y, BoundedSumOp(x, y), 1.0 - l, LambdaOp(l, x, y));
  }

  /** A value a fraction t of the way from p to s lies between them. */
  lemma ConvexStep(p: real, s: real, t: real, v: real)
    requires p <= s && 0.0 <= t <= 1.0
    requires v == p + (s - p) * t
    ensures p <= v <= s
  {
    MulMono(s - p, t, 1.0);
    MulMono(s - p, 0.0, t);
  }

  /** At l = 1 the lambda operator is the product, at l = 0 the bounded sum. */
  lemma LambdaOpEnds(x: real, y: real)
    ensures LambdaOp(1.0, x, y) == x * y && LambdaOp(0.0, x, y) == BoundedSumOp(x, y)
  {
  }

  /** On [0, 1] the product is non-negative and below the bounded sum. */
  lemma ProductBelowBoundedSum(x: real, y: real)
    requires InUnit(x) && InUnit(y)
    ensures 0.0 <= x * y <= BoundedSumOp(x, y)
  {
    ScaledUnit(x, y);
    var p := x * y;
    ScaledUnit(x, 1.0 - y);
    ScaledUnit(y, 1.0 - x);
    assert BoundedSumOp(x, y) - p == x * (1.0 - y) + y * (1.0 - x);
  }

  /** The lambda operator moves a fraction 1 - l of the way from the product to the bounded sum. */
  lemma LambdaOpConvex(l: real, x: real, y: real)
    requires 0.0 <= l <= 1.0
    ensures LambdaOp(l, x, y) == x * y + (BoundedSumOp(x, y) - x * y) * (1.0 - l)
  {
    var p, s := x * y, BoundedSumOp(x, y);
    assert LambdaOp(l, x, y) == l * p + (1.0 - l) * s;
    assert (s - p) * (1.0 - l) == (1.0 - l) * s - (1.0 - l) * p;
    assert (1.0 - l) * p == p - l * p;
  }

  /** Binary closures built from the point operators. */
  function BoundedSum(a: Membership, b: Membership): (f: Membership)
    ensures forall z :: f(z) == BoundedSumOp(a(z), b(z))
    ensures forall z :: InUnit(a(z)) && InUnit(b(z)) ==> InUnit(f(z)) && Max2(a(z), b(z)) <= f(z)
  {
    assert forall z :: InUnit(a(z)) && InUnit(b(z)) ==>
      InUnit(BoundedSumOp(a(z), b(z))) && Max2(a(z), b(z)) <= BoundedSumOp(a(z), b(z)) by {
      forall z ensures InUnit(a(z)) && InUnit(b(z)) ==>
        InUnit(BoundedSumOp(a(z), b(z))) && Max2(a(z), b(z)) <= BoundedSumOp(a(z), b(z))
      {
        BoundedSumFacts(a(z), b(z));
      }
    }
    z => BoundedSumOp(a(z), b(z))
  }

  function LukasiewiczAND(a: Membership, b: Membership): (f: Membership)
    ensures forall z :: f(z) == LukasiewiczAndOp(a(z), b(z))
    ensures forall z :: InUnit(a(z)) && InUnit(b(z)) ==> InUnit(f(z)) && Max2(a(z), b(z)) <= f(z)
  {
    assert forall z :: InUnit(a(z)) && InUnit(b(z)) ==>
      InUnit(LukasiewiczAndOp(a(z), b(z))) && Max2(a(z), b(z)) <= LukasiewiczAndOp(a(z), b(z)) by {
      forall z | InUnit(a(z)) && InUnit(b(z))
        ensures InUnit(LukasiewiczAndOp(a(z), b(z))) && Max2(a(z), b(z)) <= LukasiewiczAndOp(a(z), b(z))
      {
        LukasiewiczFacts(a(z), b(z));
      }
    }
    z => LukasiewiczAndOp(a(z), b(z))
  }

  function LukasiewiczOR(a: Membership, b: Membership): (f: Membership)
    ensures forall z :: f(z) == LukasiewiczOrOp(a(z), b(z))
    ensures forall z :: InUnit(a(z)) && InUnit(b(z)) ==> InUnit(f(z)) && f(z) <= Min2(a(z), b(z))
  {
    assert forall z :: InUnit(a(z)) && InUnit(b(z)) ==>
      InUnit(LukasiewiczOrOp(a(z), b(z))) && LukasiewiczOrOp(a(z), b(z)) <= Min2(a(z), b(z)) by {
      forall z | InUnit(a(z)) && InUnit(b(z))
        ensures InUnit(LukasiewiczOrOp(a(z), b(z))) && LukasiewiczOrOp(a(z), b(z)) <= Min2(a(z), b(z))
      {
        LukasiewiczFacts(a(z), b(z));
      }
    }
    z => LukasiewiczOrOp(a(z), b(z))
  }

  function EinsteinProduct(a: Membership, b: Membership): (f: Combined)
    ensures forall z :: f(z) == EinsteinProductOp(a(z), b(z))
    ensures forall z :: InUnit(a(z)) && InUnit(b(z)) ==> f(z).Ok? && InUnit(f(z).value)
  {
    EinsteinProductAll(a, b);
    z => EinsteinProductOp(a(z), b(z))
  }

  function EinsteinSum(a: Membership, b: Membership): (f: Combined)
    ensures forall z :: f(z) == EinsteinSumOp(a(z), b(z))
    ensures forall z :: InUnit(a(z)) && InUnit(b(z)) ==> f(z).Ok? && InUnit(f(z).value)
  {
    EinsteinSumAll(a, b);
    z => EinsteinSumOp(a(z), b(z))
  }

  function HamacherProduct(a: Membership, b: Membership): (f: Combined)
    ensures forall z :: f(z) == HamacherProductOp(a(z), b(z))
    ensures forall z :: InUnit(a(z)) && InUnit(b(z)) ==>
      f(z).Ok? && InUnit(f(z).value) && f(z).value <= Min2(a(z), b(z))
  {
    HamacherProductAll(a, b);
    z => HamacherProductOp(a(z), b(z))
  }

  function HamacherSum(a: Membership, b: Membership): (f: Combined)
    ensures forall z :: f(z) == HamacherSumOp(a(z), b(z))
    ensures forall z :: InUnit(a(z)) && InUnit(b(z)) ==>
      f(z).Ok? && InUnit(f(z).value) && Max2(a(z), b(z)) <= f(z).value
  {
    HamacherSumAll(a, b);
    z => HamacherSumOp(a(z), b(z))
  }

  /** `lambda_op(l)(a, b)`: a weight `l` outside [0, 1] fails the assertion of `lambda_op`. */
  function Lambda(l: real, a: Membership, b: Membership): (r: Result<Membership>)
    ensures r.Err? <==> !(0.0 <= l <= 1.0)
    ensures r.Err? ==> r.error.AssertionError?
    ensures r.Ok? ==> forall z :: r.value(z) == LambdaOp(l, a(z), b(z))
    ensures r.Ok? ==> forall z :: InUnit(a(z)) && InUnit(b(z)) ==>
      InUnit(r.value(z)) && a(z) * b(z) <= r.value(z) <= BoundedSumOp(a(z), b(z))
  {
    if !(0.0 <= l <= 1.0) then Err(AssertionError("0 <= l <= 1"))
    else
      var f: Membership := z => LambdaOp(l, a(z), b(z));
      LambdaAll(l, a, b, f);
      Ok(f)
  }

  lemma LambdaAll(l: real, a: Membership, b: Membership, f: Membership)
    requires 0.0 <= l <= 1.0
    requires forall z :: f(z) == LambdaOp(l, a(z), b(z))
    ensures forall z :: InUnit(a(z)) && InUnit(b(z)) ==>
      InUnit(f(z)) && a(z) * b(z) <= f(z) <= BoundedSumOp(a(z), b(z))
  {
    forall z | InUnit(a(z)) && InUnit(b(z))
      ensures InUnit(f(z)) && a(z) * b(z) <= f(z) <= BoundedSumOp(a(z), b(z))
    {
      LambdaOpFacts(l, a(z), b(z));
    }
  }

  // ---------------------------------------------------------------
  // simple_disjoint_sum
  // ---------------------------------------------------------------

  /** The set `M` of distinct operand values at one point. */
  function ValueSet(fs: seq<Membership>, z: real): set<real>
  {
    set i | 0 <= i < |fs| :: fs[i](z)
  }

  /** For one value x of M: min of x and the complements of the other values, or of 1 - x when there are none. */
  function DisjointTerm(m: set<real>, x: real): real
  {
    var rest := set y | y in m - {x} :: 1.0 - y;
    if rest == {} then Min2(x, 1.0 - x) else Min2(x, SetMin(rest))
  }

  /** The fuzzy XOR of a non-empty value set: the largest of its terms. */
  function DisjointSumOfSet(m: set<real>): real
    requires m != {}
  {
    if forall v :: v !in m then assert false; 0.0
    else
      var v :| v in m;
      var terms := set x | x in m :: DisjointTerm(m, x);
      assert DisjointTerm(m, v) in terms;
      SetMax(terms)
  }

  /** `simple_disjoint_sum(*funcs)`: depends only on the set of operand values; no operands raises. */
  function SimpleDisjointSum(fs: seq<Membership>): (f: Combined)
    ensures forall z :: f(z).Err? <==> |fs| == 0
    ensures forall z :: f(z).Ok? && AllInUnit(Values(fs, z)) ==> InUnit(f(z).value)
  {
    assert forall z :: |fs| > 0 ==> fs[0](z) in ValueSet(fs, z);
    assert forall z :: |fs| > 0 && AllInUnit(Values(fs, z)) ==> InUnit(DisjointSumOfSet(ValueSet(fs, z))) by {
      forall z | |fs| > 0 && AllInUnit(Values(fs, z)) ensures InUnit(DisjointSumOfSet(ValueSet(fs, z))) {
        ValueSetInUnit(fs, z);
        DisjointSetInUnit(ValueSet(fs, z));
      }
    }
    z =>
      if |fs| == 0 then Err(ValueError("max() arg is an empty sequence"))
      else
        assert fs[0](z) in ValueSet(fs, z);
        Ok(DisjointSumOfSet(ValueSet(fs, z)))
  }

  lemma SetMaxPair(a: real, b: real)
    ensures SetMax({a, b}) == Max2(a, b)
  {
  }

  lemma SetMinSingle(a: real)
    ensures SetMin({a}) == a
  {
  }

  /** For two operands the XOR is max(min(x, 1 - y), min(1 - x, y)), also when they coincide. */
  lemma DisjointSumOfTwo(a: Membership, b: Membership, z: real)
    ensures SimpleDisjointSum([a, b])(z)
         == Ok(Max2(Min2(a(z), 1.0 - b(z)), Min2(1.0 - a(z), b(z))))
  {
    var x, y := a(z), b(z);
    var fs := [a, b];
    var m := ValueSet(fs, z);
    assert m == {x, y} by {
      assert fs[0](z) == x && fs[1](z) == y;
    }
    if x == y {
      assert m == {x};
      assert (set w | w in m - {x} :: 1.0 - w) == {};
      assert (set w | w in m :: DisjointTerm(m, w)) == {Min2(x, 1.0 - x)};
      SetMaxPair(Min2(x, 1.0 - x), Min2(x, 1.0 - x));
    } else {
      assert m - {x} == {y} && m - {y} == {x};
      assert (set w | w in m - {x} :: 1.0 - w) == {1.0 - y};
      assert (set w | w in m - {y} :: 1.0 - w) == {1.0 - x};
      SetMinSingle(1.0 - y);
      SetMinSingle(1.0 - x);
      assert DisjointTerm(m, x) == Min2(x, 1.0 - y);
      assert DisjointTerm(m, y) == Min2(y, 1.0 - x);
      assert (set w | w in m :: DisjointTerm(m, w)) == {Min2(x, 1.0 - y), Min2(y, 1.0 - x)};
      SetMaxPair(Min2(x, 1.0 - y), Min2(y, 1.0 - x));
    }
  }

  /** The doctest of `simple_disjoint_sum(noop(), noop())`. */
  lemma DisjointSumExamples()
    ensures SimpleDisjointSum([Noop(), Noop()])(0.0) == Ok(0.0)
    ensures SimpleDisjointSum([Noop(), Noop()])(1.0) == Ok(0.0)
    ensures SimpleDisjointSum([Noop(), Noop()])(0.5) == Ok(0.5)
  {
    DisjointSumOfTwo(Noop(), Noop(), 0.0);
    DisjointSumOfTwo(Noop(), Noop(), 1.0);
    DisjointSumOfTwo(Noop(), Noop(), 0.5);
  }

  /** Duplicated operands collapse: the XOR depends only on the set of values. */
  lemma DisjointSumOnlySet(fs: seq<Membership>, gs: seq<Membership>, z: real)
    requires ValueSet(fs, z) == ValueSet(gs, z)
    requires |fs| > 0 && |gs| > 0
    ensures SimpleDisjointSum(fs)(z) == SimpleDisjointSum(gs)(z)
  {
    assert fs[0](z) in ValueSet(fs, z);
  }

  /** With operands in [0, 1] the XOR stays in [0, 1]. */
  lemma DisjointSumInUnit(fs: seq<Membership>, z: real)
    requires |fs| > 0 && AllInUnit(Values(fs, z))
    ensures SimpleDisjointSum(fs)(z).Ok? && InUnit(SimpleDisjointSum(fs)(z).value)
  {
    ValueSetInUnit(fs, z);
    DisjointSetInUnit(ValueSet(fs, z));
  }

  /** Operands in [0, 1] give a value set inside [0, 1], with at least one value. */
  lemma ValueSetInUnit(fs: seq<Membership>, z: real)
    requires |fs| > 0 && AllInUnit(Values(fs, z))
    ensures ValueSet(fs, z) != {}
    ensures forall v :: v in ValueSet(fs, z) ==> InUnit(v)
  {
    var m := ValueSet(fs, z);
    forall v | v in m ensures InUnit(v) {
      var i :| 0 <= i < |fs| && v == fs[i](z);
      assert Values(fs, z)[i] == v;
    }
    assert fs[0](z) in m;
  }

  /** The XOR of values in [0, 1] lies in [0, 1]. */
  lemma DisjointSetInUnit(m: set<real>)
    requires m != {} && forall v :: v in m ==> InUnit(v)
    ensures InUnit(DisjointSumOfSet(m))
  {
    var w := SetMin(m);
    var terms := set x | x in m :: DisjointTerm(m, x);
    forall x | x in m ensures InUnit(DisjointTerm(m, x)) {
      var rest := set y | y in m - {x} :: 1.0 - y;
      if rest != {} {
        var r := SetMin(rest);
        var y :| y in m - {x} && r == 1.0 - y;
      }
    }
    var t := DisjointSumOfSet(m);
    assert t in terms;
  }
}
