/**
 * Truth qualifiers: maps from a membership value to a truth value. The four
 * circle-based ones trace quarter circles of radius 1 and use `math.sqrt`,
 * which raises ValueError on a negative argument.
 */
module Truth {
  import opened Wrappers
  import opened Reals

  /** What the model relies on from `math.sqrt`: a non-negative square root of every non-negative argument. */
  ghost predicate IsSqrt(sqrt: real -> real)
  {
    forall a :: a >= 0.0 ==> sqrt(a) >= 0.0 && sqrt(a) * sqrt(a) == a
  }

  /** `true(m)`: the membership is its own truth value. */
  function True(m: real): (t: real)
    ensures t == m
    ensures InUnit(t) <==> InUnit(m)
  {
    m
  }

  /** `false(m)`: the opposite of `true`. */
  function False(m: real): (t: real)
    ensures t + True(m) == 1.0
  {
    1.0 - m
  }

  /** `sqrt(a)`, or the ValueError `math.sqrt` raises for a negative `a`. */
  function Root(a: real, sqrt: real -> real): (r: Result<real>)
    ensures r.Err? <==> a < 0.0
    ensures r.Err? ==> r.error.ValueError?
    ensures r.Ok? ==> r.value == sqrt(a)
  {
    if a < 0.0 then Err(ValueError("math domain error")) else Ok(sqrt(a))
  }

  /** `1 - m**2` is negative exactly outside [-1, 1]. */
  lemma SquareAboveOne(m: real)
    ensures 1.0 - m * m < 0.0 <==> m < -1.0 || m > 1.0
  {
    assert 1.0 - m * m == (1.0 - m) * (1.0 + m);
    if m > 1.0 {
      assert (m - 1.0) * (1.0 + m) > 0.0;
    } else if m < -1.0 {
      assert (1.0 - m) * (-1.0 - m) > 0.0;
    } else {
      assert (1.0 - m) * (1.0 + m) >= 0.0;
    }
  }

  /** `fairly_false(m) = sqrt(1 - m**2)`: a quarter circle in quadrant I. */
  function FairlyFalse(m: real, sqrt: real -> real): (r: Result<real>)
    ensures r.Err? <==> m < -1.0 || m > 1.0
    ensures r.Err? ==> r.error.ValueError?
  {
    SquareAboveOne(m);
    Root(1.0 - m * m, sqrt)
  }

  /** `fairly_true(m) = sqrt(1 - (1 - m)**2)`: a quarter circle in quadrant II. */
  function FairlyTrue(m: real, sqrt: real -> real): (r: Result<real>)
    ensures r.Err? <==> m < 0.0 || m > 2.0
    ensures r.Err? ==> r.error.ValueError?
  {
    SquareAboveOne(1.0 - m);
    Root(1.0 - (1.0 - m) * (1.0 - m), sqrt)
  }

  /** `very_false(m) = -sqrt(1 - (1 - m)**2)`: a quarter circle in quadrant III. */
  function VeryFalse(m: real, sqrt: real -> real): (r: Result<real>)
    ensures r.Err? <==> m < 0.0 || m > 2.0
    ensures r.Err? ==> r.error.ValueError?
  {
    var root := FairlyTrue(m, sqrt);
    if root.Err? then root else Ok(-root.value)
  }

  /** `very_true(m) = -sqrt(1 - m**2)`: a quarter circle in quadrant IV. */
  function VeryTrue(m: real, sqrt: real -> real): (r: Result<real>)
    ensures r.Err? <==> m < -1.0 || m > 1.0
    ensures r.Err? ==> r.error.ValueError?
  {
    var root := FairlyFalse(m, sqrt);
    if root.Err? then root else Ok(-root.value)
  }

  /** true(m) + false(m) == 1 for every m. */
  lemma TrueFalseComplement(m: real)
    ensures True(m) + False(m) == 1.0
  {
  }

  /** On [0, 1] all four circle qualifiers are defined, and very_false(m) + fairly_true(m) == 0. */
  lemma VeryFalseFairlyTrue(m: real, sqrt: real -> real)
    requires InUnit(m)
    ensures FairlyTrue(m, sqrt).Ok? && VeryFalse(m, sqrt).Ok?
    ensures VeryFalse(m, sqrt).value + FairlyTrue(m, sqrt).value == 0.0
  {
  }

  /** On [0, 1], fairly_false(m) + very_true(m) == 0. */
  lemma FairlyFalseVeryTrue(m: real, sqrt: real -> real)
    requires InUnit(m)
    ensures FairlyFalse(m, sqrt).Ok? && VeryTrue(m, sqrt).Ok?
    ensures FairlyFalse(m, sqrt).value + VeryTrue(m, sqrt).value == 0.0
  {
  }

  /** The `fairly_*` qualifiers are non-negative and the `very_*` ones non-positive on [0, 1]. */
  lemma QualifierSigns(m: real, sqrt: real -> real)
    requires IsSqrt(sqrt) && InUnit(m)
    ensures FairlyFalse(m, sqrt).value >= 0.0 && FairlyTrue(m, sqrt).value >= 0.0
    ensures VeryFalse(m, sqrt).value <= 0.0 && VeryTrue(m, sqrt).value <= 0.0
  {
    var a := 1.0 - m * m;
    var b := 1.0 - (1.0 - m) * (1.0 - m);
    assert a >= 0.0 && b >= 0.0 by {
      SquareAboveOne(m);
      SquareAboveOne(1.0 - m);
    }
  }

  /** The qualifiers trace the unit circles centred at (0, 0) and (1, 0): the point (m, q(m)) lies on them. */
  lemma QualifiersOnCircles(m: real, sqrt: real -> real)
    requires IsSqrt(sqrt) && InUnit(m)
    ensures m * m + FairlyFalse(m, sqrt).value * FairlyFalse(m, sqrt).value == 1.0
    ensures m * m + VeryTrue(m, sqrt).value * VeryTrue(m, sqrt).value == 1.0
    ensures (1.0 - m) * (1.0 - m) + FairlyTrue(m, sqrt).value * FairlyTrue(m, sqrt).value == 1.0
    ensures (1.0 - m) * (1.0 - m) + VeryFalse(m, sqrt).value * VeryFalse(m, sqrt).value == 1.0
  {
    var a := 1.0 - m * m;
    var b := 1.0 - (1.0 - m) * (1.0 - m);
    SquareAboveOne(m);
    SquareAboveOne(1.0 - m);
    var p, q := sqrt(a), sqrt(b);
    assert p * p == a && q * q == b;
    assert (-p) * (-p) == p * p && (-q) * (-q) == q * q;
  }
}
