/**
 * Membership-function constructors of the fuzzy-logic engine.
 *
 * Each constructor checks its parameters (a Python `assert`, modelled as
 * `requires`) and returns a closure from the real line into the memberships.
 */
module Functions {
  import opened Wrappers
  import opened Reals

  /** A membership function: a value of the domain to a degree of membership. */
  type Membership = real -> real

  /** Clip a raw value into [0, 1], as the bounded linear closure does. */
  function Clip01(y: real): (r: real)
    ensures InUnit(r)
    ensures InUnit(y) ==> r == y
  {
    if y < 0.0 then 0.0 else if y > 1.0 then 1.0 else y
  }

  // ---------------------------------------------------------------
  // Special functions
  // ---------------------------------------------------------------

  /** `inv(g)`: the complement of `g` within the unit interval. */
  function Inv(g: Membership): (f: Membership)
    ensures forall x :: f(x) == 1.0 - g(x)
    ensures forall x :: InUnit(g(x)) <==> InUnit(f(x))
  {
    x => 1.0 - g(x)
  }

  /** Complementing twice gives back the original membership. */
  lemma InvInvolutive(g: Membership, x: real)
    ensures Inv(Inv(g))(x) == g(x)
    ensures InUnit(g(x)) <==> InUnit(Inv(g)(x))
  {
  }

  /** `noop()`: the identity. */
  function Noop(): (f: Membership)
    ensures forall x :: f(x) == x
  {
    x => x
  }

  /** `constant(c)`: the same value at every point. */
  function Constant(c: real): (f: Membership)
    ensures forall x, y :: f(x) == f(y)
    ensures f(0.0) == c
  {
    _ => c
  }

  lemma NoopConstantValues(c: real, x: real)
    ensures Noop()(x) == x
    ensures Constant(c)(x) == c && Constant(1.0)(0.0) == 1.0
  {
  }

  /**
   * `alpha(floor, ceiling, func, floor_clip, ceiling_clip)`: cut a function's
   * values; the ceiling is tested first, the clips default to the bounds.
   */
  function Alpha(floor: real, ceiling: real, func: Membership,
                 floorClip: Option<real>, ceilingClip: Option<real>): (f: Membership)
    requires floor <= ceiling && 0.0 <= floor && ceiling <= 1.0
    ensures forall x :: floor < func(x) < ceiling ==> f(x) == func(x)
    ensures floorClip.None? && ceilingClip.None? ==> forall x :: floor <= f(x) <= ceiling
    ensures InUnit(floorClip.GetOr(floor)) && InUnit(ceilingClip.GetOr(ceiling)) ==> forall x :: InUnit(f(x))
  {
    var lowValue := floorClip.GetOr(floor);
    var highValue := ceilingClip.GetOr(ceiling);
    x =>
      var m := func(x);
      if m >= ceiling then highValue
      else if m <= floor then lowValue
      else m
  }

  /** With the default clips, `alpha` clamps into [floor, ceiling]. */
  lemma AlphaIsClamp(floor: real, ceiling: real, func: Membership, x: real)
    requires 0.0 <= floor <= ceiling <= 1.0
    ensures Alpha(floor, ceiling, func, None, None)(x) == Max2(floor, Min2(ceiling, func(x)))
    ensures floor <= Alpha(floor, ceiling, func, None, None)(x) <= ceiling
    ensures floor < func(x) < ceiling ==> Alpha(floor, ceiling, func, None, None)(x) == func(x)
  {
  }

  /** Clipping an already clipped function changes nothing. */
  lemma AlphaIdempotent(floor: real, ceiling: real, func: Membership, x: real)
    requires 0.0 <= floor <= ceiling <= 1.0
    ensures Alpha(floor, ceiling, Alpha(floor, ceiling, func, None, None), None, None)(x)
         == Alpha(floor, ceiling, func, None, None)(x)
  {
    AlphaIsClamp(floor, ceiling, func, x);
    AlphaIsClamp(floor, ceiling, Alpha(floor, ceiling, func, None, None), x);
  }

  /** With explicit clips in [0, 1] every value stays in [0, 1] if `func` does. */
  lemma AlphaClipsInUnit(floor: real, ceiling: real, func: Membership,
                         floorClip: real, ceilingClip: real, x: real)
    requires 0.0 <= floor <= ceiling <= 1.0
    requires InUnit(floorClip) && InUnit(ceilingClip)
    ensures var m := func(x);
      var r := Alpha(floor, ceiling, func, Some(floorClip), Some(ceilingClip))(x);
      InUnit(r) && (m >= ceiling ==> r == ceilingClip)
      && (floor >= m && m < ceiling ==> r == floorClip)
      && (floor < m < ceiling ==> r == m)
  {
  }

  /** `normalize(height, func)`: divide by the height. */
  function Normalize(height: real, func: Membership): (f: Membership)
    requires 0.0 < height <= 1.0
    ensures forall x :: f(x) * height == func(x)
    ensures forall x :: 0.0 <= func(x) <= height ==> InUnit(f(x))
  {
    assert forall x :: 0.0 <= func(x) <= height ==> InUnit(func(x) / height) by {
      forall x | 0.0 <= func(x) <= height ensures InUnit(func(x) / height) {
        UnitRatio(func(x), height);
      }
    }
    x => func(x) / height
  }

  /** Normalizing scales by 1/height: a value in [0, height] lands in [0, 1]. */
  lemma NormalizeScales(height: real, func: Membership, x: real)
    requires 0.0 < height <= 1.0
    ensures Normalize(height, func)(x) * height == func(x)
    ensures 0.0 <= func(x) <= height ==> InUnit(Normalize(height, func)(x))
    ensures func(x) == height ==> Normalize(height, func)(x) == 1.0
  {
    var m := func(x);
    if 0.0 <= m <= height {
      assert m / height <= height / height;
    }
  }

  /** Normalizing by a height of 1 changes nothing, so normalizing twice is normalizing once. */
  lemma NormalizeIdempotent(h: real, func: Membership, x: real)
    requires 0.0 < h <= 1.0
    ensures Normalize(1.0, func)(x) == func(x)
    ensures Normalize(1.0, Normalize(h, func))(x) == Normalize(h, func)(x)
  {
  }

  /** The value `moderate` gives a membership `m`: 1/2 + 4 (m - 1/2)^3. */
  function ModerateAt(m: real): real
  {
    var d := m - 0.5; 0.5 + 4.0 * (d * d * d)
  }

  /** `moderate(func)`: damps memberships of [0, 1] towards 1/2. */
  function Moderate(func: Membership): (f: Membership)
    ensures forall x :: InUnit(func(x)) && func(x) <= 0.5 ==> func(x) <= f(x) <= 0.5
    ensures forall x :: InUnit(func(x)) && func(x) >= 0.5 ==> 0.5 <= f(x) <= func(x)
  {
    assert forall m :: InUnit(m) ==>
      (m <= 0.5 ==> m <= ModerateAt(m) <= 0.5) && (m >= 0.5 ==> 0.5 <= ModerateAt(m) <= m) by {
      forall m | InUnit(m)
        ensures (m <= 0.5 ==> m <= ModerateAt(m) <= 0.5) && (m >= 0.5 ==> 0.5 <= ModerateAt(m) <= m)
      {
        ModerateTowardsHalf(m);
      }
    }
    x => ModerateAt(func(x))
  }

  /** On [0, 1] the cubic moves a membership towards 1/2 without passing it. */
  lemma ModerateTowardsHalf(m: real)
    requires InUnit(m)
    ensures m <= 0.5 ==> m <= ModerateAt(m) <= 0.5
    ensures m >= 0.5 ==> 0.5 <= ModerateAt(m) <= m
  {
    var d := m - 0.5;
    var q := 4.0 * (d * d);
    assert 0.0 <= q <= 1.0 by {
      assert d * d <= 0.25 by {
        if d >= 0.0 { assert d * d <= d * 0.5; } else { assert d * d <= (-d) * 0.5; }
      }
    }
    assert 4.0 * (d * d * d) == q * d;
    assert ModerateAt(m) == 0.5 + d * q;
    if d >= 0.0 {
      ScaledUnit(d, q);
      assert 0.0 <= d * q <= d;
    } else {
      ScaledUnit(-d, q);
      assert d <= d * q <= 0.0;
    }
  }

  /** `moderate` keeps [0, 1], fixes 0, 1/2 and 1, and moves values towards 1/2. */
  lemma ModerateRange(func: Membership, x: real)
    ensures InUnit(func(x)) ==> InUnit(Moderate(func)(x))
    ensures func(x) == 0.0 ==> Moderate(func)(x) == 0.0
    ensures func(x) == 0.5 ==> Moderate(func)(x) == 0.5
    ensures func(x) == 1.0 ==> Moderate(func)(x) == 1.0
    ensures InUnit(func(x)) && func(x) <= 0.5 ==> func(x) <= Moderate(func)(x) <= 0.5
    ensures InUnit(func(x)) && func(x) >= 0.5 ==> 0.5 <= Moderate(func)(x) <= func(x)
  {
    assert Moderate(func)(x) == ModerateAt(func(x));
  }

  // ---------------------------------------------------------------
  // Membership functions
  // ---------------------------------------------------------------

  /** `singleton(p)`: a single spike of height `cM` at `p`. */
  function Singleton(p: real, noM: real, cM: real): (f: Membership)
    requires 0.0 <= noM < cM <= 1.0
    ensures forall x :: f(x) == cM <==> x == p
    ensures forall x :: InUnit(f(x))
  {
    x => if x == p then cM else noM
  }

  lemma SingletonSpike(p: real, noM: real, cM: real, x: real)
    requires 0.0 <= noM < cM <= 1.0
    ensures Singleton(p, noM, cM)(x) == cM <==> x == p
    ensures x != p ==> Singleton(p, noM, cM)(x) == noM
    ensures InUnit(Singleton(p, noM, cM)(x))
  {
  }

  /** `linear(m, b)`: m x + b clipped into [0, 1]. */
  function Linear(m: real, b: real): (f: Membership)
    ensures forall x :: f(x) == Clip01(m * x + b)
    ensures forall x :: InUnit(f(x))
  {
    x =>
      var y := m * x + b;
      if y <= 0.0 then 0.0
      else if y >= 1.0 then 1.0
      else y
  }

  /** The clipped line is the clip of the textbook line. */
  lemma LinearIsClippedLine(m: real, b: real, x: real)
    ensures Linear(m, b)(x) == Clip01(m * x + b)
    ensures InUnit(Linear(m, b)(x))
    ensures 0.0 < m * x + b < 1.0 ==> Linear(m, b)(x) == m * x + b
  {
  }

  /** The doctest of `linear(1, -1)`. */
  lemma LinearExamples()
    ensures Linear(1.0, -1.0)(-2.0) == 0.0 && Linear(1.0, -1.0)(0.0) == 0.0
    ensures Linear(1.0, -1.0)(1.0) == 0.0 && Linear(1.0, -1.0)(1.5) == 0.5
    ensures Linear(1.0, -1.0)(2.0) == 1.0 && Linear(1.0, -1.0)(3.0) == 1.0
  {
  }

  /** The clipped line of slope `g` through (lo, b). */
  function Ramp(g: real, lo: real, b: real, x: real): real
  {
    Clip01(Line(g, lo, b, x))
  }

  /** The line of slope `g` through (lo, b), at x. */
  function Line(g: real, lo: real, b: real, x: real): real
  {
    g * (x - lo) + b
  }

  lemma RampMonotone(g: real, lo: real, b: real, x: real, y: real)
    requires x <= y
    ensures g >= 0.0 ==> Ramp(g, lo, b, x) <= Ramp(g, lo, b, y)
    ensures g <= 0.0 ==> Ramp(g, lo, b, x) >= Ramp(g, lo, b, y)
  {
    LineMonotone(g, lo, b, x, y);
    Clip01Monotone(Line(g, lo, b, x), Line(g, lo, b, y));
    Clip01Monotone(Line(g, lo, b, y), Line(g, lo, b, x));
  }

  /** A line rises with a non-negative slope and falls with a non-positive one. */
  lemma LineMonotone(g: real, lo: real, b: real, x: real, y: real)
    requires x <= y
    ensures g >= 0.0 ==> Line(g, lo, b, x) <= Line(g, lo, b, y)
    ensures g <= 0.0 ==> Line(g, lo, b, x) >= Line(g, lo, b, y)
  {
    if g >= 0.0 {
      MulMono(g, x - lo, y - lo);
    } else {
      MulMono(-g, x - lo, y - lo);
      NegMul(g, x - lo);
      NegMul(g, y - lo);
    }
  }

  /** The complement of a line through height `b` is the mirrored line through `1 - b`. */
  lemma LineComplement(g: real, lo: real, b: real, c: real, x: real)
    requires b + c == 1.0
    ensures 1.0 - Line(g, lo, b, x) == Line(-g, lo, c, x)
  {
    NegMul(g, x - lo);
  }

  lemma Clip01Monotone(u: real, v: real)
    ensures u <= v ==> Clip01(u) <= Clip01(v)
  {
  }

  /** The value `bounded_linear` starts from at `low`: `noM`, or `cM` when `inverse`. */
  function BoundedLinearBase(cM: real, noM: real, inverse: bool): real
  {
    if inverse then cM else noM
  }

  /** The gradient of `bounded_linear`, after the swap that `inverse` makes. */
  function BoundedLinearGradient(low: real, high: real, cM: real, noM: real, inverse: bool): real
    requires low < high
  {
    var top := if inverse then noM else cM;
    var bottom := if inverse then cM else noM;
    (top - bottom) / (high - low)
  }

  lemma BoundedLinearGradientSign(low: real, high: real, cM: real, noM: real, inverse: bool)
    requires low < high && cM > noM
    ensures !inverse ==> BoundedLinearGradient(low, high, cM, noM, inverse) > 0.0
    ensures inverse ==> BoundedLinearGradient(low, high, cM, noM, inverse) < 0.0
  {
    DivPos(cM - noM, high - low);
    assert noM - cM == -(cM - noM);
  }

  /**
   * `bounded_linear(low, high, c_m, no_m, inverse)` at one point: the line
   * through (low, no_m) and (high, c_m), with the two values swapped when
   * `inverse`, clipped into [0, 1].  A zero or infinite gradient cannot arise
   * over the reals once `cM > noM` and `low < high`.
   */
  function BoundedLinearAt(low: real, high: real, cM: real, noM: real, inverse: bool, x: real): real
    requires low < high
    requires cM > noM
  {
    Ramp(BoundedLinearGradient(low, high, cM, noM, inverse), low, BoundedLinearBase(cM, noM, inverse), x)
  }

  /** `bounded_linear(low, high, c_m, no_m, inverse)` as a closure. */
  function BoundedLinear(low: real, high: real, cM: real, noM: real, inverse: bool): (f: Membership)
    requires low < high
    requires cM > noM
    ensures forall x :: f(x) == BoundedLinearAt(low, high, cM, noM, inverse, x)
    ensures forall x :: InUnit(f(x))
    ensures InUnit(noM) && InUnit(cM) ==>
      f(low) == BoundedLinearBase(cM, noM, inverse) && f(high) == BoundedLinearBase(noM, cM, inverse)
    ensures forall x, y :: x <= y ==> if inverse then f(y) <= f(x) else f(x) <= f(y)
  {
    assert InUnit(noM) && InUnit(cM) ==>
      BoundedLinearAt(low, high, cM, noM, inverse, low) == BoundedLinearBase(cM, noM, inverse)
      && BoundedLinearAt(low, high, cM, noM, inverse, high) == BoundedLinearBase(noM, cM, inverse) by {
      if InUnit(noM) && InUnit(cM) { BoundedLinearEndpoints(low, high, cM, noM, inverse); }
    }
    assert forall x, y :: x <= y ==>
      if inverse then BoundedLinearAt(low, high, cM, noM, inverse, y) <= BoundedLinearAt(low, high, cM, noM, inverse, x)
      else BoundedLinearAt(low, high, cM, noM, inverse, x) <= BoundedLinearAt(low, high, cM, noM, inverse, y) by {
      forall x, y | x <= y
        ensures if inverse then BoundedLinearAt(low, high, cM, noM, inverse, y) <= BoundedLinearAt(low, high, cM, noM, inverse, x)
                else BoundedLinearAt(low, high, cM, noM, inverse, x) <= BoundedLinearAt(low, high, cM, noM, inverse, y)
      {
        BoundedLinearMonotone(low, high, cM, noM, inverse, x, y);
      }
    }
    x => BoundedLinearAt(low, high, cM, noM, inverse, x)
  }

  /** The line from (lo, bottom) to (lo + span, top), sampled inside that span, has the two-point form and stays between the two values. */
  lemma AffineOnUnit(lo: real, span: real, x: real, bottom: real, top: real)
    requires span > 0.0 && 0.0 <= x - lo <= span
    ensures Line((top - bottom) / span, lo, bottom, x) == bottom + (top - bottom) * ((x - lo) / span)
    ensures Min2(bottom, top) <= Line((top - bottom) / span, lo, bottom, x) <= Max2(bottom, top)
  {
    var t := (x - lo) / span;
    UnitRatio(x - lo, span);
    DivMulSwap(top - bottom, span, x - lo);
    if top >= bottom {
      ScaledUnit(top - bottom, t);
    } else {
      ScaledUnit(bottom - top, t);
      assert (top - bottom) * t == -((bottom - top) * t);
    }
  }

  /** Between the anchors the bounded line is the two-point line formula. */
  lemma BoundedLinearInterpolates(low: real, high: real, cM: real, noM: real, x: real)
    requires low < high && noM < cM
    requires InUnit(noM) && InUnit(cM)
    requires low <= x <= high
    ensures BoundedLinearAt(low, high, cM, noM, false, x)
         == noM + (cM - noM) * ((x - low) / (high - low))
    ensures BoundedLinearAt(low, high, cM, noM, true, x)
         == cM - (cM - noM) * ((x - low) / (high - low))
  {
    var t := (x - low) / (high - low);
    var up, down := (cM - noM) / (high - low), (noM - cM) / (high - low);
    assert BoundedLinearGradient(low, high, cM, noM, false) == up;
    assert BoundedLinearGradient(low, high, cM, noM, true) == down;
    AffineOnUnit(low, high - low, x, noM, cM);
    AffineOnUnit(low, high - low, x, cM, noM);
    assert Line(up, low, noM, x) == noM + (cM - noM) * t;
    assert Line(down, low, cM, x) == cM + (noM - cM) * t;
    assert (noM - cM) * t == -((cM - noM) * t);
    assert BoundedLinearAt(low, high, cM, noM, false, x) == Clip01(Line(up, low, noM, x));
    assert BoundedLinearAt(low, high, cM, noM, true, x) == Clip01(Line(down, low, cM, x));
  }

  /** The value of the bounded line at its two anchors. */
  lemma BoundedLinearEndpoints(low: real, high: real, cM: real, noM: real, inverse: bool)
    requires low < high && noM < cM
    requires InUnit(noM) && InUnit(cM)
    ensures !inverse ==> BoundedLinearAt(low, high, cM, noM, inverse, low) == noM
    ensures !inverse ==> BoundedLinearAt(low, high, cM, noM, inverse, high) == cM
    ensures inverse ==> BoundedLinearAt(low, high, cM, noM, inverse, low) == cM
    ensures inverse ==> BoundedLinearAt(low, high, cM, noM, inverse, high) == noM
  {
    BoundedLinearInterpolates(low, high, cM, noM, low);
    BoundedLinearInterpolates(low, high, cM, noM, high);
    assert (high - low) / (high - low) == 1.0;
  }

  /** Between its anchors the bounded line stays between its two values. */
  lemma BoundedLinearBetween(low: real, high: real, cM: real, noM: real, inverse: bool, x: real)
    requires low < high && noM < cM
    requires InUnit(noM) && InUnit(cM)
    requires low <= x <= high
    ensures noM <= BoundedLinearAt(low, high, cM, noM, inverse, x) <= cM
  {
    BoundedLinearInterpolates(low, high, cM, noM, x);
    UnitRatio(x - low, high - low);
    OnUnitBetween(noM, cM, (x - low) / (high - low));
    BetweenAtOffset(low, high, cM, noM, inverse, x, (cM - noM) * ((x - low) / (high - low)));
  }

  /** A value of the bounded line that is an offset d into the span between the two values lies between them. */
  lemma BetweenAtOffset(low: real, high: real, cM: real, noM: real, inverse: bool, x: real, d: real)
    requires low < high && noM < cM && 0.0 <= d <= cM - noM
    requires BoundedLinearAt(low, high, cM, noM, false, x) == noM + d
    requires BoundedLinearAt(low, high, cM, noM, true, x) == cM - d
    ensures noM <= BoundedLinearAt(low, high, cM, noM, inverse, x) <= cM
  {
  }

  /** Moving a fraction t of the way from one value to another, from either end, stays between them. */
  lemma OnUnitBetween(bottom: real, top: real, t: real)
    requires bottom <= top && 0.0 <= t <= 1.0
    ensures 0.0 <= (top - bottom) * t <= top - bottom
    ensures bottom <= bottom + (top - bottom) * t <= top
    ensures bottom <= top - (top - bottom) * t <= top
  {
    var k := top - bottom;
    MulMono(k, t, 1.0);
    MulMono(k, 0.0, t);
  }

  /** Every value of the bounded line lies in [0, 1]. */
  lemma BoundedLinearInUnit(low: real, high: real, cM: real, noM: real, inverse: bool, x: real)
    requires low < high && noM < cM
    ensures InUnit(BoundedLinear(low, high, cM, noM, inverse)(x))
  {
  }

  /** The bounded line rises, or falls when `inverse`. */
  lemma BoundedLinearMonotone(low: real, high: real, cM: real, noM: real, inverse: bool,
                              x: real, y: real)
    requires low < high && noM < cM
    requires x <= y
    ensures !inverse ==>
      BoundedLinearAt(low, high, cM, noM, inverse, x) <= BoundedLinearAt(low, high, cM, noM, inverse, y)
    ensures inverse ==>
      BoundedLinearAt(low, high, cM, noM, inverse, x) >= BoundedLinearAt(low, high, cM, noM, inverse, y)
  {
    BoundedLinearGradientSign(low, high, cM, noM, inverse);
    RampMonotone(BoundedLinearGradient(low, high, cM, noM, inverse), low,
                 BoundedLinearBase(cM, noM, inverse), x, y);
  }

  /** The doctest of `bounded_linear(2, 3)`. */
  lemma BoundedLinearExamples()
    ensures BoundedLinear(2.0, 3.0, 1.0, 0.0, false)(1.0) == 0.0
    ensures BoundedLinear(2.0, 3.0, 1.0, 0.0, false)(2.0) == 0.0
    ensures BoundedLinear(2.0, 3.0, 1.0, 0.0, false)(2.5) == 0.5
    ensures BoundedLinear(2.0, 3.0, 1.0, 0.0, false)(3.0) == 1.0
    ensures BoundedLinear(2.0, 3.0, 1.0, 0.0, false)(4.0) == 1.0
  {
  }

  /** `R(low, high)` at one point: a rising ramp from 0 at `low` to 1 at `high`. */
  function RAt(low: real, high: real, x: real): real
    requires low < high
  {
    if x < low then 0.0
    else if low <= x <= high then (x - low) / (high - low)
    else 1.0
  }

  /** `R(low, high)` as a closure. */
  function R(low: real, high: real): (f: Membership)
    requires low < high
    ensures forall x :: f(x) == RAt(low, high, x)
    ensures forall x :: InUnit(f(x))
  {
    assert forall x :: InUnit(RAt(low, high, x)) by {
      forall x ensures InUnit(RAt(low, high, x)) {
        RIsBoundedLinear(low, high, x);
      }
    }
    x => RAt(low, high, x)
  }

  /** `R` is the default bounded line, so it stays in [0, 1]. */
  lemma RIsBoundedLinear(low: real, high: real, x: real)
    requires low < high
    ensures RAt(low, high, x) == BoundedLinearAt(low, high, 1.0, 0.0, false, x)
    ensures InUnit(RAt(low, high, x))
    ensures RAt(low, high, low) == 0.0 && RAt(low, high, high) == 1.0
  {
    if low <= x <= high {
      BoundedLinearInterpolates(low, high, 1.0, 0.0, x);
    } else if x < low {
      BoundedLinearMonotone(low, high, 1.0, 0.0, false, x, low);
      BoundedLinearEndpoints(low, high, 1.0, 0.0, false);
    } else {
      BoundedLinearMonotone(low, high, 1.0, 0.0, false, high, x);
      BoundedLinearEndpoints(low, high, 1.0, 0.0, false);
    }
  }

  /** `S(low, high)` at one point: a falling ramp from 1 at `low` to 0 at `high`. */
  function SAt(low: real, high: real, x: real): real
    requires low < high
  {
    if x <= low then 1.0
    else if low < x < high then high / (high - low) - x / (high - low)
    else 0.0
  }

  /** `S(low, high)` as a closure. */
  function S(low: real, high: real): (f: Membership)
    requires low < high
    ensures forall x :: f(x) == SAt(low, high, x)
    ensures forall x :: InUnit(f(x))
  {
    assert forall x :: InUnit(SAt(low, high, x)) by {
      forall x ensures InUnit(SAt(low, high, x)) {
        SIsInvR(low, high, x);
      }
    }
    x => SAt(low, high, x)
  }

  /** `S` is the complement of `R`, and the inverse default bounded line. */
  lemma SIsInvR(low: real, high: real, x: real)
    requires low < high
    ensures SAt(low, high, x) == 1.0 - RAt(low, high, x)
    ensures SAt(low, high, x) == BoundedLinearAt(low, high, 1.0, 0.0, true, x)
    ensures InUnit(SAt(low, high, x))
  {
    RIsBoundedLinear(low, high, x);
    if low < x < high {
      assert high / (high - low) - x / (high - low) == (high - x) / (high - low);
      assert 1.0 - (x - low) / (high - low) == (high - x) / (high - low) by {
        assert (high - low) / (high - low) == 1.0;
      }
      BoundedLinearInterpolates(low, high, 1.0, 0.0, x);
    } else if x <= low {
      BoundedLinearEndpoints(low, high, 1.0, 0.0, true);
      BoundedLinearMonotone(low, high, 1.0, 0.0, true, x, low);
    } else {
      BoundedLinearEndpoints(low, high, 1.0, 0.0, true);
      BoundedLinearMonotone(low, high, 1.0, 0.0, true, high, x);
    }
  }

  /** `rectangular(low, high)`: `cM` on the closed interval, `noM` elsewhere. */
  function Rectangular(low: real, high: real, cM: real, noM: real): (f: Membership)
    requires low < high
    ensures forall x :: low <= x <= high ==> f(x) == cM
    ensures forall x :: x < low || high < x ==> f(x) == noM
    ensures InUnit(cM) && InUnit(noM) ==> forall x :: InUnit(f(x))
  {
    x => if x < low || high < x then noM else cM
  }

  lemma RectangularValues(low: real, high: real, cM: real, noM: real, x: real)
    requires low < high
    ensures Rectangular(low, high, cM, noM)(x) == (if low <= x <= high then cM else noM)
    ensures InUnit(cM) && InUnit(noM) ==> InUnit(Rectangular(low, high, cM, noM)(x))
  {
  }

  /** The peak of `triangular`: `c`, or the midpoint when it is not given. */
  function Peak(low: real, high: real, c: Option<real>): real
  {
    c.GetOr((low + high) / 2.0)
  }

  /**
   * `triangular(low, high, c, c_m, no_m)` at one point: a rising bounded line
   * up to the peak, and the complement of a rising bounded line after it.
   * The two inner `bounded_linear` calls additionally demand `cM > 0`; `noM`
   * is only checked, never used.
   */
  function TriangularAt(low: real, high: real, c: Option<real>, cM: real, noM: real, x: real): real
    requires low < high
    requires noM < cM
    requires low < Peak(low, high, c) < high
    requires cM > 0.0
  {
    var p := Peak(low, high, c);
    if x <= p then BoundedLinearAt(low, p, cM, 0.0, false, x)
    else 1.0 - BoundedLinearAt(p, high, cM, 0.0, false, x)
  }

  /** `triangular(...)` as a closure. */
  function Triangular(low: real, high: real, c: Option<real>, cM: real, noM: real): (f: Membership)
    requires low < high
    requires noM < cM
    requires low < Peak(low, high, c) < high
    requires cM > 0.0
    ensures forall x :: f(x) == TriangularAt(low, high, c, cM, noM, x)
    ensures forall x :: InUnit(f(x))
    ensures cM == 1.0 ==> f(Peak(low, high, c)) == 1.0
    ensures cM == 1.0 ==> forall x :: x <= low || x >= high ==> f(x) == 0.0
  {
    assert cM == 1.0 ==> (TriangularAt(low, high, c, cM, noM, Peak(low, high, c)) == 1.0
      && forall x :: x <= low || x >= high ==> TriangularAt(low, high, c, cM, noM, x) == 0.0) by {
      if cM == 1.0 {
        TriangularShape(low, high, c, noM, low);
        forall x | x <= low || x >= high ensures TriangularAt(low, high, c, cM, noM, x) == 0.0 {
          TriangularShape(low, high, c, noM, x);
        }
      }
    }
    x => TriangularAt(low, high, c, cM, noM, x)
  }

  /** With a unit peak the triangle rises from 0 at `low` to 1 at the peak and falls back to 0 at `high`. */
  lemma TriangularShape(low: real, high: real, c: Option<real>, noM: real, x: real)
    requires low < high && noM < 1.0
    requires low < Peak(low, high, c) < high
    ensures TriangularAt(low, high, c, 1.0, noM, low) == 0.0
    ensures TriangularAt(low, high, c, 1.0, noM, Peak(low, high, c)) == 1.0
    ensures TriangularAt(low, high, c, 1.0, noM, high) == 0.0
    ensures x <= low || x >= high ==> TriangularAt(low, high, c, 1.0, noM, x) == 0.0
    ensures InUnit(TriangularAt(low, high, c, 1.0, noM, x))
  {
    var p := Peak(low, high, c);
    BoundedLinearEndpoints(low, p, 1.0, 0.0, false);
    BoundedLinearEndpoints(p, high, 1.0, 0.0, false);
    if x <= low {
      BoundedLinearMonotone(low, p, 1.0, 0.0, false, x, low);
    } else if x >= high {
      BoundedLinearMonotone(p, high, 1.0, 0.0, false, high, x);
    }
  }

  /** For any admissible peak height all values stay in [0, 1]. */
  lemma TriangularInUnit(low: real, high: real, c: Option<real>, cM: real, noM: real, x: real)
    requires low < high && noM < cM && cM > 0.0
    requires low < Peak(low, high, c) < high
    ensures InUnit(Triangular(low, high, c, cM, noM)(x))
  {
  }

  /**
   * The triangle the constructor evidently means: the falling side is the
   * inverse bounded line from `cM` at the peak down to 0 at `high`, as in
   * `trapezoid`, instead of the complement of a rising one.
   */
  function TriangularPeakedAt(low: real, high: real, c: Option<real>, cM: real, noM: real, x: real): real
    requires low < high
    requires noM < cM
    requires low < Peak(low, high, c) < high
    requires cM > 0.0
  {
    var p := Peak(low, high, c);
    if x <= p then BoundedLinearAt(low, p, cM, 0.0, false, x)
    else BoundedLinearAt(p, high, cM, 0.0, true, x)
  }

  /**
   * As written, a peak height below 1 is not the maximum: with cM = 1/2 on
   * [0, 2] the value at the peak 1 is 1/2 but the value at 3/2 is 3/4, and the
   * value at the upper end is 1 - cM instead of 0.
   */
  lemma TriangularOvershootsPeak()
    ensures TriangularAt(0.0, 2.0, Some(1.0), 0.5, 0.0, 1.0) == 0.5
    ensures TriangularAt(0.0, 2.0, Some(1.0), 0.5, 0.0, 1.5) == 0.75
    ensures TriangularAt(0.0, 2.0, Some(1.0), 0.5, 0.0, 2.0) == 0.5
  {
  }

  lemma Clip01Complement(y: real)
    ensures 1.0 - Clip01(y) == Clip01(1.0 - y)
  {
  }

  /** The corrected triangle peaks at `cM`, is 0 at and beyond both ends, and never exceeds `cM`. */
  lemma TriangularPeakedShape(low: real, high: real, c: Option<real>, cM: real, noM: real, x: real)
    requires low < high && noM < cM && 0.0 < cM <= 1.0
    requires low < Peak(low, high, c) < high
    ensures TriangularPeakedAt(low, high, c, cM, noM, Peak(low, high, c)) == cM
    ensures TriangularPeakedAt(low, high, c, cM, noM, low) == 0.0
    ensures TriangularPeakedAt(low, high, c, cM, noM, high) == 0.0
    ensures 0.0 <= TriangularPeakedAt(low, high, c, cM, noM, x) <= cM
    ensures x <= low || x >= high ==> TriangularPeakedAt(low, high, c, cM, noM, x) == 0.0
  {
    var p := Peak(low, high, c);
    BoundedLinearEndpoints(low, p, cM, 0.0, false);
    BoundedLinearEndpoints(p, high, cM, 0.0, true);
    if x < low {
      BoundedLinearMonotone(low, p, cM, 0.0, false, x, low);
    } else if x <= p {
      BoundedLinearBetween(low, p, cM, 0.0, false, x);
    } else if x <= high {
      BoundedLinearBetween(p, high, cM, 0.0, true, x);
    } else {
      BoundedLinearMonotone(p, high, cM, 0.0, true, high, x);
    }
  }

  /** With a unit peak the corrected triangle is the one the constructor builds. */
  lemma TriangularPeakedAgrees(low: real, high: real, c: Option<real>, noM: real, x: real)
    requires low < high && noM < 1.0
    requires low < Peak(low, high, c) < high
    ensures TriangularPeakedAt(low, high, c, 1.0, noM, x) == TriangularAt(low, high, c, 1.0, noM, x)
  {
    var p := Peak(low, high, c);
    if x > p {
      var g := BoundedLinearGradient(p, high, 1.0, 0.0, false);
      assert BoundedLinearGradient(p, high, 1.0, 0.0, true) == -g;
      Clip01Complement(g * (x - p));
      assert 1.0 - g * (x - p) == (-g) * (x - p) + 1.0;
    }
  }

  /**
   * `trapezoid(low, c_low, c_high, high, c_m, no_m)` at one point: `noM`
   * outside [low, high], `cM` on the core [cLow, cHigh], bounded lines between.
   */
  function TrapezoidAt(low: real, cLow: real, cHigh: real, high: real, cM: real, noM: real, x: real): real
    requires low < cLow <= cHigh < high
    requires 0.0 <= noM < cM <= 1.0
  {
    if x < low || high < x then noM
    else if x < cLow then BoundedLinearAt(low, cLow, cM, noM, false, x)
    else if x > cHigh then BoundedLinearAt(cHigh, high, cM, noM, true, x)
    else cM
  }

  /** `trapezoid(...)` as a closure. */
  function Trapezoid(low: real, cLow: real, cHigh: real, high: real, cM: real, noM: real): (f: Membership)
    requires low < cLow <= cHigh < high
    requires 0.0 <= noM < cM <= 1.0
    ensures forall x :: f(x) == TrapezoidAt(low, cLow, cHigh, high, cM, noM, x)
    ensures forall x :: x < low || high < x ==> f(x) == noM
    ensures forall x :: cLow <= x <= cHigh ==> f(x) == cM
    ensures forall x :: noM <= f(x) <= cM
  {
    assert forall x :: noM <= TrapezoidAt(low, cLow, cHigh, high, cM, noM, x) <= cM by {
      forall x ensures noM <= TrapezoidAt(low, cLow, cHigh, high, cM, noM, x) <= cM {
        TrapezoidShape(low, cLow, cHigh, high, cM, noM, x);
      }
    }
    x => TrapezoidAt(low, cLow, cHigh, high, cM, noM, x)
  }

  /** The trapezoid is `noM` outside its support, `cM` on its core, and between the two elsewhere. */
  lemma TrapezoidShape(low: real, cLow: real, cHigh: real, high: real, cM: real, noM: real, x: real)
    requires low < cLow <= cHigh < high
    requires 0.0 <= noM < cM <= 1.0
    ensures x < low || high < x ==> TrapezoidAt(low, cLow, cHigh, high, cM, noM, x) == noM
    ensures cLow <= x <= cHigh ==> TrapezoidAt(low, cLow, cHigh, high, cM, noM, x) == cM
    ensures noM <= TrapezoidAt(low, cLow, cHigh, high, cM, noM, x) <= cM
  {
    if low <= x < cLow {
      BoundedLinearBetween(low, cLow, cM, noM, false, x);
    } else if cHigh < x <= high {
      BoundedLinearBetween(cHigh, high, cM, noM, true, x);
    }
  }
}
