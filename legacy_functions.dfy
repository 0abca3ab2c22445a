/**
 * The older membership-function constructors of the `fuzzy` package.  Most
 * reject bad parameters by raising `ValueError`; `alpha` and `singleton`
 * assert instead.  Both are modelled as `Err`.
 * `inv`, `noop`, `constant` and `linear` there are the same closures as in
 * the current package and are not repeated.
 */
module LegacyFunctions {
  import opened Wrappers
  import opened Reals
  import Functions
  import opened Combinators

  type Membership = Functions.Membership

  /** The three assertions of the old `alpha`. */
  predicate AlphaArgsOk(floor: real, ceiling: real)
  {
    floor <= ceiling && 0.0 <= floor && ceiling <= 1.0
  }

  /**
   * `alpha(floor, ceiling, func)`: the current `alpha` with its default
   * clips; a floor above the ceiling or bounds outside [0, 1] fail an
   * assertion.
   */
  function Alpha(floor: real, ceiling: real, func: Membership): (r: Result<Membership>)
    ensures r.Err? <==> !AlphaArgsOk(floor, ceiling)
    ensures r.Err? ==> r.error.AssertionError?
    ensures r.Ok? ==> forall x :: floor <= r.value(x) <= ceiling
    ensures r.Ok? ==> forall x :: floor < func(x) < ceiling ==> r.value(x) == func(x)
  {
    if !(floor <= ceiling) then Err(AssertionError("floor <= ceiling"))
    else if !(0.0 <= floor) then Err(AssertionError("0 <= floor"))
    else if !(ceiling <= 1.0) then Err(AssertionError("1 >= ceiling"))
    else Ok(Functions.Alpha(floor, ceiling, func, None, None))
  }

  /** The old `alpha` fails exactly on bad bounds, and otherwise clamps into [floor, ceiling], testing the ceiling first. */
  lemma AlphaClamps(floor: real, ceiling: real, func: Membership, x: real)
    ensures Alpha(floor, ceiling, func).Err? <==> !AlphaArgsOk(floor, ceiling)
    ensures AlphaArgsOk(floor, ceiling) && func(x) >= ceiling ==> Alpha(floor, ceiling, func).value(x) == ceiling
    ensures AlphaArgsOk(floor, ceiling) && func(x) < ceiling && func(x) <= floor ==> Alpha(floor, ceiling, func).value(x) == floor
    ensures AlphaArgsOk(floor, ceiling) && floor < func(x) < ceiling ==> Alpha(floor, ceiling, func).value(x) == func(x)
  {
    if AlphaArgsOk(floor, ceiling) {
      Functions.AlphaIsClamp(floor, ceiling, func, x);
    }
  }

  /**
   * `singleton(p, non_p_m, p_m)`: both values only have to lie in [0, 1]; a
   * value outside fails an assertion.
   */
  function Singleton(p: real, nonPM: real, pM: real): (r: Result<Membership>)
    ensures r.Err? <==> !(InUnit(pM) && InUnit(nonPM))
    ensures r.Err? ==> r.error.AssertionError?
    ensures r.Ok? ==> r.value(p) == pM
    ensures r.Ok? ==> forall x :: x != p ==> r.value(x) == nonPM
    ensures r.Ok? ==> forall x :: InUnit(r.value(x))
  {
    if !InUnit(pM) then Err(AssertionError("0 <= p_m <= 1"))
    else if !InUnit(nonPM) then Err(AssertionError("0 <= non_p_m <= 1"))
    else Ok(x => if x == p then pM else nonPM)
  }

  /** The old spike fails exactly on values outside [0, 1], and is otherwise `pM` at `p` and `nonPM` elsewhere. */
  lemma SingletonSpike(p: real, nonPM: real, pM: real, x: real)
    ensures Singleton(p, nonPM, pM).Err? <==> !InUnit(pM) || !InUnit(nonPM)
    ensures Singleton(p, nonPM, pM).Ok? ==> Singleton(p, nonPM, pM).value(p) == pM
    ensures Singleton(p, nonPM, pM).Ok? && x != p ==> Singleton(p, nonPM, pM).value(x) == nonPM
    ensures Singleton(p, nonPM, pM).Ok? ==> InUnit(Singleton(p, nonPM, pM).value(x))
  {
  }

  /** `bounded_linear(low, high, core_m, unsupported_m)`: raises when `high <= low`; no order is demanded of the two values. */
  function BoundedLinear(low: real, high: real, coreM: real, unsupportedM: real): (r: Result<Membership>)
    ensures r.Err? <==> high <= low
    ensures r.Ok? ==> forall x :: InUnit(r.value(x))
    ensures r.Ok? && InUnit(coreM) && InUnit(unsupportedM) ==>
      r.value(low) == unsupportedM && r.value(high) == coreM
  {
    if high <= low then Err(ValueError("high must not be less than low."))
    else
      var gradient := (coreM - unsupportedM) / (high - low);
      DivThenMul(coreM - unsupportedM, high - low);
      RampAnchors(low, high, coreM, unsupportedM, gradient);
      Ok(x => Functions.Ramp(gradient, low, unsupportedM, x))
  }

  /** A ramp of slope `(coreM - unsupportedM) / (high - low)` from (low, unsupportedM) reaches coreM at high. */
  lemma RampAnchors(low: real, high: real, coreM: real, unsupportedM: real, g: real)
    requires low < high && coreM - unsupportedM == g * (high - low)
    ensures InUnit(unsupportedM) ==> Functions.Ramp(g, low, unsupportedM, low) == unsupportedM
    ensures InUnit(coreM) ==> Functions.Ramp(g, low, unsupportedM, high) == coreM
  {
    assert Functions.Line(g, low, unsupportedM, low) == unsupportedM;
    assert Functions.Line(g, low, unsupportedM, high) == coreM;
  }

  /** The old bounded line fails exactly on an empty interval, passes through both anchors and stays in [0, 1]. */
  lemma BoundedLinearFacts(low: real, high: real, coreM: real, unsupportedM: real, x: real)
    ensures BoundedLinear(low, high, coreM, unsupportedM).Err? <==> high <= low
    ensures BoundedLinear(low, high, coreM, unsupportedM).Ok? ==>
      InUnit(BoundedLinear(low, high, coreM, unsupportedM).value(x))
    ensures BoundedLinear(low, high, coreM, unsupportedM).Ok? && InUnit(coreM) && InUnit(unsupportedM) ==>
      BoundedLinear(low, high, coreM, unsupportedM).value(low) == unsupportedM
      && BoundedLinear(low, high, coreM, unsupportedM).value(high) == coreM
  {
    if low < high {
      var g := (coreM - unsupportedM) / (high - low);
      DivThenMul(coreM - unsupportedM, high - low);
      RampAnchors(low, high, coreM, unsupportedM, g);
    }
  }

  /** With `core_m > unsupported_m` the old bounded line is the current one. */
  lemma BoundedLinearAgrees(low: real, high: real, coreM: real, unsupportedM: real, x: real)
    requires low < high && coreM > unsupportedM
    ensures BoundedLinear(low, high, coreM, unsupportedM).value(x)
         == Functions.BoundedLinearAt(low, high, coreM, unsupportedM, false, x)
  {
  }

  /** The doctest of `bounded_linear(2, 3)`. */
  lemma BoundedLinearExamples()
    ensures BoundedLinear(2.0, 3.0, 1.0, 0.0).Ok?
    ensures BoundedLinear(2.0, 3.0, 1.0, 0.0).value(1.0) == 0.0
    ensures BoundedLinear(2.0, 3.0, 1.0, 0.0).value(2.5) == 0.5
    ensures BoundedLinear(2.0, 3.0, 1.0, 0.0).value(4.0) == 1.0
  {
    var f := BoundedLinear(2.0, 3.0, 1.0, 0.0).value;
    assert (1.0 - 0.0) / (3.0 - 2.0) == 1.0;
    assert f(1.0) == Functions.Ramp(1.0, 2.0, 0.0, 1.0);
    assert f(2.5) == Functions.Ramp(1.0, 2.0, 0.0, 2.5);
    assert f(4.0) == Functions.Ramp(1.0, 2.0, 0.0, 4.0);
  }

  /** `R(left, right)`: raises when `left >= right`, otherwise the current rising ramp. */
  function R(left: real, right: real): (r: Result<Membership>)
    ensures r.Err? <==> left >= right
    ensures r.Ok? ==> forall x :: InUnit(r.value(x))
    ensures r.Ok? ==> r.value(left) == 0.0 && r.value(right) == 1.0
  {
    if left >= right then Err(ValueError("left must be less than right."))
    else Ok(Functions.R(left, right))
  }

  lemma RFacts(left: real, right: real, x: real)
    ensures R(left, right).Err? <==> left >= right
    ensures R(left, right).Ok? ==>
      (x < left ==> R(left, right).value(x) == 0.0)
      && (left <= x <= right ==> R(left, right).value(x) == (x - left) / (right - left))
      && (x > right ==> R(left, right).value(x) == 1.0)
  {
  }

  /** The old falling ramp at one point; its closure always reaches one of the three returns. */
  function SAt(left: real, right: real, x: real): real
    requires left < right
  {
    if x < left then 1.0
    else if left <= x <= right then (right - x) / (right - left)
    else 0.0
  }

  /** `S(left, right)`: raises when `left >= right`. */
  function S(left: real, right: real): (r: Result<Membership>)
    ensures r.Err? <==> left >= right
    ensures r.Ok? ==> forall x :: r.value(x) == Functions.SAt(left, right, x)
    ensures r.Ok? ==> forall x :: InUnit(r.value(x))
  {
    if left >= right then Err(ValueError("left must be less than right."))
    else
      assert forall x :: SAt(left, right, x) == Functions.SAt(left, right, x) by {
        forall x ensures SAt(left, right, x) == Functions.SAt(left, right, x) {
          SAtAgrees(left, right, x);
        }
      }
      assert forall x :: InUnit(Functions.S(left, right)(x));
      Ok(x => SAt(left, right, x))
  }

  /** The old falling ramp fails exactly on an empty interval and coincides with the current `S`. */
  lemma SFacts(left: real, right: real, x: real)
    ensures S(left, right).Err? <==> left >= right
    ensures S(left, right).Ok? ==> S(left, right).value(x) == Functions.SAt(left, right, x)
    ensures S(left, right).Ok? ==> InUnit(S(left, right).value(x))
  {
    if left < right {
      SAtAgrees(left, right, x);
      Functions.SIsInvR(left, right, x);
    }
  }

  /** At every point the old falling ramp has the value of the current one. */
  lemma SAtAgrees(left: real, right: real, x: real)
    requires left < right
    ensures SAt(left, right, x) == Functions.SAt(left, right, x)
  {
    if left < x < right {
      assert (right - x) / (right - left) == right / (right - left) - x / (right - left);
    } else if x == left {
      assert (right - x) / (right - left) == 1.0;
    }
  }

  /** `rectangular(left, right, core_m, unsupported_m)`: raises only when `left > right`. */
  function Rectangular(left: real, right: real, coreM: real, unsupportedM: real): (r: Result<Membership>)
    ensures r.Err? <==> left > right
    ensures r.Ok? ==> forall x :: left <= x <= right ==> r.value(x) == coreM
    ensures r.Ok? ==> forall x :: x < left || right < x ==> r.value(x) == unsupportedM
  {
    if left > right then Err(ValueError("left must not be greater than right."))
    else Ok(x => if x < left then unsupportedM else if x <= right then coreM else unsupportedM)
  }

  lemma RectangularFacts(left: real, right: real, coreM: real, unsupportedM: real, x: real)
    ensures Rectangular(left, right, coreM, unsupportedM).Err? <==> left > right
    ensures Rectangular(left, right, coreM, unsupportedM).Ok? ==>
      Rectangular(left, right, coreM, unsupportedM).value(x)
      == (if left <= x <= right then coreM else unsupportedM)
    ensures Rectangular(left, left, coreM, unsupportedM).value(left) == coreM
  {
  }

  /**
   * `triangular(left, right, p, p_m, unsupported_m)`: raises when
   * `left > right` or the peak lies outside [left, right], and the inner
   * `bounded_linear` calls also raise when the peak is one of the ends.
   */
  function Triangular(left: real, right: real, p: Option<real>, pM: real): (r: Result<Membership>)
    ensures var peak := p.GetOr((left + right) / 2.0); r.Err? <==> !(left < peak < right)
    ensures r.Ok? ==> forall x :: InUnit(r.value(x))
  {
    if left > right then Err(ValueError("left must not be greater than right."))
    else
      var peak := p.GetOr((left + right) / 2.0);
      if !(left <= peak <= right) then Err(ValueError("p must be between left and right."))
      else
        match BoundedLinear(left, peak, pM, 0.0)
        case Err(e) => Err(e)
        case Ok(leftSlope) =>
          match BoundedLinear(peak, right, pM, 0.0)
          case Err(e) => Err(e)
          case Ok(rising) =>
            var rightSlope := Functions.Inv(rising);
            Ok(x => if x <= peak then leftSlope(x) else rightSlope(x))
  }

  /** The old triangle fails exactly unless the peak lies strictly inside, and then follows the rising line up to it. */
  lemma TriangularFacts(left: real, right: real, p: Option<real>, pM: real, x: real)
    ensures var peak := p.GetOr((left + right) / 2.0);
      Triangular(left, right, p, pM).Err? <==> !(left < peak < right)
    ensures var peak := p.GetOr((left + right) / 2.0);
      Triangular(left, right, p, pM).Ok? && x <= peak ==>
      Triangular(left, right, p, pM).value(x) == BoundedLinear(left, peak, pM, 0.0).value(x)
  {
  }

  /** With a positive peak height the old triangle is the current one. */
  lemma TriangularAgrees(left: real, right: real, p: Option<real>, pM: real, noM: real, x: real)
    requires noM < pM && pM > 0.0
    requires left < Functions.Peak(left, right, p) < right
    ensures Triangular(left, right, p, pM).Ok?
    ensures Triangular(left, right, p, pM).value(x) == Functions.TriangularAt(left, right, p, pM, noM, x)
  {
  }

  predicate TrapezoidArgsOk(left: real, cLeft: real, cRight: real, right: real, cM: real, unsupportedM: real)
  {
    left < cLeft <= cRight < right && InUnit(cM) && InUnit(unsupportedM)
  }

  /** The right slope as written: the complement of the rising line from `unsupported_m` to `c_m`. */
  function TrapezoidRightAsWritten(cRight: real, right: real, cM: real, unsupportedM: real, x: real): real
    requires cRight < right
  {
    1.0 - Functions.Ramp((cM - unsupportedM) / (right - cRight), cRight, unsupportedM, x)
  }

  /** The right slope evidently meant: the falling line from `c_m` at `c_right` to `unsupported_m` at `right`. */
  function TrapezoidRightFalling(cRight: real, right: real, cM: real, unsupportedM: real, x: real): real
    requires cRight < right
  {
    Functions.Ramp((unsupportedM - cM) / (right - cRight), cRight, cM, x)
  }

  function TrapezoidShape(left: real, cLeft: real, cRight: real, right: real, cM: real, unsupportedM: real,
                          rightSlope: Membership, x: real): real
    requires left < cLeft
  {
    if x < left || right < x then unsupportedM
    else if x < cLeft then Functions.Ramp((cM - unsupportedM) / (cLeft - left), left, unsupportedM, x)
    else if x > cRight then rightSlope(x)
    else cM
  }

  /** `trapezoid(...)` as written: raises unless `left < c_left <= c_right < right` and both values lie in [0, 1]. */
  function TrapezoidAsWritten(left: real, cLeft: real, cRight: real, right: real, cM: real, unsupportedM: real)
    : (r: Result<Membership>)
    ensures r.Err? <==> !TrapezoidArgsOk(left, cLeft, cRight, right, cM, unsupportedM)
    ensures r.Ok? ==> forall x :: x < left || right < x ==> r.value(x) == unsupportedM
    ensures r.Ok? ==> forall x :: cLeft <= x <= cRight ==> r.value(x) == cM
    ensures r.Ok? ==> forall x :: InUnit(r.value(x))
  {
    if !(left < cLeft <= cRight < right) then Err(ValueError("NOT left < c_left <= c_right < right"))
    else if !InUnit(cM) then Err(ValueError("c_m invalid."))
    else if !InUnit(unsupportedM) then Err(ValueError("unsupported_m invalid."))
    else
      var rightSlope := x => TrapezoidRightAsWritten(cRight, right, cM, unsupportedM, x);
      Ok(x => TrapezoidShape(left, cLeft, cRight, right, cM, unsupportedM, rightSlope, x))
  }

  /** The trapezoid with the falling right slope; same checks. */
  function Trapezoid(left: real, cLeft: real, cRight: real, right: real, cM: real, unsupportedM: real)
    : (r: Result<Membership>)
    ensures r.Err? <==> !TrapezoidArgsOk(left, cLeft, cRight, right, cM, unsupportedM)
    ensures r.Ok? ==> forall x :: x < left || right < x ==> r.value(x) == unsupportedM
    ensures r.Ok? ==> forall x :: cLeft <= x <= cRight ==> r.value(x) == cM
    ensures r.Ok? ==> forall x :: InUnit(r.value(x))
  {
    if !(left < cLeft <= cRight < right) then Err(ValueError("NOT left < c_left <= c_right < right"))
    else if !InUnit(cM) then Err(ValueError("c_m invalid."))
    else if !InUnit(unsupportedM) then Err(ValueError("unsupported_m invalid."))
    else
      var rightSlope := x => TrapezoidRightFalling(cRight, right, cM, unsupportedM, x);
      Ok(x => TrapezoidShape(left, cLeft, cRight, right, cM, unsupportedM, rightSlope, x))
  }

  /**
   * As written, a core height below 1 makes the right slope jump: for
   * trapezoid(0, 1, 2, 3, c_m=1/2, unsupported_m=0) the value at 5/2 is 3/4,
   * above the core, where the falling line gives 1/4.
   */
  lemma TrapezoidRightSlopeJumps()
    ensures TrapezoidAsWritten(0.0, 1.0, 2.0, 3.0, 0.5, 0.0).Ok?
    ensures TrapezoidAsWritten(0.0, 1.0, 2.0, 3.0, 0.5, 0.0).value(2.0) == 0.5
    ensures TrapezoidAsWritten(0.0, 1.0, 2.0, 3.0, 0.5, 0.0).value(2.5) == 0.75
    ensures Trapezoid(0.0, 1.0, 2.0, 3.0, 0.5, 0.0).value(2.5) == 0.25
  {
  }

  /** Both variants fail on exactly the same parameters. */
  lemma TrapezoidErrors(left: real, cLeft: real, cRight: real, right: real, cM: real, unsupportedM: real)
    ensures TrapezoidAsWritten(left, cLeft, cRight, right, cM, unsupportedM).Err?
       <==> !TrapezoidArgsOk(left, cLeft, cRight, right, cM, unsupportedM)
    ensures Trapezoid(left, cLeft, cRight, right, cM, unsupportedM).Err?
       <==> !TrapezoidArgsOk(left, cLeft, cRight, right, cM, unsupportedM)
  {
  }

  /** The two right slopes agree exactly when the two heights add up to 1, e.g. the default 1 and 0. */
  lemma TrapezoidVariantsAgree(left: real, cLeft: real, cRight: real, right: real, cM: real, unsupportedM: real, x: real)
    requires TrapezoidArgsOk(left, cLeft, cRight, right, cM, unsupportedM)
    requires cM + unsupportedM == 1.0
    ensures TrapezoidAsWritten(left, cLeft, cRight, right, cM, unsupportedM).value(x)
         == Trapezoid(left, cLeft, cRight, right, cM, unsupportedM).value(x)
  {
    var d := right - cRight;
    var g := (cM - unsupportedM) / d;
    DivSub(cM, unsupportedM, d);
    DivSub(unsupportedM, cM, d);
    assert (unsupportedM - cM) / d == -g;
    Functions.LineComplement(g, cRight, unsupportedM, cM, x);
    Functions.Clip01Complement(Functions.Line(g, cRight, unsupportedM, x));
    assert TrapezoidRightAsWritten(cRight, right, cM, unsupportedM, x)
        == TrapezoidRightFalling(cRight, right, cM, unsupportedM, x);
    var asWritten := x => TrapezoidRightAsWritten(cRight, right, cM, unsupportedM, x);
    var falling := x => TrapezoidRightFalling(cRight, right, cM, unsupportedM, x);
    assert TrapezoidAsWritten(left, cLeft, cRight, right, cM, unsupportedM).value(x)
        == TrapezoidShape(left, cLeft, cRight, right, cM, unsupportedM, asWritten, x);
    assert Trapezoid(left, cLeft, cRight, right, cM, unsupportedM).value(x)
        == TrapezoidShape(left, cLeft, cRight, right, cM, unsupportedM, falling, x);
  }

  /** At `right` the slope as written gives `1 - c_m`, the falling slope `unsupported_m`. */
  lemma RightSlopesAtRight(cRight: real, right: real, cM: real, unsupportedM: real)
    requires cRight < right && InUnit(cM) && InUnit(unsupportedM)
    ensures TrapezoidRightAsWritten(cRight, right, cM, unsupportedM, right) == 1.0 - cM
    ensures TrapezoidRightFalling(cRight, right, cM, unsupportedM, right) == unsupportedM
  {
    var d := right - cRight;
    var g, h := (cM - unsupportedM) / d, (unsupportedM - cM) / d;
    assert g * d == cM - unsupportedM;
    assert h * d == unsupportedM - cM;
    assert Functions.Line(g, cRight, unsupportedM, right) == cM;
    assert Functions.Line(h, cRight, cM, right) == unsupportedM;
  }

  /**
   * Conversely, the two trapezoids agree at `right` only when the heights add
   * up to 1: there the one as written is `1 - c_m` and the corrected one `unsupported_m`.
   */
  lemma TrapezoidVariantsAgreeAtRight(left: real, cLeft: real, cRight: real, right: real, cM: real, unsupportedM: real)
    requires TrapezoidArgsOk(left, cLeft, cRight, right, cM, unsupportedM)
    ensures TrapezoidAsWritten(left, cLeft, cRight, right, cM, unsupportedM).value(right)
         == Trapezoid(left, cLeft, cRight, right, cM, unsupportedM).value(right)
       <==> cM + unsupportedM == 1.0
  {
    RightSlopesAtRight(cRight, right, cM, unsupportedM);
    var asWritten := x => TrapezoidRightAsWritten(cRight, right, cM, unsupportedM, x);
    var falling := x => TrapezoidRightFalling(cRight, right, cM, unsupportedM, x);
    assert TrapezoidAsWritten(left, cLeft, cRight, right, cM, unsupportedM).value(right)
        == TrapezoidShape(left, cLeft, cRight, right, cM, unsupportedM, asWritten, right)
        == 1.0 - cM;
    assert Trapezoid(left, cLeft, cRight, right, cM, unsupportedM).value(right)
        == TrapezoidShape(left, cLeft, cRight, right, cM, unsupportedM, falling, right)
        == unsupportedM;
  }

  /**
   * The corrected trapezoid is `unsupported_m` outside [left, right], `c_m` on
   * the core, and with `c_m > unsupported_m` it is the current `trapezoid`.
   */
  lemma TrapezoidFacts(left: real, cLeft: real, cRight: real, right: real, cM: real, unsupportedM: real, x: real)
    requires TrapezoidArgsOk(left, cLeft, cRight, right, cM, unsupportedM)
    ensures x < left || right < x ==> Trapezoid(left, cLeft, cRight, right, cM, unsupportedM).value(x) == unsupportedM
    ensures cLeft <= x <= cRight ==> Trapezoid(left, cLeft, cRight, right, cM, unsupportedM).value(x) == cM
    ensures unsupportedM < cM ==>
      Trapezoid(left, cLeft, cRight, right, cM, unsupportedM).value(x)
      == Functions.TrapezoidAt(left, cLeft, cRight, right, cM, unsupportedM, x)
  {
  }
}
