/**
 * Rounding to a resolution, affine rescaling and the weighted sum of
 * memberships (`src/fuzzylogic/tools.py`; `src/fuzzylogic/rules.py` is an
 * older copy of the same three functions with the same behaviour).
 */
module Tools {
  import opened Wrappers
  import opened Reals
  import opened Sums

  /**
   * Python's `round` on a real: the nearest integer, ties going to the even
   * neighbour ("banker's rounding").
   */
  function RoundHalfEven(r: real): (k: int)
    ensures -0.5 <= k as real - r <= 0.5
    ensures (k as real - r == 0.5 || r - k as real == 0.5) ==> k % 2 == 0
  {
    var f := r.Floor;
    var d := r - f as real;
    if d < 0.5 then f
    else if d > 0.5 then f + 1
    else if f % 2 == 0 then f
    else f + 1
  }

  /** The two properties in the contract above pin the result down uniquely. */
  lemma RoundHalfEvenUnique(r: real, j: int)
    requires -0.5 < j as real - r < 0.5 || ((j as real - r == 0.5 || r - j as real == 0.5) && j % 2 == 0)
    ensures j == RoundHalfEven(r)
  {
    var k := RoundHalfEven(r);
    assert j == k || j - k >= 1 || k - j >= 1;
  }

  /** No integer is closer to `r` than the rounded value. */
  lemma RoundHalfEvenNearest(r: real, j: int)
    ensures Abs(RoundHalfEven(r) as real - r) <= 0.5
    ensures Abs(RoundHalfEven(r) as real - r) <= Abs(j as real - r)
  {
    var k := RoundHalfEven(r);
    if j > k {
      assert j as real - r >= 0.5;
    } else if j < k {
      assert r - j as real >= 0.5;
    }
  }

  /**
   * `round_partial(value, res)`: `value` itself for a zero resolution, and
   * otherwise `round(value / res) * res`. (An infinite resolution, the
   * source's second identity case, does not exist over the reals.)
   */
  function RoundPartial(value: real, res: real): (r: real)
    ensures res == 0.0 ==> r == value
  {
    if res == 0.0 then value else (RoundHalfEven(value / res) as real) * res
  }

  /** With a non-zero resolution the result is a whole multiple of it. */
  lemma RoundPartialMultiple(value: real, res: real)
    requires res != 0.0
    ensures var r := RoundPartial(value, res); (r / res).Floor as real == r / res
  {
    var k := RoundHalfEven(value / res);
    var r := (k as real) * res;
    assert RoundPartial(value, res) == r;
    assert r / res == k as real;
    assert (k as real).Floor == k;
  }

  /** With a non-zero resolution the result is within half a step of `value`. */
  lemma RoundPartialHalfStep(value: real, res: real)
    requires res != 0.0
    ensures Abs(RoundPartial(value, res) - value) <= Abs(res) / 2.0
  {
    var q := value / res;
    var k := RoundHalfEven(q) as real;
    assert RoundPartial(value, res) == k * res;
    DivThenMul(value, res);
    WithinHalfStep(value, res, q, k);
  }

  /** `k` within half of `q` puts `k * res` within half a step of `q * res`. */
  lemma WithinHalfStep(value: real, res: real, q: real, k: real)
    requires value == q * res && -0.5 <= k - q <= 0.5
    ensures Abs(k * res - value) <= Abs(res) / 2.0
  {
    var d := k - q;
    assert k * res - value == res * d;
    var g := Abs(res);
    if res >= 0.0 {
      MulMono(res, d, 0.5);
      MulMono(res, -0.5, d);
    } else {
      MulMono(-res, d, 0.5);
      MulMono(-res, -0.5, d);
      assert (-res) * d == -(res * d);
    }
  }

  /** The doctest examples of `round_partial`. */
  lemma RoundPartialExamples()
    ensures RoundPartial(0.405, 0.02) == 0.4
    ensures RoundPartial(0.412, 0.02) == 0.42
    ensures RoundPartial(1.38, 0.25) == 1.5
    ensures RoundPartial(1.12, 0.25) == 1.0
    ensures RoundPartial(9.24, 0.25) == 9.25
    ensures RoundPartial(7.76, 0.25) == 7.75
    ensures RoundPartial(987654321.0, 100.0) == 987654300.0
    ensures RoundPartial(3.14, 0.0) == 3.14
  {
    assert 0.405 / 0.02 == 20.25;
    assert 0.412 / 0.02 == 20.6;
    assert 1.38 / 0.25 == 5.52;
    assert 1.12 / 0.25 == 4.48;
    assert 9.24 / 0.25 == 36.96;
    assert 7.76 / 0.25 == 31.04;
    assert 987654321.0 / 100.0 == 9876543.21;
  }

  /**
   * The rescaling closure at one point, in the factorised form the source
   * computes: `(n - a*x - o + b*x) / m` with `m = d - c`, `n = a*d`, `o = b*c`.
   * It equals the textbook two-point formula that it replaced.
   */
  function RescaleAt(outMin: real, outMax: real, inMin: real, inMax: real, x: real): (r: real)
    requires inMin < inMax
    ensures r == (outMax - outMin) * (x - inMin) / (inMax - inMin) + outMin
  {
    var m := inMax - inMin;
    var n := outMin * inMax;
    var o := outMax * inMin;
    var b := (outMax - outMin) * (x - inMin);
    assert n - outMin * x - o + outMax * x == b + outMin * m;
    assert (b + outMin * m) / m == b / m + outMin;
    (n - outMin * x - o + outMax * x) / m
  }

  /** `rescale(out_min, out_max, in_min=…, in_max=…)`; asserts `in_min < in_max`. */
  function Rescale(outMin: real, outMax: real, inMin: real, inMax: real): (f: real -> real)
    requires inMin < inMax
    ensures forall x :: f(x) == RescaleAt(outMin, outMax, inMin, inMax, x)
    ensures f(inMin) == outMin && f(inMax) == outMax
    ensures outMin <= outMax ==> forall x :: inMin <= x <= inMax ==> outMin <= f(x) <= outMax
  {
    RescaleEndpoints(outMin, outMax, inMin, inMax);
    assert outMin <= outMax ==>
      forall x :: inMin <= x <= inMax ==> outMin <= RescaleAt(outMin, outMax, inMin, inMax, x) <= outMax by {
      if outMin <= outMax {
        forall x | inMin <= x <= inMax ensures outMin <= RescaleAt(outMin, outMax, inMin, inMax, x) <= outMax {
          RescaleInterval(outMin, outMax, inMin, inMax, x);
        }
      }
    }
    x => RescaleAt(outMin, outMax, inMin, inMax, x)
  }

  /** `in_min` goes to `out_min` and `in_max` to `out_max`. */
  lemma RescaleEndpoints(outMin: real, outMax: real, inMin: real, inMax: real)
    requires inMin < inMax
    ensures RescaleAt(outMin, outMax, inMin, inMax, inMin) == outMin
    ensures RescaleAt(outMin, outMax, inMin, inMax, inMax) == outMax
  {
    var m := inMax - inMin;
    assert (outMax - outMin) * m / m == outMax - outMin;
  }

  /** An increasing rescaling maps the input interval into the output interval. */
  lemma RescaleInterval(outMin: real, outMax: real, inMin: real, inMax: real, x: real)
    requires inMin < inMax && outMin <= outMax
    requires inMin <= x <= inMax
    ensures outMin <= RescaleAt(outMin, outMax, inMin, inMax, x) <= outMax
  {
    var k := outMax - outMin;
    var t := (x - inMin) / (inMax - inMin);
    UnitRatio(x - inMin, inMax - inMin);
    MulDiv(k, x - inMin, inMax - inMin);
    assert RescaleAt(outMin, outMax, inMin, inMax, x) == k * (x - inMin) / (inMax - inMin) + outMin;
    assert k * (x - inMin) / (inMax - inMin) == k * t;
    assert RescaleAt(outMin, outMax, inMin, inMax, x) == k * t + outMin;
    ScaledUnit(k, t);
  }

  /** The products `r * weights[n]` of the memberships that `weights` knows. */
  function WeightedTerms(weights: map<string, real>, memberships: map<string, real>): (t: map<string, real>)
    ensures t.Keys == memberships.Keys * weights.Keys
    ensures forall n :: n in t ==> t[n] == memberships[n] * weights[n]
  {
    map n | n in memberships.Keys * weights.Keys :: memberships[n] * weights[n]
  }

  /**
   * `weighted_sum(weights=…, target_d=…)(memberships)`: asserts that the
   * weights sum to one; a membership name missing from `weights` raises
   * KeyError; otherwise the weighted total is rescaled from [0, 1] onto the
   * target domain's bounds and rounded to its resolution.
   */
  ghost function WeightedSum(weights: map<string, real>, targetLow: real, targetHigh: real, targetRes: real,
                             memberships: map<string, real>): (r: Result<real>)
    requires MapSum(weights) == 1.0
    ensures r.Err? <==> !(memberships.Keys <= weights.Keys)
    ensures r.Err? ==> r.error.KeyError?
  {
    if exists n :: n in memberships && n !in weights then Err(KeyError("membership has no weight"))
    else Ok(RoundPartial(RescaleAt(targetLow, targetHigh, 0.0, 1.0, MapSum(WeightedTerms(weights, memberships))), targetRes))
  }

  /**
   * With non-negative weights and memberships in [0, 1] for exactly the
   * weighted names, the weighted total lies in [0, 1], so the rating lands
   * in the target interval up to half a resolution step.
   */
  lemma WeightedSumWithin(weights: map<string, real>, targetLow: real, targetHigh: real, targetRes: real,
                          memberships: map<string, real>)
    requires MapSum(weights) == 1.0
    requires memberships.Keys == weights.Keys
    requires forall n :: n in weights ==> weights[n] >= 0.0
    requires forall n :: n in memberships ==> InUnit(memberships[n])
    requires targetLow <= targetHigh && targetRes != 0.0
    ensures WeightedSum(weights, targetLow, targetHigh, targetRes, memberships).Ok?
    ensures var v := WeightedSum(weights, targetLow, targetHigh, targetRes, memberships).value;
            targetLow - Abs(targetRes) / 2.0 <= v <= targetHigh + Abs(targetRes) / 2.0
  {
    var t := WeightedTerms(weights, memberships);
    assert t.Keys == weights.Keys;
    forall n | n in t ensures 0.0 <= t[n] <= weights[n] {
      var w, m := weights[n], memberships[n];
      ScaledUnit(w, m);
      assert t[n] == m * w == w * m;
    }
    MapSumNonNeg(t);
    MapSumMono(t, weights);
    var total := MapSum(t);
    RescaleInterval(targetLow, targetHigh, 0.0, 1.0, total);
    RoundPartialHalfStep(RescaleAt(targetLow, targetHigh, 0.0, 1.0, total), targetRes);
  }

  /**
   * The restaurant rating: ratings 9, 5, 4 and 8 on a 1..10 scale,
   * normalised by `bounded_linear(1, 10)` to 8/9, 4/9, 3/9 and 7/9, weighted
   * 0.3, 0.2, 0.2 and 0.3, give 6.9 on the rating domain 1..10 with
   * resolution 0.1.
   */
  lemma WeightedSumRating()
    ensures var weights := map["beverage" := 0.3, "atmosphere" := 0.2, "looks" := 0.2, "taste" := 0.3];
            MapSum(weights) == 1.0 &&
            WeightedSum(weights, 1.0, 10.0, 0.1,
                        map["beverage" := 8.0 / 9.0, "atmosphere" := 4.0 / 9.0,
                            "looks" := 3.0 / 9.0, "taste" := 7.0 / 9.0]) == Ok(6.9)
  {
    var weights := map["beverage" := 0.3, "atmosphere" := 0.2, "looks" := 0.2, "taste" := 0.3];
    var ratings := map["beverage" := 8.0 / 9.0, "atmosphere" := 4.0 / 9.0,
                       "looks" := 3.0 / 9.0, "taste" := 7.0 / 9.0];
    MapSumFour("beverage", "atmosphere", "looks", "taste", 0.3, 0.2, 0.2, 0.3);
    var t := WeightedTerms(weights, ratings);
    assert t == map["beverage" := 2.4 / 9.0, "atmosphere" := 0.8 / 9.0, "looks" := 0.6 / 9.0, "taste" := 2.1 / 9.0];
    MapSumFour("beverage", "atmosphere", "looks", "taste", 2.4 / 9.0, 0.8 / 9.0, 0.6 / 9.0, 2.1 / 9.0);
    assert MapSum(t) == 5.9 / 9.0;
    assert RescaleAt(1.0, 10.0, 0.0, 1.0, 5.9 / 9.0) == 6.9;
    assert 6.9 / 0.1 == 69.0;
    assert RoundHalfEven(69.0) == 69;
  }
}
