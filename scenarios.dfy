/**
 * Three small domains from the library's functional examples, built through
 * the same operations a user calls: a temperature domain whose `warm` set is
 * derived from `cold` and `hot`, an eleven-point domain whose sampled arrays
 * include the upper bound, and a rating domain feeding `weighted_sum`.
 */
module Scenarios {
  import opened Wrappers
  import opened Functions
  import opened Classes
  import Sums
  import Tools

  /**
   * `cold = S(0, 15)`, `hot = Set(R(10, 30))` and `warm = ~cold & ~hot` on
   * [-100, 100] in steps of 0.1; at 6 degrees the domain reports cold 0.6,
   * hot 0 and warm 0.4.
   */
  method TemperatureScenario() returns (d: Domain, cold: Set, hot: Set, warm: Set)
    ensures fresh(d) && fresh(cold) && fresh(hot) && fresh(warm)
    ensures d.sets == map["cold" := cold, "hot" := hot, "warm" := warm]
    ensures cold.domain == d && hot.domain == d && warm.domain == d
    ensures d.Call(6.0) == map[cold := 0.6, hot := 0.0, warm := 0.4]
  {
    d := new Domain("temperature", -100.0, 100.0, 0.1, map[]);
    assert IsIdentifier("cold") && IsIdentifier("hot") && IsIdentifier("warm");
    cold := d.AssignFunction("cold", S(0.0, 15.0));
    hot := new Set(R(10.0, 30.0), None, null);
    d.Assign("hot", hot);
    var notCold := cold.Invert();
    var notHot := hot.Invert();
    DomainEqualsFacts(d, d);
    warm := notCold.And(notHot);
    d.Assign("warm", warm);
    assert cold.func(6.0) == 0.6;
    assert hot.func(6.0) == 0.0;
    assert warm.func(6.0) == 0.4;
    CallOfThree(d, cold, hot, warm, 6.0);
  }

  /** A domain holding three distinct sets reports exactly those three memberships. */
  lemma CallOfThree(d: Domain, a: Set, b: Set, c: Set, x: real)
    requires d.sets == map["cold" := a, "hot" := b, "warm" := c]
    requires a != b && a != c && b != c
    ensures d.Call(x) == map[a := a.func(x), b := b.func(x), c := c.func(x)]
  {
    assert d.sets["cold"] == a && d.sets["hot"] == b && d.sets["warm"] == c;
    assert d.sets.Values == {a, b, c};
  }

  /**
   * `low = S(0, 1)` and `high = R(8, 10)` on [0, 10] with the default step 1:
   * both arrays have eleven points, since the upper bound is included.
   */
  method SimpleScenario() returns (d: Domain, low: Set, high: Set)
    ensures fresh(d) && fresh(low) && fresh(high)
    ensures d.sets == map["low" := low, "high" := high]
    ensures low.Array() == Ok([1.0, 0.0, 0.0, 0.0, 0.0, 0.0, 0.0, 0.0, 0.0, 0.0, 0.0])
    ensures high.Array() == Ok([0.0, 0.0, 0.0, 0.0, 0.0, 0.0, 0.0, 0.0, 0.0, 0.5, 1.0])
  {
    d := new Domain("simple", 0.0, 10.0, 1.0, map[]);
    assert IsIdentifier("low") && IsIdentifier("high");
    low := d.AssignFunction("low", S(0.0, 1.0));
    high := d.AssignFunction("high", R(8.0, 10.0));
    RangeExact(d, 10);
    var grid := d.Range();
    assert forall i :: 0 <= i < |grid| ==> grid[i] == i as real;
    var a := low.Array().value;
    var b := high.Array().value;
    assert |a| == 11 && |b| == 11;
    assert a == [1.0, 0.0, 0.0, 0.0, 0.0, 0.0, 0.0, 0.0, 0.0, 0.0, 0.0];
    assert b == [0.0, 0.0, 0.0, 0.0, 0.0, 0.0, 0.0, 0.0, 0.0, 0.5, 1.0];
  }

  /**
   * The restaurant rating: a rating domain on [1, 10] in steps of 0.1 whose
   * one set `norm` is `bounded_linear(1, 10)`. The smallest memberships of the
   * ratings 9, 5, 4 and 8 are 8/9, 4/9, 3/9 and 7/9, and weighted 0.3, 0.2,
   * 0.2 and 0.3 they give the rating 6.9.
   */
  method RatingScenario() returns (d: Domain, norm: Set)
    ensures fresh(d) && fresh(norm)
    ensures d.sets == map["norm" := norm]
    ensures norm.func == BoundedLinear(1.0, 10.0, 1.0, 0.0, false)
    ensures d.Min(9.0) == Ok(8.0 / 9.0) && d.Min(5.0) == Ok(4.0 / 9.0)
    ensures d.Min(4.0) == Ok(3.0 / 9.0) && d.Min(8.0) == Ok(7.0 / 9.0)
    ensures var weights := map["beverage" := 0.3, "atmosphere" := 0.2, "looks" := 0.2, "taste" := 0.3];
            Sums.MapSum(weights) == 1.0 &&
            Tools.WeightedSum(weights, d.low, d.high, d.res,
                              map["beverage" := d.Min(9.0).value, "atmosphere" := d.Min(5.0).value,
                                  "looks" := d.Min(4.0).value, "taste" := d.Min(8.0).value]) == Ok(6.9)
  {
    d := new Domain("rating", 1.0, 10.0, 0.1, map[]);
    assert IsIdentifier("norm");
    norm := d.AssignFunction("norm", BoundedLinear(1.0, 10.0, 1.0, 0.0, false));
    assert norm.func(9.0) == 8.0 / 9.0;
    assert norm.func(5.0) == 4.0 / 9.0;
    assert norm.func(4.0) == 3.0 / 9.0;
    assert norm.func(8.0) == 7.0 / 9.0;
    MinOfOne(d, "norm", norm, 9.0);
    MinOfOne(d, "norm", norm, 5.0);
    MinOfOne(d, "norm", norm, 4.0);
    MinOfOne(d, "norm", norm, 8.0);
    Tools.WeightedSumRating();
  }

  /** On a domain with a single set, the smallest membership is that set's membership. */
  lemma MinOfOne(d: Domain, n: string, s: Set, x: real)
    requires d.sets == map[n := s]
    ensures d.Min(x) == Ok(s.func(x))
  {
    assert n in d.sets;
    var r := d.Min(x);
    assert r.Ok?;
    var k :| k in d.sets && r.value == d.sets[k].func(x);
    assert k == n;
  }
}
