/**
 * Defuzzification: turning weighted consequents or an aggregated membership
 * curve over a discretised output domain into one crisp value.
 */
module Defuzz {
  import opened Wrappers
  import opened Reals
  import opened Functions

  // ------------------------------------------------------------------
  // Centre of gravity over weighted targets
  // ------------------------------------------------------------------

  /** A defuzzification target: a consequent, given by its centre of gravity, and its weight. */
  datatype Target = Target(centre: real, weight: real)

  /** The weights of the targets, in order. */
  function Weights(ts: seq<Target>): (ws: seq<real>)
    ensures |ws| == |ts| && forall i :: 0 <= i < |ts| ==> ws[i] == ts[i].weight
  {
    seq(|ts|, i requires 0 <= i < |ts| => ts[i].weight)
  }

  /** A target's centre times its weight. */
  function Moment(t: Target): real
  {
    t.centre * t.weight
  }

  /** The moment of each target, in order. */
  function Moments(ts: seq<Target>): (ms: seq<real>)
    ensures |ms| == |ts| && forall i :: 0 <= i < |ts| ==> ms[i] == Moment(ts[i])
  {
    seq(|ts|, i requires 0 <= i < |ts| => Moment(ts[i]))
  }

  /**
   * `cog(target_weights)`: the weight-averaged centre of gravity; ValueError
   * when the weights sum to zero.
   */
  function Cog(ts: seq<Target>): (r: Result<real>)
    ensures r.Err? <==> SeqSum(Weights(ts)) == 0.0
    ensures r.Err? ==> r.error.ValueError?
    ensures r.Ok? ==> r.value * SeqSum(Weights(ts)) == SeqSum(Moments(ts))
  {
    var total := SeqSum(Weights(ts));
    if total == 0.0 then Err(ValueError("Total weight is zero. Cannot compute center-of-gravity."))
    else
      DivThenMul(SeqSum(Moments(ts)), total);
      Ok(SeqSum(Moments(ts)) / total)
  }

  /** `t` lies between `lo * s` and `hi * s`. */
  predicate Sandwiched(t: real, s: real, lo: real, hi: real)
  {
    lo * s <= t <= hi * s
  }

  /** Non-negative weights with every centre in [lo, hi] bracket the weighted sum. */
  lemma {:induction false} MomentsBracketed(ts: seq<Target>, lo: real, hi: real)
    requires forall i :: 0 <= i < |ts| ==> ts[i].weight >= 0.0 && lo <= ts[i].centre <= hi
    ensures Sandwiched(SeqSum(Moments(ts)), SeqSum(Weights(ts)), lo, hi)
    decreases |ts|
  {
    if ts != [] {
      var init := ts[..|ts| - 1];
      var t := ts[|ts| - 1];
      assert Weights(ts)[..|ts| - 1] == Weights(init);
      assert Moments(ts)[..|ts| - 1] == Moments(init);
      MomentsBracketed(init, lo, hi);
      TargetBracketed(t, lo, hi);
      StepBracketed(SeqSum(Weights(init)), SeqSum(Moments(init)), t.weight, Moment(t), lo, hi);
    }
  }

  lemma TargetBracketed(t: Target, lo: real, hi: real)
    requires t.weight >= 0.0 && lo <= t.centre <= hi
    ensures Sandwiched(Moment(t), t.weight, lo, hi)
  {
    var c, w := t.centre, t.weight;
    assert (c - lo) * w >= 0.0;
    assert (hi - c) * w >= 0.0;
  }

  lemma StepBracketed(s: real, t: real, w: real, m: real, lo: real, hi: real)
    requires Sandwiched(t, s, lo, hi) && Sandwiched(m, w, lo, hi)
    ensures Sandwiched(t + m, s + w, lo, hi)
  {
    assert lo * (s + w) == lo * s + lo * w;
    assert hi * (s + w) == hi * s + hi * w;
  }

  /**
   * The centre of gravity is a weighted mean: with non-negative weights of
   * positive total and every centre in [lo, hi], it is defined and in [lo, hi].
   */
  lemma CogWithin(ts: seq<Target>, lo: real, hi: real)
    requires forall i :: 0 <= i < |ts| ==> ts[i].weight >= 0.0 && lo <= ts[i].centre <= hi
    requires SeqSum(Weights(ts)) > 0.0
    ensures Cog(ts).Ok? && lo <= Cog(ts).value <= hi
  {
    MomentsBracketed(ts, lo, hi);
    var total, moment := SeqSum(Weights(ts)), SeqSum(Moments(ts));
    assert Bracketed(moment, total, lo, hi) by {
      assert Sandwiched(moment, total, lo, hi);
    }
    RatioBetween(moment, total, lo, hi);
  }

  /** Targets that share one centre have that centre as their centre of gravity. */
  lemma CogOfEqualCentres(ts: seq<Target>, c: real)
    requires forall i :: 0 <= i < |ts| ==> ts[i].weight >= 0.0 && ts[i].centre == c
    requires SeqSum(Weights(ts)) > 0.0
    ensures Cog(ts) == Ok(c)
  {
    CogWithin(ts, c, c);
  }

  /** A single target of non-zero weight yields its own centre. */
  lemma CogSingle(c: real, w: real)
    requires w != 0.0
    ensures Cog([Target(c, w)]) == Ok(c)
  {
    var ts := [Target(c, w)];
    var m := Moment(Target(c, w));
    assert Weights(ts) == [w] && Moments(ts) == [m];
    assert [w][..0] == [] && [m][..0] == [];
    assert SeqSum([w]) == w && SeqSum([m]) == m;
    assert m == c * w;
    MulDivCancel(c, w);
  }

  // ------------------------------------------------------------------
  // Bisector
  // ------------------------------------------------------------------

  /** The area under `mu` over `xs`: the sum of `mu(x) * step`, added from the left. */
  function Area(mu: Membership, xs: seq<real>, step: real): real
  {
    if xs == [] then 0.0 else Area(mu, xs[..|xs| - 1], step) + mu(xs[|xs| - 1]) * step
  }

  /** The running area after the point at index `j`. */
  function RunningArea(mu: Membership, points: seq<real>, step: real, j: int): real
    requires 0 <= j < |points|
  {
    Area(mu, points[..j + 1], step)
  }

  /**
   * Index `k` is where `bisector` stops: the first index whose running area
   * reaches half of the total, or the last index when none does.
   */
  predicate BisectsAt(mu: Membership, points: seq<real>, step: real, k: int)
  {
    0 <= k < |points| &&
    var half := Area(mu, points, step) / 2.0;
    (RunningArea(mu, points, step, k) >= half || k == |points| - 1) &&
    forall j :: 0 <= j < k ==> RunningArea(mu, points, step, j) < half
  }

  /** `bisector(mu, points, step)`: the point that splits the area under `mu` in half. */
  method Bisector(mu: Membership, points: seq<real>, step: real) returns (r: Result<real>)
    ensures r.Err? <==> points == []
    ensures r.Err? ==> r.error.IndexError?
    ensures r.Ok? ==> exists k :: BisectsAt(mu, points, step, k) && r.value == points[k]
  {
    var half := Area(mu, points, step) / 2.0;
    var cumulative := 0.0;
    var i := 0;
    while i < |points|
      invariant 0 <= i <= |points|
      invariant cumulative == Area(mu, points[..i], step)
      invariant forall j :: 0 <= j < i ==> RunningArea(mu, points, step, j) < half
    {
      assert points[..i + 1][..i] == points[..i];
      cumulative := cumulative + mu(points[i]) * step;
      if cumulative >= half {
        assert BisectsAt(mu, points, step, i);
        return Ok(points[i]);
      }
      i := i + 1;
    }
    if points == [] {
      return Err(IndexError("list index out of range"));
    }
    assert BisectsAt(mu, points, step, |points| - 1);
    r := Ok(points[|points| - 1]);
  }

  /** The stopping index is unique. */
  lemma BisectsAtUnique(mu: Membership, points: seq<real>, step: real, k: int, k': int)
    requires BisectsAt(mu, points, step, k) && BisectsAt(mu, points, step, k')
    ensures k == k'
  {
  }

  /** With non-negative memberships and a non-negative step, the area is non-negative. */
  lemma {:induction false} AreaNonNeg(mu: Membership, xs: seq<real>, step: real)
    requires step >= 0.0 && forall i :: 0 <= i < |xs| ==> mu(xs[i]) >= 0.0
    ensures Area(mu, xs, step) >= 0.0
    decreases |xs|
  {
    if xs != [] {
      AreaNonNeg(mu, xs[..|xs| - 1], step);
      MulMono(step, 0.0, mu(xs[|xs| - 1]));
      assert mu(xs[|xs| - 1]) * step == step * mu(xs[|xs| - 1]);
    }
  }

  /** For a non-negative curve the stopping point reaches half of the area, even at the last point. */
  lemma BisectorReachesHalf(mu: Membership, points: seq<real>, step: real, k: int)
    requires step >= 0.0 && forall i :: 0 <= i < |points| ==> mu(points[i]) >= 0.0
    requires BisectsAt(mu, points, step, k)
    ensures RunningArea(mu, points, step, k) >= Area(mu, points, step) / 2.0
  {
    AreaNonNeg(mu, points, step);
    if k == |points| - 1 {
      assert points[..k + 1] == points;
    }
  }

  // ------------------------------------------------------------------
  // Maxima
  // ------------------------------------------------------------------

  /** `_get_max_points`' tolerance for comparing a membership with the maximum. */
  const Tolerance: real := 0.000001

  /** The membership of each point, in order. */
  function Values(mu: Membership, points: seq<real>): (vs: seq<real>)
    ensures |vs| == |points| && forall i :: 0 <= i < |points| ==> vs[i] == mu(points[i])
  {
    seq(|points|, i requires 0 <= i < |points| => mu(points[i]))
  }

  /** A membership counts as maximal when it is within the tolerance of `top`. */
  predicate NearTop(v: real, top: real)
  {
    Abs(v - top) < Tolerance
  }

  /** The points whose membership is within the tolerance of `top`, in input order. */
  function NearMax(mu: Membership, xs: seq<real>, top: real): (r: seq<real>)
    ensures |r| <= |xs|
    ensures forall x :: x in r <==> x in xs && NearTop(mu(x), top)
  {
    if xs == [] then []
    else
      var rest := NearMax(mu, xs[1..], top);
      assert forall x :: x in xs <==> x == xs[0] || x in xs[1..];
      if NearTop(mu(xs[0]), top) then [xs[0]] + rest else rest
  }

  /** Filtering keeps the order of the input: it distributes over concatenation. */
  lemma {:induction false} NearMaxAppend(mu: Membership, xs: seq<real>, ys: seq<real>, top: real)
    ensures NearMax(mu, xs + ys, top) == NearMax(mu, xs, top) + NearMax(mu, ys, top)
    decreases |xs|
  {
    if xs != [] {
      assert (xs + ys)[1..] == xs[1..] + ys;
      NearMaxAppend(mu, xs[1..], ys, top);
    } else {
      assert xs + ys == ys;
    }
  }

  /** When every point is maximal, filtering keeps them all. */
  lemma {:induction false} NearMaxAll(mu: Membership, xs: seq<real>, top: real)
    requires forall i :: 0 <= i < |xs| ==> NearTop(mu(xs[i]), top)
    ensures NearMax(mu, xs, top) == xs
    decreases |xs|
  {
    if xs != [] {
      NearMaxAll(mu, xs[1..], top);
      assert [xs[0]] + xs[1..] == xs;
    }
  }

  /**
   * `_get_max_points(mu, points)`: the points whose membership is within the
   * tolerance of the largest membership, in input order; `max` of no values
   * raises ValueError.
   */
  function GetMaxPoints(mu: Membership, points: seq<real>): (r: Result<seq<real>>)
    ensures r.Err? <==> points == []
    ensures r.Err? ==> r.error.ValueError?
    ensures r.Ok? ==> r.value != []
    ensures r.Ok? ==> forall x :: x in r.value <==> x in points && NearTop(mu(x), SeqMax(Values(mu, points)))
  {
    if points == [] then Err(ValueError("max() arg is an empty sequence"))
    else
      var top := SeqMax(Values(mu, points));
      var kept := NearMax(mu, points, top);
      assert kept != [] by {
        var i :| 0 <= i < |points| && top == Values(mu, points)[i];
        assert points[i] in kept;
      }
      Ok(kept)
  }

  /** Python's `sum(xs) / len(xs)`. */
  function Mean(xs: seq<real>): (r: real)
    requires xs != []
    ensures SeqMin(xs) <= r <= SeqMax(xs)
  {
    MeanBetween(xs);
    SeqSum(xs) / |xs| as real
  }

  /** `mom(mu, points)`: the mean of the maximal points, or None when there is none. */
  function Mom(mu: Membership, points: seq<real>): (r: Result<Option<real>>)
    ensures r.Err? <==> points == []
    ensures r.Err? ==> r.error.ValueError?
    ensures r.Ok? ==> r.value == Some(Mean(GetMaxPoints(mu, points).value))
  {
    var mp := GetMaxPoints(mu, points);
    if mp.Err? then Err(mp.error)
    else if mp.value != [] then Ok(Some(Mean(mp.value)))
    else Ok(None)
  }

  /** `som(mu, points)`: the smallest maximal point, `min(..., default=None)`. */
  function Som(mu: Membership, points: seq<real>): (r: Result<Option<real>>)
    ensures r.Err? <==> points == []
    ensures r.Err? ==> r.error.ValueError?
    ensures r.Ok? ==> r.value == Some(SeqMin(GetMaxPoints(mu, points).value))
  {
    var mp := GetMaxPoints(mu, points);
    if mp.Err? then Err(mp.error)
    else if mp.value != [] then Ok(Some(SeqMin(mp.value)))
    else Ok(None)
  }

  /** `lom(mu, points)`: the largest maximal point, `max(..., default=None)`. */
  function Lom(mu: Membership, points: seq<real>): (r: Result<Option<real>>)
    ensures r.Err? <==> points == []
    ensures r.Err? ==> r.error.ValueError?
    ensures r.Ok? ==> r.value == Some(SeqMax(GetMaxPoints(mu, points).value))
  {
    var mp := GetMaxPoints(mu, points);
    if mp.Err? then Err(mp.error)
    else if mp.value != [] then Ok(Some(SeqMax(mp.value)))
    else Ok(None)
  }

  /** The mean of a sequence lies between its minimum and its maximum. */
  lemma MeanBetween(xs: seq<real>)
    requires xs != []
    ensures SeqMin(xs) <= SeqSum(xs) / |xs| as real <= SeqMax(xs)
  {
    SumBracketed(xs, SeqMin(xs), SeqMax(xs));
    RatioBetween(SeqSum(xs), |xs| as real, SeqMin(xs), SeqMax(xs));
  }

  /** The sum of a non-empty sequence within [lo, hi] lies between its length times lo and times hi. */
  lemma SumBracketed(xs: seq<real>, lo: real, hi: real)
    requires xs != []
    requires forall i :: 0 <= i < |xs| ==> lo <= xs[i] <= hi
    ensures Bracketed(SeqSum(xs), |xs| as real, lo, hi)
  {
    SeqSumBounds(xs, lo, hi);
    BracketedSwap(SeqSum(xs), |xs| as real, lo, hi);
  }

  /** On non-empty points all three are defined, and som <= mom <= lom. */
  lemma SomMomLomOrdered(mu: Membership, points: seq<real>)
    requires points != []
    ensures Som(mu, points).Ok? && Mom(mu, points).Ok? && Lom(mu, points).Ok?
    ensures Som(mu, points).value.value <= Mom(mu, points).value.value <= Lom(mu, points).value.value
  {
    MeanBetween(GetMaxPoints(mu, points).value);
  }

  /**
   * `som` is a maximal point no larger than any other maximal point, and
   * `lom` one no smaller than any other.
   */
  lemma SomLomExtremes(mu: Membership, points: seq<real>, x: real)
    requires points != []
    requires x in points && NearTop(mu(x), SeqMax(Values(mu, points)))
    ensures Som(mu, points).value.value in points && Som(mu, points).value.value <= x
    ensures Lom(mu, points).value.value in points && x <= Lom(mu, points).value.value
  {
    var mp := GetMaxPoints(mu, points).value;
    var i :| 0 <= i < |mp| && mp[i] == x;
    var a :| 0 <= a < |mp| && SeqMin(mp) == mp[a];
    var b :| 0 <= b < |mp| && SeqMax(mp) == mp[b];
    assert mp[a] in mp && mp[b] in mp;
  }

  /** A constant membership makes every point maximal, so `mom` is the mean of the points. */
  lemma MomOfConstant(points: seq<real>, c: real)
    requires points != []
    ensures Mom(_ => c, points) == Ok(Some(Mean(points)))
  {
    var mu: Membership := _ => c;
    var top := SeqMax(Values(mu, points));
    assert top == c;
    NearMaxAll(mu, points, top);
  }

  /** A membership of 1 on the plateau [lo, hi] and 0 elsewhere. */
  function Plateau(lo: real, hi: real): Membership
  {
    x => if lo <= x <= hi then 1.0 else 0.0
  }

  /**
   * When both ends of a plateau are sample points, `som` is its left end and
   * `lom` its right end, e.g. 3 and 7 for the plateau [3, 7] over 0..10.
   */
  lemma PlateauExtremes(points: seq<real>, lo: real, hi: real)
    requires lo in points && hi in points && lo <= hi
    ensures Som(Plateau(lo, hi), points) == Ok(Some(lo))
    ensures Lom(Plateau(lo, hi), points) == Ok(Some(hi))
  {
    PlateauMaxPoints(points, lo, hi);
    var mp := GetMaxPoints(Plateau(lo, hi), points).value;
    LeastElement(mp, lo);
    GreatestElement(mp, hi);
  }

  /** Over a plateau with a sample point on it, the maximal points are the samples on the plateau. */
  lemma PlateauMaxPoints(points: seq<real>, lo: real, hi: real)
    requires lo in points && lo <= hi
    ensures GetMaxPoints(Plateau(lo, hi), points).Ok?
    ensures forall x :: x in GetMaxPoints(Plateau(lo, hi), points).value <==> x in points && lo <= x <= hi
  {
    var mu := Plateau(lo, hi);
    var vs := Values(mu, points);
    var i :| 0 <= i < |points| && points[i] == lo;
    assert vs[i] == 1.0;
    assert SeqMax(vs) == 1.0;
  }

  /** An element below every element is the minimum. */
  lemma LeastElement(xs: seq<real>, v: real)
    requires v in xs && forall x :: x in xs ==> v <= x
    ensures SeqMin(xs) == v
  {
    var m :| 0 <= m < |xs| && SeqMin(xs) == xs[m];
    var a :| 0 <= a < |xs| && xs[a] == v;
    assert xs[m] in xs;
  }

  /** An element above every element is the maximum. */
  lemma GreatestElement(xs: seq<real>, v: real)
    requires v in xs && forall x :: x in xs ==> x <= v
    ensures SeqMax(xs) == v
  {
    var m :| 0 <= m < |xs| && SeqMax(xs) == xs[m];
    var a :| 0 <= a < |xs| && xs[a] == v;
    assert xs[m] in xs;
  }

  /** The example of a single peak: over 0..4, only the point 2 has the top membership 1. */
  lemma SinglePeakExample()
    ensures GetMaxPoints(x => if x == 2.0 then 1.0 else 0.5, [0.0, 1.0, 2.0, 3.0, 4.0]) == Ok([2.0])
  {
    var mu: Membership := x => if x == 2.0 then 1.0 else 0.5;
    var points := [0.0, 1.0, 2.0, 3.0, 4.0];
    var top := SeqMax(Values(mu, points));
    assert top == 1.0 by {
      var vs := Values(mu, points);
      assert vs[2] == 1.0;
      assert forall i :: 0 <= i < 5 ==> vs[i] <= 1.0;
    }
    assert !NearTop(0.5, 1.0) && NearTop(1.0, 1.0);
    assert NearMax(mu, points[4..], top) == [] by {
      assert points[4..][1..] == [];
    }
    assert NearMax(mu, points[3..], top) == [] by {
      assert points[3..][1..] == points[4..];
    }
    assert NearMax(mu, points[2..], top) == [2.0] by {
      assert points[2..][1..] == points[3..];
    }
    assert NearMax(mu, points[1..], top) == [2.0] by {
      assert points[1..][1..] == points[2..];
    }
    assert NearMax(mu, points, top) == [2.0] by {
      assert points[1..] == points[1..];
    }
  }
}
