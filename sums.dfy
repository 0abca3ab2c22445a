/** Sums over the values of a map, as Python's `sum` over a dictionary. */
module Sums {
  import opened Reals

  /** The sum of all values of `m`; the order of addition is immaterial over the reals. */
  ghost function MapSum<K>(m: map<K, real>): real
    decreases |m|
  {
    if forall k :: k !in m then 0.0
    else
      var k :| k in m;
      m[k] + MapSum(m - {k})
  }

  /** Any entry can be taken out of the sum first. */
  lemma {:induction false} MapSumRemove<K>(m: map<K, real>, k: K)
    requires k in m
    ensures MapSum(m) == m[k] + MapSum(m - {k})
    decreases |m|
  {
    var j :| j in m && MapSum(m) == m[j] + MapSum(m - {j});
    if j != k {
      var mj := m - {j};
      var mk := m - {k};
      assert k in mj && j in mk;
      MapSumRemove(mj, k);
      MapSumRemove(mk, j);
      assert mj - {k} == mk - {j};
    }
  }

  lemma MapSumSingleton<K>(k: K, v: real)
    ensures MapSum(map[k := v]) == v
  {
    MapSumRemove(map[k := v], k);
    assert map[k := v] - {k} == map[];
  }

  /** Summing pointwise smaller values gives a smaller sum. */
  lemma {:induction false} MapSumMono<K>(a: map<K, real>, b: map<K, real>)
    requires a.Keys == b.Keys
    requires forall k :: k in a ==> a[k] <= b[k]
    ensures MapSum(a) <= MapSum(b)
    decreases |a|
  {
    if forall k :: k !in a {
      assert b == map[];
    } else {
      var k :| k in a;
      MapSumRemove(a, k);
      MapSumRemove(b, k);
      MapSumMono(a - {k}, b - {k});
    }
  }

  function Plus(a: real, b: real): real { a + b }

  /** `f` distributes over addition. */
  ghost predicate Additive(f: real -> real)
  {
    forall a, b :: f(Plus(a, b)) == f(a) + f(b)
  }

  /** `f` multiplies by `c`. */
  ghost predicate Scales(c: real, f: real -> real)
  {
    forall x :: f(x) == c * x
  }

  /** Summing the images under an additive `f` gives the image of the sum. */
  lemma {:induction false} MapSumAdditive<K>(m: map<K, real>, s: map<K, real>, f: real -> real)
    requires Additive(f)
    requires s.Keys == m.Keys
    requires forall k :: k in m ==> s[k] == f(m[k])
    ensures MapSum(s) == f(MapSum(m))
    decreases |m|
  {
    if forall k :: k !in m {
      assert s == map[];
      assert f(Plus(0.0, 0.0)) == f(0.0) + f(0.0);
    } else {
      var k :| k in m;
      var mr, sr := m - {k}, s - {k};
      MapSumAdditive(mr, sr, f);
      MapSumRemove(m, k);
      MapSumRemove(s, k);
      assert f(Plus(m[k], MapSum(mr))) == f(m[k]) + f(MapSum(mr));
    }
  }

  /** Scaling every value scales the sum. */
  lemma MapSumScale<K>(m: map<K, real>, s: map<K, real>, c: real)
    requires s.Keys == m.Keys
    requires forall k :: k in m ==> s[k] == c * m[k]
    ensures MapSum(s) == c * MapSum(m)
  {
    var scale := x => c * x;
    ScaleIsAdditive(c, scale);
    ScaledEntries(m, s, c, scale);
    MapSumAdditive(m, s, scale);
    ScaleAtSums(c, scale, m, s);
  }

  /** Multiplying by a constant is additive. */
  lemma ScaleIsAdditive(c: real, f: real -> real)
    requires Scales(c, f)
    ensures Additive(f)
  {
    forall a, b ensures f(Plus(a, b)) == f(a) + f(b) {
      Distribute(c, a, b);
    }
  }

  lemma ScaledEntries<K>(m: map<K, real>, s: map<K, real>, c: real, f: real -> real)
    requires Scales(c, f) && s.Keys == m.Keys
    requires forall k :: k in m ==> s[k] == c * m[k]
    ensures forall k :: k in m ==> s[k] == f(m[k])
  {
  }

  lemma ScaleAtSums<K>(c: real, f: real -> real, m: map<K, real>, s: map<K, real>)
    requires Scales(c, f) && MapSum(s) == f(MapSum(m))
    ensures MapSum(s) == c * MapSum(m)
  {
  }

  lemma Distribute(c: real, a: real, b: real)
    ensures c * a + c * b == c * (a + b)
  {
  }

  /** A non-empty sum of positive values is positive. */
  lemma {:induction false} MapSumPositive<K>(m: map<K, real>)
    requires forall k :: k in m ==> m[k] > 0.0
    ensures MapSum(m) >= 0.0
    ensures (exists k :: k in m) ==> MapSum(m) > 0.0
    decreases |m|
  {
    if exists k :: k in m {
      var k :| k in m;
      MapSumRemove(m, k);
      MapSumPositive(m - {k});
    }
  }

  /** A sum of non-negative values is non-negative. */
  lemma {:induction false} MapSumNonNeg<K>(m: map<K, real>)
    requires forall k :: k in m ==> m[k] >= 0.0
    ensures MapSum(m) >= 0.0
    decreases |m|
  {
    if exists k :: k in m {
      var k :| k in m;
      MapSumRemove(m, k);
      MapSumNonNeg(m - {k});
    }
  }

  /** The sum of a dictionary literal with four distinct keys. */
  lemma MapSumFour<K>(a: K, b: K, c: K, d: K, va: real, vb: real, vc: real, vd: real)
    requires a != b && a != c && a != d && b != c && b != d && c != d
    ensures MapSum(map[a := va, b := vb, c := vc, d := vd]) == va + vb + vc + vd
  {
    var m := map[a := va, b := vb, c := vc, d := vd];
    MapSumRemove(m, a);
    var m1 := m - {a};
    assert m1 == map[b := vb, c := vc, d := vd];
    MapSumRemove(m1, b);
    var m2 := m1 - {b};
    assert m2 == map[c := vc, d := vd];
    MapSumRemove(m2, c);
    assert m2 - {c} == map[d := vd];
    MapSumSingleton(d, vd);
  }

  /** `m` holds each `c[k]` weighted by a positive `w[k]`. */
  ghost predicate WeightedBy<K>(m: map<K, real>, c: map<K, real>, w: map<K, real>)
  {
    m.Keys == w.Keys && c.Keys == w.Keys &&
    forall k :: k in w ==> w[k] > 0.0 && m[k] == c[k] * w[k]
  }

  /** Every value of `c` lies in [lo, hi]. */
  ghost predicate ValuesWithin<K>(c: map<K, real>, lo: real, hi: real)
  {
    forall k :: k in c ==> lo <= c[k] <= hi
  }

  /**
   * A weighted mean: when `m` holds each `c[k]` weighted by positive `w[k]`
   * and every `c[k]` lies in [lo, hi], the ratio of the sums lies in [lo, hi].
   */
  lemma MapMeanBetween<K>(w: map<K, real>, m: map<K, real>, c: map<K, real>, lo: real, hi: real)
    requires w != map[] && WeightedBy(m, c, w) && ValuesWithin(c, lo, hi)
    ensures MapSum(w) > 0.0
    ensures lo <= MapSum(m) / MapSum(w) <= hi
  {
    MapMeanBounds(w, m, c, lo, hi);
    RatioBetween(MapSum(m), MapSum(w), lo, hi);
  }

  /** The total weight is positive and brackets the weighted sum between `lo` and `hi` times itself. */
  lemma MapMeanBounds<K>(w: map<K, real>, m: map<K, real>, c: map<K, real>, lo: real, hi: real)
    requires w != map[] && WeightedBy(m, c, w) && ValuesWithin(c, lo, hi)
    ensures Bracketed(MapSum(m), MapSum(w), lo, hi)
  {
    assert exists k :: k in w;
    MapSumPositive(w);
    MapScaledBelow(w, m, c, lo, hi);
    MapScaledAbove(w, m, c, lo, hi);
  }

  /** The weighted sum is at least `lo` times the total weight. */
  lemma MapScaledBelow<K>(w: map<K, real>, m: map<K, real>, c: map<K, real>, lo: real, hi: real)
    requires WeightedBy(m, c, w) && ValuesWithin(c, lo, hi)
    ensures lo * MapSum(w) <= MapSum(m)
  {
    var low := map k | k in w :: lo * w[k];
    EntriesBracket(w, m, c, lo, hi, low, true);
    MapSumScale(w, low, lo);
    MapSumMono(low, m);
  }

  /** The weighted sum is at most `hi` times the total weight. */
  lemma MapScaledAbove<K>(w: map<K, real>, m: map<K, real>, c: map<K, real>, lo: real, hi: real)
    requires WeightedBy(m, c, w) && ValuesWithin(c, lo, hi)
    ensures MapSum(m) <= hi * MapSum(w)
  {
    var high := map k | k in w :: hi * w[k];
    EntriesBracket(w, m, c, lo, hi, high, false);
    MapSumScale(w, high, hi);
    MapSumMono(m, high);
  }

  /** Entry by entry, `lo * w[k] <= m[k]` (when `below`) or `m[k] <= hi * w[k]` (otherwise). */
  lemma EntriesBracket<K>(w: map<K, real>, m: map<K, real>, c: map<K, real>, lo: real, hi: real,
                          b: map<K, real>, below: bool)
    requires WeightedBy(m, c, w) && ValuesWithin(c, lo, hi)
    requires b.Keys == w.Keys
    requires forall k :: k in w ==> b[k] == (if below then lo else hi) * w[k]
    ensures forall k :: k in w ==> if below then b[k] <= m[k] else m[k] <= b[k]
  {
    forall k | k in w
      ensures if below then b[k] <= m[k] else m[k] <= b[k]
    {
      if below {
        WeightBracket(w[k], c[k], lo, b[k], m[k]);
      } else {
        WeightBracket(w[k], hi, c[k], m[k], b[k]);
      }
    }
  }

  /** `lo <= c` scales to `lo * x <= c * x` for a positive `x`. */
  lemma WeightBracket(x: real, c: real, lo: real, l: real, v: real)
    requires x > 0.0 && lo <= c
    requires l == lo * x && v == c * x
    ensures l <= v
  {
    assert (c - lo) * x >= 0.0;
  }
}
