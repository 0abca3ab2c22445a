/** Arithmetic helpers over `real` shared by the fuzzy-logic modules. */
module Reals {

  function Abs(x: real): real { if x < 0.0 then -x else x }

  /** Python's `min(a, b)`. */
  function Min2(a: real, b: real): (r: real)
    ensures r <= a && r <= b && (r == a || r == b)
  {
    if b < a then b else a
  }

  /** Python's `max(a, b)`. */
  function Max2(a: real, b: real): (r: real)
    ensures r >= a && r >= b && (r == a || r == b)
  {
    if b > a then b else a
  }

  predicate InUnit(x: real) { 0.0 <= x <= 1.0 }

  /** `(a / b) * c` and `a * (c / b)` agree: division is multiplication by 1/b. */
  lemma DivMulSwap(a: real, b: real, c: real)
    requires b != 0.0
    ensures (a / b) * c == a * (c / b)
  {
    var g := a / b;
    var t := c / b;
    assert g * b == a;
    assert t * b == c;
    calc {
      g * c;
      g * (t * b);
      (g * b) * t;
      a * t;
    }
  }

  lemma UnitRatio(a: real, b: real)
    requires 0.0 <= a <= b && b > 0.0
    ensures 0.0 <= a / b <= 1.0
  {
    var q := a / b;
    assert q * b == a;
  }

  lemma DivPos(a: real, b: real)
    requires a > 0.0 && b > 0.0
    ensures a / b > 0.0 && (-a) / b < 0.0
  {
    var q := a / b;
    assert q * b == a;
    assert (-a) / b == -q;
  }

  lemma MulMono(g: real, u: real, v: real)
    requires g >= 0.0 && u <= v
    ensures g * u <= g * v
  {
    assert g * (v - u) >= 0.0;
  }

  lemma NegMul(g: real, u: real)
    ensures (-g) * u == -(g * u)
  {
  }

  lemma ScaledUnit(k: real, t: real)
    requires k >= 0.0 && 0.0 <= t <= 1.0
    ensures 0.0 <= k * t <= k
  {
    MulMono(k, t, 1.0);
    MulMono(k, 0.0, t);
  }

  lemma DivThenMul(a: real, b: real)
    requires b != 0.0
    ensures a == (a / b) * b
  {
  }

  lemma MulDivCancel(k: real, m: real)
    requires m != 0.0
    ensures k * m / m == k
  {
  }

  lemma DivSelf(m: real)
    requires m != 0.0
    ensures m / m == 1.0
  {
    var q := m / m;
    assert q * m == m;
  }

  lemma DivSub(a: real, b: real, m: real)
    requires m != 0.0
    ensures a / m - b / m == (a - b) / m
  {
    var p, q := a / m, b / m;
    assert p * m == a && q * m == b;
    assert (p - q) * m == a - b;
  }

  /** `k * a / b` (parsed as `(k * a) / b`) is `k` times the ratio `a / b`. */
  lemma MulDiv(k: real, a: real, b: real)
    requires b != 0.0
    ensures k * a / b == k * (a / b)
  {
    var t := a / b;
    assert t * b == a;
    assert k * a == (k * t) * b;
  }

  /** `t` lies between `lo * s` and `hi * s` for a positive `s`. */
  ghost predicate Bracketed(t: real, s: real, lo: real, hi: real)
  {
    s > 0.0 && lo * s <= t <= hi * s
  }

  /** A sum bracketed by `n * lo` and `n * hi`, with `n` positive, satisfies `Bracketed`. */
  lemma BracketedSwap(t: real, s: real, lo: real, hi: real)
    requires s > 0.0 && s * lo <= t <= s * hi
    ensures Bracketed(t, s, lo, hi)
  {
    assert s * lo == lo * s && s * hi == hi * s;
  }

  /** A quotient whose numerator is bracketed by `lo * s` and `hi * s` lies in [lo, hi]. */
  lemma RatioBetween(t: real, s: real, lo: real, hi: real)
    requires Bracketed(t, s, lo, hi)
    ensures lo <= t / s <= hi
  {
    var q := t / s;
    assert q * s == t;
    assert (q - lo) * s >= 0.0;
    assert (hi - q) * s >= 0.0;
  }

  /** A product of two values of [0, 1] lies in [0, 1] and below both factors. */
  lemma UnitProduct(u: real, v: real)
    requires InUnit(u) && InUnit(v)
    ensures InUnit(u * v)
    ensures u * v <= u
    ensures u * v <= v
  {
    ScaledUnit(u, v);
    ScaledUnit(v, u);
    assert u * v == v * u;
  }

  /** One more unit factor keeps a product in [0, 1] and below both factors. */
  lemma ProductStep(p: real, v: real, q: real)
    requires InUnit(p) && InUnit(v) && q == p * v
    ensures InUnit(q)
    ensures q <= p
    ensures q <= v
  {
    ProductBelowLeft(p, v, q);
    ProductBelowRight(p, v, q);
  }

  lemma ProductBelowLeft(p: real, v: real, q: real)
    requires 0.0 <= p && 0.0 <= v <= 1.0 && q == p * v
    ensures 0.0 <= q <= p
  {
    ScaledUnit(p, v);
  }

  lemma ProductBelowRight(p: real, v: real, q: real)
    requires 0.0 <= v && 0.0 <= p <= 1.0 && q == p * v
    ensures q <= v
  {
    ScaledUnit(v, p);
    assert q == v * p;
  }

  /** Python's `min` over a non-empty sequence. */
  function SeqMin(vs: seq<real>): (r: real)
    requires |vs| > 0
    ensures forall i :: 0 <= i < |vs| ==> r <= vs[i]
    ensures exists i :: 0 <= i < |vs| && r == vs[i]
  {
    if |vs| == 1 then vs[0]
    else
      var rest := SeqMin(vs[1..]);
      assert forall i :: 1 <= i < |vs| ==> vs[1..][i - 1] == vs[i];
      if vs[0] <= rest then vs[0] else rest
  }

  /** Python's `max` over a non-empty sequence. */
  function SeqMax(vs: seq<real>): (r: real)
    requires |vs| > 0
    ensures forall i :: 0 <= i < |vs| ==> vs[i] <= r
    ensures exists i :: 0 <= i < |vs| && r == vs[i]
  {
    if |vs| == 1 then vs[0]
    else
      var rest := SeqMax(vs[1..]);
      assert forall i :: 1 <= i < |vs| ==> vs[1..][i - 1] == vs[i];
      if vs[0] >= rest then vs[0] else rest
  }

  /** Python's `sum`, adding left to right from 0. */
  function SeqSum(vs: seq<real>): real
  {
    if vs == [] then 0.0 else SeqSum(vs[..|vs| - 1]) + vs[|vs| - 1]
  }

  lemma {:induction false} SeqSumAppend(vs: seq<real>, ws: seq<real>)
    ensures SeqSum(vs + ws) == SeqSum(vs) + SeqSum(ws)
    decreases |ws|
  {
    if ws == [] {
      assert vs + ws == vs;
    } else {
      var ws' := ws[..|ws| - 1];
      assert (vs + ws)[..|vs + ws| - 1] == vs + ws';
      SeqSumAppend(vs, ws');
    }
  }

  /** A sum of terms that all lie in [lo, hi] lies in [n * lo, n * hi]. */
  lemma {:induction false} SeqSumBounds(vs: seq<real>, lo: real, hi: real)
    requires forall i :: 0 <= i < |vs| ==> lo <= vs[i] <= hi
    ensures |vs| as real * lo <= SeqSum(vs) <= |vs| as real * hi
    decreases |vs|
  {
    if vs != [] {
      SeqSumBounds(vs[..|vs| - 1], lo, hi);
    }
  }

  lemma {:induction false} SeqSumNonNeg(vs: seq<real>)
    requires forall i :: 0 <= i < |vs| ==> vs[i] >= 0.0
    ensures SeqSum(vs) >= 0.0
    decreases |vs|
  {
    if vs != [] {
      SeqSumNonNeg(vs[..|vs| - 1]);
    }
  }

  lemma {:induction false} SetMinExists(s: set<real>)
    requires s != {}
    ensures exists m :: m in s && forall y :: y in s ==> m <= y
    decreases |s|
  {
    if forall y :: y !in s {
      assert false;
    }
    var x :| x in s;
    var rest := s - {x};
    assert forall y :: y in s ==> y == x || y in rest;
    if rest != {} {
      SetMinExists(rest);
      var m :| m in rest && forall y :: y in rest ==> m <= y;
      var best := if x <= m then x else m;
      assert forall y :: y in s ==> best <= y by {
        forall y | y in s ensures best <= y {
          if y != x { assert y in rest; }
        }
      }
    }
  }

  lemma {:induction false} SetMaxExists(s: set<real>)
    requires s != {}
    ensures exists m :: m in s && forall y :: y in s ==> y <= m
    decreases |s|
  {
    if forall y :: y !in s {
      assert false;
    }
    var x :| x in s;
    var rest := s - {x};
    assert forall y :: y in s ==> y == x || y in rest;
    if rest != {} {
      SetMaxExists(rest);
      var m :| m in rest && forall y :: y in rest ==> y <= m;
      var best := if x >= m then x else m;
      assert forall y :: y in s ==> y <= best by {
        forall y | y in s ensures y <= best {
          if y != x { assert y in rest; }
        }
      }
    }
  }

  /** Python's `min` over the elements of a non-empty set. */
  function SetMin(s: set<real>): (m: real)
    requires s != {}
    ensures m in s && forall y :: y in s ==> m <= y
  {
    SetMinExists(s);
    var m :| m in s && forall y :: y in s ==> m <= y; m
  }

  /** Python's `max` over the elements of a non-empty set. */
  function SetMax(s: set<real>): (m: real)
    requires s != {}
    ensures m in s && forall y :: y in s ==> y <= m
  {
    SetMaxExists(s);
    var m :| m in s && forall y :: y in s ==> y <= m; m
  }
}
