/**
 * Linguistic hedges: "very", "plus" and "minus" reshape a membership curve by
 * raising each membership to a fixed power. Each works on a bare membership
 * function or on a Set, where it keeps the domain and prefixes the name.
 */
module Hedges {
  import opened Wrappers
  import opened Reals
  import opened Functions
  import opened Classes

  /** The exponent of `plus`. */
  const PlusExponent: real := 1.25

  /** The exponent of `minus`. */
  const MinusExponent: real := 0.75

  /**
   * What the hedges rely on from Python's real power `pow(m, e)` on [0, 1]:
   * a positive exponent keeps [0, 1], an exponent of at least 1 does not
   * raise the base, and one of at most 1 does not lower it.
   */
  ghost predicate PowerLaw(pow: (real, real) -> real)
  {
    forall m, e :: InUnit(m) && e > 0.0 ==>
      InUnit(pow(m, e)) && (e >= 1.0 ==> pow(m, e) <= m) && (e <= 1.0 ==> m <= pow(m, e))
  }

  /** `very(g)` on a membership function: `x -> g(x) ** 2`. */
  function Very(g: Membership): (f: Membership)
    ensures forall x :: f(x) == g(x) * g(x)
    ensures forall x :: InUnit(g(x)) ==> InUnit(f(x)) && f(x) <= g(x)
  {
    var f := x => g(x) * g(x);
    SquareNarrows(g, f);
    f
  }

  /** `plus(g)` on a membership function: `x -> g(x) ** 1.25`. */
  function Plus(g: Membership, pow: (real, real) -> real): (f: Membership)
    ensures forall x :: f(x) == pow(g(x), PlusExponent)
    ensures PowerLaw(pow) ==> forall x :: InUnit(g(x)) ==> InUnit(f(x)) && f(x) <= g(x)
  {
    x => pow(g(x), PlusExponent)
  }

  /** `minus(g)` on a membership function: `x -> g(x) ** 0.75`. */
  function Minus(g: Membership, pow: (real, real) -> real): (f: Membership)
    ensures forall x :: f(x) == pow(g(x), MinusExponent)
    ensures PowerLaw(pow) ==> forall x :: InUnit(g(x)) ==> InUnit(f(x)) && g(x) <= f(x)
  {
    x => pow(g(x), MinusExponent)
  }

  /** Squaring memberships of [0, 1] keeps them in [0, 1] and never raises them. */
  lemma SquareNarrows(g: Membership, f: Membership)
    requires forall x :: f(x) == g(x) * g(x)
    ensures forall x :: InUnit(g(x)) ==> InUnit(f(x)) && f(x) <= g(x)
  {
    forall x | InUnit(g(x)) ensures InUnit(f(x)) && f(x) <= g(x) {
      var m := g(x);
      UnitProduct(m, m);
      assert f(x) == m * m;
    }
  }

  /** Python's f-string rendering of a set's name: the name itself, or "None". */
  function NameText(n: Option<string>): (t: string)
    ensures n.Some? ==> t == n.value
    ensures n.None? ==> t == "None"
  {
    if n.Some? then n.value else "None"
  }

  /** `very` sharpens: a membership of [0, 1] stays in [0, 1] and does not grow. */
  lemma VeryNarrows(g: Membership, x: real)
    requires InUnit(g(x))
    ensures InUnit(Very(g)(x)) && Very(g)(x) <= g(x)
  {
    var m := g(x);
    assert Very(g)(x) == m * m;
    UnitProduct(m, m);
  }

  /** `very` fixes the memberships 0 and 1 and strictly lowers every one in between. */
  lemma VeryFixesEnds(g: Membership, x: real)
    requires InUnit(g(x))
    ensures Very(g)(x) == g(x) <==> g(x) == 0.0 || g(x) == 1.0
  {
    var m := g(x);
    assert Very(g)(x) == m * m;
    assert m * m - m == m * (m - 1.0);
    if 0.0 < m < 1.0 {
      assert m * (1.0 - m) > 0.0;
    }
  }

  /** `plus` sharpens less strongly: it stays in [0, 1] and does not raise a membership. */
  lemma PlusNarrows(g: Membership, pow: (real, real) -> real, x: real)
    requires PowerLaw(pow) && InUnit(g(x))
    ensures InUnit(Plus(g, pow)(x)) && Plus(g, pow)(x) <= g(x)
  {
    assert Plus(g, pow)(x) == pow(g(x), PlusExponent);
  }

  /** `minus` widens: it stays in [0, 1] and does not lower a membership. */
  lemma MinusWidens(g: Membership, pow: (real, real) -> real, x: real)
    requires PowerLaw(pow) && InUnit(g(x))
    ensures InUnit(Minus(g, pow)(x)) && g(x) <= Minus(g, pow)(x)
  {
    assert Minus(g, pow)(x) == pow(g(x), MinusExponent);
  }

  /** Hedges are ordered: minus(g) >= g >= plus(g) on memberships of [0, 1]. */
  lemma HedgeOrder(g: Membership, pow: (real, real) -> real, x: real)
    requires PowerLaw(pow) && InUnit(g(x))
    ensures Plus(g, pow)(x) <= g(x) <= Minus(g, pow)(x)
    ensures Very(g)(x) <= g(x)
  {
    PlusNarrows(g, pow, x);
    MinusWidens(g, pow, x);
    VeryNarrows(g, x);
  }

  /** `very(s)` on a Set: a new set on the same domain named "very_" + name, with `s.func(x) ** 2`. */
  method VerySet(s: Set) returns (r: Set)
    ensures fresh(r) && r.domain == s.domain && r.cache == None
    ensures r.name == Some("very_" + NameText(s.name))
    ensures r.func == Very(s.func)
  {
    r := new Set(Very(s.func), Some("very_" + NameText(s.name)), s.domain);
  }

  /** `plus(s)` on a Set: a new set on the same domain named "plus_" + name. */
  method PlusSet(s: Set, pow: (real, real) -> real) returns (r: Set)
    ensures fresh(r) && r.domain == s.domain && r.cache == None
    ensures r.name == Some("plus_" + NameText(s.name))
    ensures r.func == Plus(s.func, pow)
  {
    r := new Set(Plus(s.func, pow), Some("plus_" + NameText(s.name)), s.domain);
  }

  /** `minus(s)` on a Set: a new set on the same domain named "minus_" + name. */
  method MinusSet(s: Set, pow: (real, real) -> real) returns (r: Set)
    ensures fresh(r) && r.domain == s.domain && r.cache == None
    ensures r.name == Some("minus_" + NameText(s.name))
    ensures r.func == Minus(s.func, pow)
  {
    r := new Set(Minus(s.func, pow), Some("minus_" + NameText(s.name)), s.domain);
  }
}
