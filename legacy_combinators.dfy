/**
 * The binary combinators of the legacy `fuzzy` package
 * (`fuzzy/combinators.py`). Bounded sum, the Łukasiewicz, Einstein and
 * Hamacher pairs and `lambda_op` compute exactly the point operators of
 * module Combinators; only MIN, MAX and product differ, taking exactly two
 * operands instead of any number, so they never raise.
 */
module LegacyCombinators {
  import opened Wrappers
  import opened Reals
  import opened Functions
  import Combinators

  /** Binary `MIN(a, b)`: the classic AND. */
  function MIN(a: Membership, b: Membership): (f: Membership)
    ensures forall x :: f(x) == Min2(a(x), b(x))
    ensures forall x :: f(x) <= a(x) && f(x) <= b(x) && (f(x) == a(x) || f(x) == b(x))
  {
    x => Min2(a(x), b(x))
  }

  /** Binary `MAX(a, b)`: the classic OR. */
  function MAX(a: Membership, b: Membership): (f: Membership)
    ensures forall x :: f(x) == Max2(a(x), b(x))
    ensures forall x :: a(x) <= f(x) && b(x) <= f(x) && (f(x) == a(x) || f(x) == b(x))
  {
    x => Max2(a(x), b(x))
  }

  /** Binary `product(a, b)`. */
  function Product(a: Membership, b: Membership): (f: Membership)
    ensures forall x :: f(x) == a(x) * b(x)
    ensures forall x :: InUnit(a(x)) && InUnit(b(x)) ==> InUnit(f(x)) && f(x) <= a(x) && f(x) <= b(x)
  {
    var f := x => a(x) * b(x);
    ProductAll(a, b, f);
    f
  }

  /** The binary MIN is the smaller operand, a membership when both operands are. */
  lemma MINFacts(a: Membership, b: Membership, x: real)
    ensures MIN(a, b)(x) <= a(x) && MIN(a, b)(x) <= b(x)
    ensures MIN(a, b)(x) == a(x) || MIN(a, b)(x) == b(x)
    ensures InUnit(a(x)) && InUnit(b(x)) ==> InUnit(MIN(a, b)(x))
  {
  }

  /** The binary MIN agrees with the n-ary MIN of the current package on the operands `[a, b]`. */
  lemma MINAgrees(a: Membership, b: Membership, x: real)
    ensures Combinators.MIN([a, b])(x) == Ok(MIN(a, b)(x))
  {
    var vs := Combinators.Values([a, b], x);
    PairValues(a, b, x);
    assert Combinators.MIN([a, b])(x) == Ok(SeqMin(vs));
    var r := SeqMin(vs);
    assert r <= a(x) && r <= b(x);
    assert r == vs[0] || r == vs[1];
    assert r == Min2(a(x), b(x));
    assert MIN(a, b)(x) == Min2(a(x), b(x));
  }

  /** The binary MAX is the larger operand, a membership when both operands are. */
  lemma MAXFacts(a: Membership, b: Membership, x: real)
    ensures MAX(a, b)(x) >= a(x) && MAX(a, b)(x) >= b(x)
    ensures MAX(a, b)(x) == a(x) || MAX(a, b)(x) == b(x)
    ensures InUnit(a(x)) && InUnit(b(x)) ==> InUnit(MAX(a, b)(x))
  {
  }

  /** The binary MAX agrees with the n-ary MAX of the current package on `[a, b]`. */
  lemma MAXAgrees(a: Membership, b: Membership, x: real)
    ensures Combinators.MAX([a, b])(x) == Ok(MAX(a, b)(x))
  {
    var vs := Combinators.Values([a, b], x);
    PairValues(a, b, x);
    assert Combinators.MAX([a, b])(x) == Ok(SeqMax(vs));
    var r := SeqMax(vs);
    assert r >= a(x) && r >= b(x);
    assert r == vs[0] || r == vs[1];
    assert r == Max2(a(x), b(x));
    assert MAX(a, b)(x) == Max2(a(x), b(x));
  }

  /** The binary product stays in [0, 1] and below both operands on [0, 1]. */
  lemma ProductFacts(a: Membership, b: Membership, x: real)
    requires InUnit(a(x)) && InUnit(b(x))
    ensures InUnit(Product(a, b)(x)) && Product(a, b)(x) <= a(x) && Product(a, b)(x) <= b(x)
  {
    var u, v := a(x), b(x);
    var p := Product(a, b)(x);
    assert p == u * v;
    ProductStep(u, v, p);
  }

  /** A pointwise product of memberships of [0, 1] stays in [0, 1] and below both operands. */
  lemma ProductAll(a: Membership, b: Membership, f: Membership)
    requires forall x :: f(x) == a(x) * b(x)
    ensures forall x :: InUnit(a(x)) && InUnit(b(x)) ==> InUnit(f(x)) && f(x) <= a(x) && f(x) <= b(x)
  {
    forall x | InUnit(a(x)) && InUnit(b(x))
      ensures InUnit(f(x)) && f(x) <= a(x) && f(x) <= b(x)
    {
      ProductStep(a(x), b(x), f(x));
    }
  }

  /** The binary product agrees with the n-ary product of the current package on `[a, b]`. */
  lemma ProductAgrees(a: Membership, b: Membership, x: real)
    ensures Combinators.Product([a, b])(x) == Ok(Product(a, b)(x))
  {
    var u, v := a(x), b(x);
    assert Product(a, b)(x) == u * v;
    var vs := Combinators.Values([a, b], x);
    PairValues(a, b, x);
    assert vs[..1] == [u];
    assert Combinators.SeqProduct(vs) == u * v;
    assert Combinators.Product([a, b])(x) == Ok(Combinators.SeqProduct(vs));
  }

  /** The operand values of the pair `[a, b]`. */
  lemma PairValues(a: Membership, b: Membership, x: real)
    ensures Combinators.Values([a, b], x) == [a(x), b(x)]
  {
    var fs := [a, b];
    var vs := Combinators.Values(fs, x);
    assert |vs| == 2;
    assert vs[0] == fs[0](x) && fs[0] == a;
    assert vs[1] == fs[1](x) && fs[1] == b;
  }
}
