/**
 * Domains, the fuzzy sets registered in them, and rules that map
 * combinations of sets to a consequent set.
 *
 * A `Domain` is a measurable dimension (bounds and resolution) holding a
 * registry of named sets; a `Set` wraps a membership function together
 * with a back-reference to its domain, its registered name and a
 * write-once cache of its centre of gravity.
 */
module Classes {
  import opened Wrappers
  import opened Reals
  import opened Sums
  import opened Functions
  import Combinators
  import LegacyCombinators

  // ------------------------------------------------------------------
  // Names and grids
  // ------------------------------------------------------------------

  predicate IdentStart(c: char) { 'a' <= c <= 'z' || 'A' <= c <= 'Z' || c == '_' }
  predicate IdentChar(c: char) { IdentStart(c) || '0' <= c <= '9' }

  /** Python's `str.isidentifier`, for names written in ASCII. */
  predicate IsIdentifier(s: string)
  {
    |s| > 0 && IdentStart(s[0]) && forall i :: 1 <= i < |s| ==> IdentChar(s[i])
  }

  /** The attribute names a domain keeps for itself rather than for sets. */
  const Slots: set<string> := {"_name", "_low", "_high", "_res", "_sets"}

  /** The least integer not below `q`. */
  function Ceil(q: real): (n: int)
    ensures q <= n as real < q + 1.0
  {
    -((-q).Floor)
  }

  /** numpy's `arange(start, stop, step)` for a positive step. */
  function Arange(start: real, stop: real, step: real): (r: seq<real>)
    requires step > 0.0
    ensures |r| == (if Ceil((stop - start) / step) < 0 then 0 else Ceil((stop - start) / step))
    ensures forall i :: 0 <= i < |r| ==> r[i] == start + i as real * step
  {
    var n := Ceil((stop - start) / step);
    seq(if n < 0 then 0 else n, i => start + i as real * step)
  }

  lemma StrictScale(a: real, b: real, s: real)
    requires a < b && s > 0.0
    ensures a * s < b * s
  {
    assert (b - a) * s > 0.0;
  }

  /**
   * The points of `arange` are exactly the grid points below `stop`: every
   * point is below it and the first point left out is not.
   */
  lemma ArangeStopsAtStop(start: real, stop: real, step: real)
    requires step > 0.0 && start < stop
    ensures forall i :: 0 <= i < |Arange(start, stop, step)| ==> Arange(start, stop, step)[i] < stop
    ensures start + |Arange(start, stop, step)| as real * step >= stop
  {
    var q := (stop - start) / step;
    var r := Arange(start, stop, step);
    DivThenMul(stop - start, step);
    assert q * step == stop - start;
    DivPos(stop - start, step);
    var n := Ceil(q);
    assert |r| == n;
    forall i | 0 <= i < |r| ensures r[i] < stop {
      assert (i as real) < q;
      StrictScale(i as real, q, step);
    }
    MulMono(step, q, n as real);
    assert q * step <= n as real * step;
  }

  // ------------------------------------------------------------------
  // Domain
  // ------------------------------------------------------------------

  /** The memberships of `x` in the sets of a registry. */
  function Memberships(m: map<string, Set>, x: real): (vs: set<real>)
    ensures forall n :: n in m ==> m[n].func(x) in vs
    ensures forall v :: v in vs ==> exists n :: n in m && v == m[n].func(x)
    ensures vs == {} <==> m == map[]
  {
    var vs := set n | n in m :: m[n].func(x);
    assert m != map[] ==> vs != {} by {
      if m != map[] {
        var n0 :| n0 in m;
        assert m[n0].func(x) in vs;
      }
    }
    vs
  }

  /** Two sets compare equal inside a domain comparison. */
  predicate SameSetValues(a: Set, b: Set)
    reads a, b
  {
    a == b || (a.domain != null && b.domain != null && a.Array() == b.Array())
  }

  class Domain {
    const name: string
    const low: real
    const high: real
    const res: real
    var sets: map<string, Set>

    /** The two assertions a domain is created under. */
    predicate Valid() { low < high && res > 0.0 }

    constructor (name: string, low: real, high: real, res: real, sets: map<string, Set>)
      requires low < high
      requires res > 0.0
      ensures Valid()
      ensures this.name == name && this.low == low && this.high == high && this.res == res
      ensures this.sets == sets
    {
      this.name := name;
      this.low := low;
      this.high := high;
      this.res := res;
      this.sets := sets;
    }

    /** The membership of `x` in every registered set; values outside [low, high] are only warned about. */
    function Call(x: real): (m: map<Set, real>)
      reads this
      ensures m.Keys == sets.Values
      ensures forall s :: s in m ==> m[s] == s.func(x)
    {
      map s | s in sets.Values :: s.func(x)
    }

    /** The smallest membership of `x` over the registered sets. */
    function Min(x: real): (r: Result<real>)
      reads this
      ensures r.Err? <==> sets == map[]
      ensures r.Err? ==> r.error.ValueError?
      ensures r.Ok? ==> forall n :: n in sets ==> r.value <= sets[n].func(x)
      ensures r.Ok? ==> exists n :: n in sets && r.value == sets[n].func(x)
    {
      if sets == map[] then Err(ValueError("min() arg is an empty sequence"))
      else Ok(SetMin(Memberships(sets, x)))
    }

    /** The largest membership of `x` over the registered sets. */
    function Max(x: real): (r: Result<real>)
      reads this
      ensures r.Err? <==> sets == map[]
      ensures r.Err? ==> r.error.ValueError?
      ensures r.Ok? ==> forall n :: n in sets ==> sets[n].func(x) <= r.value
      ensures r.Ok? ==> exists n :: n in sets && r.value == sets[n].func(x)
    {
      if sets == map[] then Err(ValueError("max() arg is an empty sequence"))
      else Ok(SetMax(Memberships(sets, x)))
    }

    /**
     * `__getattr__`: a registered set by name, or an error. Python reaches it
     * through `d.<name>` only for names that are not attributes of `Domain`.
     */
    function GetAttr(n: string): (r: Result<Set>)
      reads this
      ensures r.Ok? <==> n in sets
      ensures r.Ok? ==> r.value == sets[n]
      ensures r.Err? ==> r.error.AttributeError?
    {
      if n in sets then Ok(sets[n]) else Err(AttributeError(n + " is not a set or attribute"))
    }

    /** Registering a set under a name binds the set to this domain under that name. */
    method Assign(n: string, s: Set)
      requires IsIdentifier(n) && n !in Slots
      modifies this, s
      ensures sets == old(sets)[n := s]
      ensures s.domain == this && s.name == Some(n) && s.cache == old(s.cache)
      ensures GetAttr(n) == Ok(s)
      ensures forall m :: m != n ==> GetAttr(m) == old(GetAttr(m))
    {
      sets := sets[n := s];
      s.domain := this;
      s.name := Some(n);
    }

    /** Registering a bare function wraps it in a new set first. */
    method AssignFunction(n: string, f: Membership) returns (s: Set)
      requires IsIdentifier(n) && n !in Slots
      modifies this
      ensures fresh(s) && s.func == f && s.cache == None
      ensures s.domain == this && s.name == Some(n)
      ensures sets == old(sets)[n := s]
    {
      s := new Set(f, None, null);
      Assign(n, s);
    }

    /** Deleting a name removes its set; any other name is refused. */
    method Delete(n: string) returns (r: Result<()>)
      modifies this
      ensures r.Ok? <==> n in old(sets)
      ensures r.Ok? ==> sets == old(sets) - {n}
      ensures r.Err? ==> r.error.FuzzyWarning? && sets == old(sets)
      ensures GetAttr(n).Err?
    {
      if n in sets {
        sets := sets - {n};
        r := Ok(());
      } else {
        r := Err(FuzzyWarning("Trying to delete a regular attr, this needs extra care."));
      }
    }

    /**
     * The grid the domain is sampled on: from `low` in steps of `res`, up to
     * and including the first point at or past `high`.
     */
    function Range(): (r: seq<real>)
      ensures forall i :: 0 <= i < |r| ==> r[i] == low + i as real * res
    {
      // A constructed domain always has a positive resolution.
      if res > 0.0 then Arange(low, high + res, res) else []
    }

    /** Domain equality: same name, bounds, resolution, and the same sets under the same names. */
    predicate Equals(other: Domain): (b: bool)
      reads this, other, sets.Values, other.sets.Values
      ensures this == other ==> b
      ensures b ==> Range() == other.Range() && sets.Keys == other.sets.Keys
    {
      name == other.name && low == other.low && high == other.high && res == other.res
      && sets.Keys == other.sets.Keys
      && forall n :: n in sets ==> SameSetValues(sets[n], other.sets[n])
    }
  }

  /** The grid starts at low, covers high, and stops before high + res. */
  lemma RangeFacts(d: Domain)
    requires d.Valid()
    ensures |d.Range()| == Ceil((d.high - d.low) / d.res) + 1
    ensures |d.Range()| >= 2 && d.Range()[0] == d.low
    ensures forall i :: 0 <= i < |d.Range()| ==> d.low <= d.Range()[i] < d.high + d.res
    ensures d.Range()[|d.Range()| - 1] >= d.high
  {
    var lo, hi, res := d.low, d.high, d.res;
    var r := d.Range();
    assert r == Arange(lo, hi + res, res);
    ArangeLength(lo, hi, res);
    ArangeStopsAtStop(lo, hi + res, res);
    forall i | 0 <= i < |r| ensures lo <= r[i] {
      ScaledUnitAny(i as real, res);
    }
    var n := |r|;
    assert r[n - 1] + res == lo + n as real * res;
  }

  /** The grid `arange(low, high + res, res)` has one point more than the whole steps from low to high, rounded up. */
  lemma ArangeLength(lo: real, hi: real, res: real)
    requires lo < hi && res > 0.0
    ensures |Arange(lo, hi + res, res)| == Ceil((hi - lo) / res) + 1
    ensures |Arange(lo, hi + res, res)| >= 2
  {
    var q := (hi - lo) / res;
    assert (hi + res - lo) / res == q + 1.0 by {
      var a, b := hi + res - lo, hi - lo;
      DivSub(a, b, res);
      assert a - b == res;
      DivSelf(res);
    }
    assert Ceil(q + 1.0) == Ceil(q) + 1;
    DivPos(hi - lo, res);
  }

  lemma ScaledUnitAny(k: real, t: real)
    requires k >= 0.0 && t >= 0.0
    ensures k * t >= 0.0
  {
  }

  /** When the bounds are a whole number of steps apart, `high` itself is the last grid point. */
  lemma RangeExact(d: Domain, n: nat)
    requires d.Valid() && (d.high - d.low) / d.res == n as real
    ensures |d.Range()| == n + 1
    ensures d.Range()[n] == d.high
  {
    RangeFacts(d);
    assert d.high - d.low == n as real * d.res by { DivThenMul(d.high - d.low, d.res); }
  }

  /** A domain equals itself, and domain equality is symmetric. */
  lemma DomainEqualsFacts(d: Domain, e: Domain)
    ensures d.Equals(d)
    ensures d.Equals(e) ==> e.Equals(d)
  {
    if d.Equals(e) {
      forall n | n in e.sets ensures SameSetValues(e.sets[n], d.sets[n]) {
        assert SameSetValues(d.sets[n], e.sets[n]);
      }
    }
  }

  /** The `==` two operands of a set operation must satisfy: both without domain, or equal domains. */
  predicate SameDomain(a: Domain?, b: Domain?)
    reads Footprint(a), Footprint(b)
  {
    (a == null && b == null) || (a != null && b != null && a.Equals(b))
  }

  // ------------------------------------------------------------------
  // Point functions behind the set modifiers and the centre of gravity
  // ------------------------------------------------------------------

  /** The membership `intensified` gives a value `x` of membership `m`, as written. */
  function IntensifiedAt(m: real, x: real): real
  {
    if x < 0.5 then 2.0 * (m * m) else 1.0 - 2.0 * (1.0 - m * m)
  }

  /** The membership `dilated` gives a value of membership `m`, as written. */
  function DilatedAt(m: real): real
  {
    m / 2.0
  }

  /** The position-weighted sum: each membership times its index on the grid. */
  function IndexMoment(a: seq<real>): real
  {
    if a == [] then 0.0 else IndexMoment(a[..|a| - 1]) + (|a| - 1) as real * a[|a| - 1]
  }

  /** numpy's `average(arange(len(a)), weights=a)`. */
  function IndexCog(a: seq<real>): (r: Result<real>)
    ensures r.Err? <==> SeqSum(a) == 0.0
    ensures r.Err? ==> r.error.ZeroDivisionError?
    ensures r.Ok? ==> r.value * SeqSum(a) == IndexMoment(a)
  {
    if SeqSum(a) == 0.0 then Err(ZeroDivisionError("Weights sum to zero, can't be normalized."))
    else
      DivThenMul(IndexMoment(a), SeqSum(a));
      Ok(IndexMoment(a) / SeqSum(a))
  }

  // ------------------------------------------------------------------
  // Set
  // ------------------------------------------------------------------

  class Set {
    const func: Membership
    var domain: Domain?
    var name: Option<string>
    var cache: Option<real>

    constructor (func: Membership, name: Option<string>, domain: Domain?)
      ensures this.func == func && this.name == name && this.domain == domain
      ensures cache == None
    {
      this.func := func;
      this.name := name;
      this.domain := domain;
      this.cache := None;
    }

    /** The memberships of the domain's grid points, one per point. */
    function Array(): (r: Result<seq<real>>)
      reads this
      ensures r.Err? <==> domain == null
      ensures r.Err? ==> r.error.FuzzyWarning?
      ensures r.Ok? ==> |r.value| == |domain.Range()|
      ensures r.Ok? ==> forall i :: 0 <= i < |r.value| ==> r.value[i] == func(domain.Range()[i])
    {
      if domain == null then Err(FuzzyWarning("No domain assigned."))
      else
        var grid := domain.Range();
        Ok(seq(|grid|, i requires 0 <= i < |grid| => func(grid[i])))
    }

    // Derived sets. Each returns a new set on this set's domain, without a name.

    /** `~s`: the complement. */
    method Invert() returns (r: Set)
      ensures fresh(r) && r.domain == domain && r.name == None && r.cache == None
      ensures forall x :: r.func(x) == 1.0 - func(x)
    {
      r := new Set(Inv(func), None, domain);
    }

    /** `-s`, a synonym for the complement. */
    method Neg() returns (r: Set)
      ensures fresh(r) && r.domain == domain && r.name == None && r.cache == None
      ensures forall x :: r.func(x) == 1.0 - func(x)
    {
      r := Invert();
    }

    /** `s & t`: the minimum of the two memberships. */
    method And(other: Set) returns (r: Set)
      requires SameDomain(domain, other.domain)
      ensures fresh(r) && r.domain == domain && r.name == None && r.cache == None
      ensures forall x :: r.func(x) == Min2(func(x), other.func(x))
      ensures forall x :: Combinators.MIN([func, other.func])(x) == Ok(r.func(x))
    {
      r := new Set(LegacyCombinators.MIN(func, other.func), None, domain);
      forall x ensures Combinators.MIN([func, other.func])(x) == Ok(r.func(x)) {
        LegacyCombinators.MINAgrees(func, other.func, x);
      }
    }

    /** `s | t`: the maximum of the two memberships. */
    method Or(other: Set) returns (r: Set)
      requires SameDomain(domain, other.domain)
      ensures fresh(r) && r.domain == domain && r.name == None && r.cache == None
      ensures forall x :: r.func(x) == Max2(func(x), other.func(x))
      ensures forall x :: Combinators.MAX([func, other.func])(x) == Ok(r.func(x))
    {
      r := new Set(LegacyCombinators.MAX(func, other.func), None, domain);
      forall x ensures Combinators.MAX([func, other.func])(x) == Ok(r.func(x)) {
        LegacyCombinators.MAXAgrees(func, other.func, x);
      }
    }

    /** `s * t`: the product of the two memberships. */
    method Mul(other: Set) returns (r: Set)
      requires SameDomain(domain, other.domain)
      ensures fresh(r) && r.domain == domain && r.name == None && r.cache == None
      ensures forall x :: r.func(x) == func(x) * other.func(x)
      ensures forall x :: Combinators.Product([func, other.func])(x) == Ok(r.func(x))
    {
      r := new Set(LegacyCombinators.Product(func, other.func), None, domain);
      forall x ensures Combinators.Product([func, other.func])(x) == Ok(r.func(x)) {
        LegacyCombinators.ProductAgrees(func, other.func, x);
      }
    }

    /** `s + t`: the bounded sum x + y - x * y. */
    method Add(other: Set) returns (r: Set)
      requires SameDomain(domain, other.domain)
      ensures fresh(r) && r.domain == domain && r.name == None && r.cache == None
      ensures forall x :: r.func(x) == Combinators.BoundedSumOp(func(x), other.func(x))
    {
      r := new Set(Combinators.BoundedSum(func, other.func), None, domain);
    }

    /** `s ^ t`: the simple disjoint sum of the two memberships. */
    method Xor(other: Set) returns (r: Set)
      requires SameDomain(domain, other.domain)
      ensures fresh(r) && r.domain == domain && r.name == None && r.cache == None
      ensures forall x :: r.func(x) == DisjointPairOp(func(x), other.func(x))
      ensures forall x :: Combinators.SimpleDisjointSum([func, other.func])(x) == Ok(r.func(x))
    {
      r := new Set(DisjointPair(func, other.func), None, domain);
      forall x ensures Combinators.SimpleDisjointSum([func, other.func])(x) == Ok(r.func(x)) {
        DisjointPairAgrees(func, other.func, x);
      }
    }

    /** `s ** power`, with Python's `pow` on memberships given as `pow`. */
    method Pow(power: real, pow: (real, real) -> real) returns (r: Set)
      ensures fresh(r) && r.domain == domain && r.name == None && r.cache == None
      ensures forall x :: r.func(x) == pow(func(x), power)
    {
      var f := func;
      r := new Set(x => pow(f(x), power), None, domain);
    }

    // Comparisons over the grid.

    /** `s == t`: both sets have a domain and take the same values on their grids. */
    function Equal(other: Set): (r: Result<bool>)
      reads this, other
      ensures r.Err? <==> domain == null || other.domain == null
      ensures r.Err? ==> r.error.FuzzyWarning?
      ensures r.Ok? ==> (r.value <==>
        |domain.Range()| == |other.domain.Range()|
        && forall i :: 0 <= i < |domain.Range()| ==> func(domain.Range()[i]) == other.func(other.domain.Range()[i]))
    {
      if domain == null || other.domain == null then Err(FuzzyWarning("Impossible to determine."))
      else
        var a, b := Array().value, other.Array().value;
        assert a == b <==> |a| == |b| && forall i :: 0 <= i < |a| ==> a[i] == b[i];
        Ok(a == b)
    }

    /** `<=`, `<`, `>=`, `>`: the comparison holds at every point of the common grid. */
    function Compare(o: Order, other: Set): (r: Result<bool>)
      reads this, other, Footprint(domain), Footprint(other.domain)
      requires SameDomain(domain, other.domain)
      ensures r.Err? <==> domain == null
      ensures r.Err? ==> r.error.FuzzyWarning?
      ensures r.Ok? ==> (r.value <==>
        forall i :: 0 <= i < |domain.Range()| ==> Holds(o, func(domain.Range()[i]), other.func(domain.Range()[i])))
    {
      if domain == null || other.domain == null then Err(FuzzyWarning("Can't compare without Domains."))
      else
        assert other.domain.Range() == domain.Range();
        Ok(AllHold(o, Array().value, other.Array().value))
    }

    /** `len(s)`: the number of grid points. */
    function Len(): (r: Result<nat>)
      reads this
      ensures r.Err? <==> domain == null
      ensures r.Err? ==> r.error.FuzzyWarning?
      ensures r.Ok? ==> r.value == |domain.Range()|
    {
      if domain == null then Err(FuzzyWarning("No domain.")) else Ok(|Array().value|)
    }

    /** `cardinality`: the sum of the memberships over the grid. */
    function Cardinality(): (r: Result<real>)
      reads this
      ensures r.Err? <==> domain == null
      ensures r.Err? ==> r.error.FuzzyWarning?
      ensures r.Ok? ==> Array().Ok? && r.value == SeqSum(Array().value)
    {
      if domain == null then Err(FuzzyWarning("No domain.")) else Ok(SeqSum(Array().value))
    }

    /**
     * `relative_cardinality` as written: after its two checks it calls the
     * number `cardinality` returns, so it never produces a value.
     */
    function RelativeCardinality(): (r: Result<real>)
      reads this
      ensures r.Err?
      ensures domain == null || |domain.Range()| == 0 ==> r.error.FuzzyWarning?
      ensures domain != null && |domain.Range()| > 0 ==> r.error.TypeError?
    {
      if domain == null then Err(FuzzyWarning("No domain."))
      else if |Array().value| == 0 then Err(FuzzyWarning("The domain has no element."))
      else Err(TypeError("'float' object is not callable"))
    }

    /** The intended relative cardinality: the mean membership over the grid. */
    function RelativeCardinalityIntended(): (r: Result<real>)
      reads this
      ensures r.Err? <==> domain == null || |domain.Range()| == 0
      ensures r.Ok? ==> r.value * |domain.Range()| as real == Cardinality().value
    {
      if domain == null then Err(FuzzyWarning("No domain."))
      else if |Array().value| == 0 then Err(FuzzyWarning("The domain has no element."))
      else
        var c, n := SeqSum(Array().value), |Array().value| as real;
        DivThenMul(c, n);
        Ok(c / n)
    }

    // Modifiers.

    /** `concentrated`: the square of the membership, an alternative to the hedge "very". */
    method Concentrated() returns (r: Set)
      ensures fresh(r) && r.domain == domain && r.name == None && r.cache == None
      ensures forall x :: r.func(x) == func(x) * func(x)
    {
      var f := func;
      r := new Set(x => f(x) * f(x), None, domain);
    }

    /** `intensified` as written. */
    method Intensified() returns (r: Set)
      ensures fresh(r) && r.domain == domain && r.name == None && r.cache == None
      ensures forall x :: r.func(x) == IntensifiedAt(func(x), x)
    {
      var f := func;
      r := new Set(x => IntensifiedAt(f(x), x), None, domain);
    }

    /** `dilated` as written: the power binds tighter than the division, so this halves the membership. */
    method Dilated() returns (r: Set)
      ensures fresh(r) && r.domain == domain && r.name == None && r.cache == None
      ensures forall x :: r.func(x) == DilatedAt(func(x))
    {
      var f := func;
      r := new Set(x => DilatedAt(f(x)), None, domain);
    }

    /** The largest membership on the grid, which `normalized` divides by. */
    function Height(): (h: Result<real>)
      reads this
      ensures h.Err? <==> domain == null || |domain.Range()| == 0
      ensures domain == null ==> h.Err? && h.error.FuzzyWarning?
      ensures h.Ok? ==> forall i :: 0 <= i < |domain.Range()| ==> func(domain.Range()[i]) <= h.value
      ensures h.Ok? ==> exists i :: 0 <= i < |domain.Range()| && h.value == func(domain.Range()[i])
    {
      if domain == null then Err(FuzzyWarning("Can't normalize without domain."))
      else if |Array().value| == 0 then Err(ValueError("max() arg is an empty sequence"))
      else Ok(SeqMax(Array().value))
    }

    /**
     * `normalized`: divide by the height, so that the largest membership on the
     * grid becomes 1. A height outside (0, 1] fails `normalize`'s assertion.
     */
    method Normalized() returns (r: Result<Set>)
      ensures r.Err? <==> Height().Err? || !(0.0 < Height().value <= 1.0)
      ensures Height().Err? ==> r.Err? && r.error == Height().error
      ensures Height().Ok? && !(0.0 < Height().value <= 1.0) ==> r.Err? && r.error.AssertionError?
      ensures r.Ok? ==> fresh(r.value) && r.value.domain == domain && r.value.name == None && r.value.cache == None
      ensures r.Ok? ==> r.value.func == Normalize(Height().value, func)
      ensures r.Ok? ==> r.value.Height() == Ok(1.0)
    {
      var h := Height();
      if h.Err? {
        return Err(h.error);
      }
      var height := h.value;
      if !(0.0 < height <= 1.0) {
        return Err(AssertionError("0 < height <= 1"));
      }
      var s := new Set(Normalize(height, func), None, domain);
      NormalizedHeightIsOne(this, s, height);
      r := Ok(s);
    }

    /** The centre of gravity as currently reported: the cached value, or a fresh computation. */
    function Cog(): (r: Result<real>)
      reads this
      ensures cache.Some? ==> r == Ok(cache.value)
      ensures cache.None? && domain == null ==> r.Err? && r.error.FuzzyWarning?
      ensures cache.None? && domain != null ==> r == IndexCog(Array().value)
    {
      if cache.Some? then Ok(cache.value)
      else if domain == null then Err(FuzzyWarning("No domain assigned."))
      else IndexCog(Array().value)
    }

    /** `center_of_gravity`: computed once, then served from the cache. */
    method CenterOfGravity() returns (r: Result<real>)
      modifies this`cache
      ensures r == old(Cog())
      ensures cache == (if old(cache).None? && r.Ok? then Some(r.value) else old(cache))
      ensures r.Ok? ==> Cog() == r
    {
      if cache.Some? {
        return Ok(cache.value);
      }
      var a := Array();
      if a.Err? {
        return Err(a.error);
      }
      r := IndexCog(a.value);
      if r.Ok? {
        cache := Some(r.value);
      }
    }
  }

  /** Dividing a set by its height gives a set of height 1 on the same grid. */
  lemma NormalizedHeightIsOne(s: Set, t: Set, h: real)
    requires s.Height() == Ok(h) && 0.0 < h <= 1.0
    requires t.domain == s.domain && t.func == Normalize(h, s.func)
    ensures t.Height() == Ok(1.0)
  {
    var a, b := s.Array().value, t.Array().value;
    assert h == SeqMax(a);
    ArrayQuotients(s, t, h);
    DividedMaxIsOne(a, b, h);
    assert t.Height() == Ok(SeqMax(b));
  }

  lemma ArrayQuotients(s: Set, t: Set, h: real)
    requires s.domain != null && t.domain == s.domain
    requires 0.0 < h <= 1.0 && t.func == Normalize(h, s.func)
    ensures Quotients(t.Array().value, s.Array().value, h)
  {
    var a, b := s.Array().value, t.Array().value;
    var grid := s.domain.Range();
    forall i | 0 <= i < |b| ensures b[i] * h == a[i] {
      NormalizedAt(h, s.func, t.func, grid[i], b[i], a[i]);
    }
  }

  lemma NormalizedAt(h: real, f: Membership, g: Membership, x: real, bi: real, ai: real)
    requires 0.0 < h <= 1.0 && g == Normalize(h, f)
    requires bi == g(x) && ai == f(x)
    ensures bi * h == ai
  {
    NormalizeScales(h, f, x);
  }

  /** Each element of `b` times `h` is the matching element of `a`. */
  predicate Quotients(b: seq<real>, a: seq<real>, h: real)
  {
    |a| == |b| && forall i :: 0 <= i < |b| ==> b[i] * h == a[i]
  }

  /** Dividing every element by the maximum makes the maximum 1. */
  lemma DividedMaxIsOne(a: seq<real>, b: seq<real>, h: real)
    requires |a| > 0 && h == SeqMax(a) && h > 0.0
    requires Quotients(b, a, h)
    ensures SeqMax(b) == 1.0
  {
    var k :| 0 <= k < |a| && h == a[k];
    var m := SeqMax(b);
    var j :| 0 <= j < |b| && m == b[j];
    DividedAt(a, b, h, m, j, k);
  }

  lemma DividedAt(a: seq<real>, b: seq<real>, h: real, m: real, j: int, k: int)
    requires |a| == |b| > 0 && h > 0.0
    requires 0 <= j < |b| && 0 <= k < |b|
    requires forall i :: 0 <= i < |b| ==> b[i] * h == a[i]
    requires a[j] <= h && a[k] == h && m == b[j] && b[k] <= m
    ensures m == 1.0
  {
    QuotientAtMostOne(b[j], a[j], h);
    QuotientIsOne(b[k], h);
  }

  lemma QuotientAtMostOne(q: real, a: real, h: real)
    requires q * h == a && a <= h && h > 0.0
    ensures q <= 1.0
  {
    assert q * h - h == (q - 1.0) * h;
  }

  lemma QuotientIsOne(q: real, h: real)
    requires q * h == h && h > 0.0
    ensures q == 1.0
  {
    assert (q - 1.0) * h == 0.0;
  }

  /** The two-operand disjoint sum. */
  function DisjointPairOp(x: real, y: real): real
  {
    Max2(Min2(x, 1.0 - y), Min2(1.0 - x, y))
  }

  /** The two-operand disjoint sum agrees with the n-ary one on `[a, b]`. */
  lemma DisjointPairAgrees(a: Membership, b: Membership, x: real)
    ensures Combinators.SimpleDisjointSum([a, b])(x) == Ok(DisjointPairOp(a(x), b(x)))
  {
    Combinators.DisjointSumOfTwo(a, b, x);
  }

  function DisjointPair(a: Membership, b: Membership): (f: Membership)
    ensures forall z :: f(z) == DisjointPairOp(a(z), b(z))
  {
    z => DisjointPairOp(a(z), b(z))
  }

  /** The all-points comparisons used by `<=`, `<`, `>=` and `>`. */
  datatype Order = LessEq | Less | GreaterEq | Greater

  predicate Holds(o: Order, u: real, v: real)
  {
    match o
    case LessEq => u <= v
    case Less => u < v
    case GreaterEq => u >= v
    case Greater => u > v
  }

  /** numpy's elementwise comparison followed by `all`. */
  predicate AllHold(o: Order, a: seq<real>, b: seq<real>)
  {
    forall i :: 0 <= i < |a| && i < |b| ==> Holds(o, a[i], b[i])
  }

  /** A domain together with the sets registered in it. */
  function Footprint(d: Domain?): set<object>
    reads d
  {
    if d != null then {d} + d.sets.Values else {}
  }

  // ------------------------------------------------------------------
  // Properties of sets
  // ------------------------------------------------------------------

  /** Equal domains take the same grid. */
  lemma SameDomainSameGrid(a: Domain?, b: Domain?)
    requires SameDomain(a, b) && a != null
    ensures b != null && a.Range() == b.Range()
    ensures SameDomain(b, a)
  {
    DomainEqualsFacts(a, b);
  }

  /**
   * The comparisons are the subset order of fuzzy sets on the grid: `<`
   * implies `<=`, `>=` and `>` are `<=` and `<` with the sides swapped, and
   * `<=` both ways means equal.
   */
  lemma CompareFacts(s: Set, t: Set)
    requires SameDomain(s.domain, t.domain) && s.domain != null
    ensures SameDomain(t.domain, s.domain)
    ensures s.Compare(Less, t) == Ok(true) ==> s.Compare(LessEq, t) == Ok(true)
    ensures s.Compare(GreaterEq, t) == t.Compare(LessEq, s)
    ensures s.Compare(Greater, t) == t.Compare(Less, s)
    ensures s.Compare(LessEq, t) == Ok(true) && t.Compare(LessEq, s) == Ok(true) ==> s.Equal(t) == Ok(true)
  {
    SameDomainSameGrid(s.domain, t.domain);
    var grid := s.domain.Range();
    if s.Compare(LessEq, t) == Ok(true) && t.Compare(LessEq, s) == Ok(true) {
      forall i | 0 <= i < |grid| ensures s.func(grid[i]) == t.func(grid[i]) {
        assert Holds(LessEq, s.func(grid[i]), t.func(grid[i]));
        assert Holds(LessEq, t.func(grid[i]), s.func(grid[i]));
      }
    }
  }

  /** With memberships in [0, 1] the cardinality lies between 0 and the number of grid points. */
  lemma CardinalityBounds(s: Set)
    requires s.domain != null
    requires forall i :: 0 <= i < |s.domain.Range()| ==> InUnit(s.func(s.domain.Range()[i]))
    ensures s.Cardinality().Ok? && s.Len().Ok?
    ensures 0.0 <= s.Cardinality().value <= s.Len().value as real
  {
    var a := s.Array().value;
    SeqSumBounds(a, 0.0, 1.0);
  }

  /** The relative cardinality as written never yields a number, even on a valid domain. */
  lemma RelativeCardinalityFails(s: Set)
    requires s.domain != null && s.domain.Valid()
    ensures s.RelativeCardinality().Err? && s.RelativeCardinality().error.TypeError?
  {
    RangeFacts(s.domain);
  }

  /** The intended relative cardinality is the mean membership, in [0, 1] when every membership is. */
  lemma RelativeCardinalityIntendedInUnit(s: Set)
    requires s.domain != null && s.domain.Valid()
    requires forall i :: 0 <= i < |s.domain.Range()| ==> InUnit(s.func(s.domain.Range()[i]))
    ensures s.RelativeCardinalityIntended().Ok?
    ensures InUnit(s.RelativeCardinalityIntended().value)
  {
    RangeFacts(s.domain);
    CardinalityBounds(s);
    var c, n := s.Cardinality().value, |s.domain.Range()| as real;
    UnitRatio(c, n);
    assert s.RelativeCardinalityIntended().value == c / n;
  }

  /** Squaring a membership keeps it in [0, 1] and never raises it. */
  lemma ConcentratedFacts(m: real)
    requires InUnit(m)
    ensures InUnit(m * m) && m * m <= m
  {
    UnitProduct(m, m);
  }

  /** `intensified` as written leaves [0, 1] at both ends. */
  lemma IntensifiedLeavesUnit()
    ensures IntensifiedAt(1.0, 0.0) == 2.0
    ensures IntensifiedAt(0.0, 1.0) == -1.0
  {
  }

  /**
   * The intensification operator as intended: 2 m^2 below the crossover
   * point 0.5 and 1 - 2 (1 - m)^2 above it, chosen by the membership.
   */
  function IntensifiedIntendedAt(m: real): real
  {
    if m < 0.5 then 2.0 * (m * m) else 1.0 - 2.0 * ((1.0 - m) * (1.0 - m))
  }

  /** The intended operator stays in [0, 1], dampens memberships below 0.5 and strengthens those above. */
  lemma IntensifiedIntendedFacts(m: real)
    requires InUnit(m)
    ensures InUnit(IntensifiedIntendedAt(m))
    ensures m <= 0.5 ==> IntensifiedIntendedAt(m) <= m
    ensures m >= 0.5 ==> IntensifiedIntendedAt(m) >= m
    ensures IntensifiedIntendedAt(0.0) == 0.0 && IntensifiedIntendedAt(0.5) == 0.5 && IntensifiedIntendedAt(1.0) == 1.0
  {
    if m < 0.5 {
      HalfSquare(m);
    } else {
      HalfSquareComplement(m);
      if m == 0.5 {
        assert IntensifiedIntendedAt(0.5) == 0.5;
      }
    }
  }

  lemma HalfSquareComplement(m: real)
    requires 0.5 <= m <= 1.0
    ensures m <= 1.0 - 2.0 * ((1.0 - m) * (1.0 - m)) <= 1.0
  {
    var u := 1.0 - m;
    HalfSquare(u);
    var p := u * u;
    assert 0.0 <= 2.0 * p <= u;
  }

  /** For u in [0, 1/2], 2 u^2 lies in [0, u]. */
  lemma HalfSquare(u: real)
    requires 0.0 <= u <= 0.5
    ensures 0.0 <= 2.0 * (u * u) <= u
  {
    MulMono(u, u, 0.5);
    MulMono(u, 0.0, u);
  }

  /** `dilated` as written halves every membership: full membership drops to 0.5 instead of staying at 1. */
  lemma DilatedHalves(m: real)
    ensures DilatedAt(1.0) == 0.5
    ensures m > 0.0 ==> DilatedAt(m) < m
  {
  }

  /** The dilation operator as intended: the square root of the membership, with `sqrt` given. */
  function DilatedIntendedAt(sqrt: real -> real, m: real): real
  {
    sqrt(m)
  }

  /** The square root of a membership stays in [0, 1] and never lowers it. */
  lemma DilatedIntendedFacts(sqrt: real -> real, m: real)
    requires InUnit(m)
    requires sqrt(m) >= 0.0 && sqrt(m) * sqrt(m) == m
    ensures InUnit(DilatedIntendedAt(sqrt, m))
    ensures DilatedIntendedAt(sqrt, m) >= m
  {
    SquareRootBounds(sqrt(m), m);
  }

  lemma SquareRootBounds(r: real, m: real)
    requires InUnit(m) && r >= 0.0 && r * r == m
    ensures m <= r <= 1.0
  {
    if r > 1.0 {
      MulMono(r, 1.0, r);
    }
    ScaledUnit(r, r);
  }

  // ------------------------------------------------------------------
  // Properties of the centre of gravity
  // ------------------------------------------------------------------

  /** With non-negative weights the position-weighted sum lies between 0 and (n - 1) times the total weight. */
  lemma {:induction false} IndexMomentBounds(a: seq<real>)
    requires forall i :: 0 <= i < |a| ==> a[i] >= 0.0
    ensures 0.0 <= IndexMoment(a) <= (|a| - 1) as real * SeqSum(a)
    decreases |a|
  {
    if a != [] {
      var n := |a|;
      var init, last := a[..n - 1], a[n - 1];
      IndexMomentBounds(init);
      SeqSumNonNeg(init);
      assert SeqSum(a) == SeqSum(init) + last;
      ScaledUnitAny((n - 1) as real, last);
      MulMono(SeqSum(init), (n - 2) as real, (n - 1) as real);
      assert (n - 1) as real * SeqSum(a) == (n - 1) as real * SeqSum(init) + (n - 1) as real * last;
    }
  }

  /** The centre of gravity of non-negative weights is an index between 0 and n - 1. */
  lemma IndexCogBounds(a: seq<real>)
    requires forall i :: 0 <= i < |a| ==> a[i] >= 0.0
    requires SeqSum(a) > 0.0
    ensures IndexCog(a).Ok?
    ensures 0.0 <= IndexCog(a).value <= (|a| - 1) as real
  {
    IndexMomentBounds(a);
    CancelBetween(IndexCog(a).value, SeqSum(a), IndexMoment(a), (|a| - 1) as real);
  }

  /** A factor whose product with a positive `s` lies in [0, hi * s] lies in [0, hi]. */
  lemma CancelBetween(c: real, s: real, m: real, hi: real)
    requires s > 0.0 && c * s == m && 0.0 <= m <= hi * s
    ensures 0.0 <= c <= hi
  {
    if c < 0.0 {
      StrictScale(c, 0.0, s);
    }
    if c > hi {
      StrictScale(hi, c, s);
    }
  }

  /** Weights that are zero except at one index put the centre of gravity on that index. */
  lemma IndexCogSpike(a: seq<real>, k: int)
    requires 0 <= k < |a| && a[k] > 0.0
    requires forall i :: 0 <= i < |a| && i != k ==> a[i] == 0.0
    ensures IndexCog(a) == Ok(k as real)
  {
    SpikePrefix(a, k, |a|);
    assert a[..|a|] == a;
    var c := IndexCog(a).value;
    assert c * a[k] == k as real * a[k];
    assert (c - k as real) * a[k] == 0.0;
  }

  lemma {:induction false} SpikePrefix(a: seq<real>, k: int, j: int)
    requires 0 <= k < |a| && 0 <= j <= |a|
    requires forall i :: 0 <= i < |a| && i != k ==> a[i] == 0.0
    ensures SeqSum(a[..j]) == (if j > k then a[k] else 0.0)
    ensures IndexMoment(a[..j]) == (if j > k then k as real * a[k] else 0.0)
    decreases j
  {
    if j > 0 {
      SpikePrefix(a, k, j - 1);
      assert a[..j][..j - 1] == a[..j - 1];
    }
  }

  /** `xs` are the points low + i * res. */
  predicate OnGrid(xs: seq<real>, low: real, res: real)
  {
    forall i :: 0 <= i < |xs| ==> xs[i] == low + i as real * res
  }

  /** The coordinate-weighted sum of memberships over grid points `xs`. */
  function CoordinateMoment(xs: seq<real>, a: seq<real>): real
    requires |xs| == |a|
  {
    if a == [] then 0.0
    else CoordinateMoment(xs[..|xs| - 1], a[..|a| - 1]) + xs[|xs| - 1] * a[|a| - 1]
  }

  /**
   * On the grid low + i * res the coordinate-weighted sum is low times the
   * total weight plus res times the index-weighted sum: the centre of
   * gravity as a coordinate is low + res * (the index `center_of_gravity`
   * reports), and the two agree only when low = 0 and res = 1.
   */
  lemma {:induction false} CoordinateMomentOnGrid(low: real, res: real, xs: seq<real>, a: seq<real>)
    requires |xs| == |a| && OnGrid(xs, low, res)
    ensures CoordinateMoment(xs, a) == low * SeqSum(a) + res * IndexMoment(a)
    decreases |a|
  {
    if a != [] {
      var n := |a|;
      var xs', a' := xs[..n - 1], a[..n - 1];
      assert OnGrid(xs', low, res);
      CoordinateMomentOnGrid(low, res, xs', a');
      var w, k := a[n - 1], (n - 1) as real;
      assert xs[n - 1] == low + k * res;
      assert SeqSum(a) == SeqSum(a') + w;
      GridStep(low, res, k, w, CoordinateMoment(xs', a'), SeqSum(a'), IndexMoment(a'));
    }
  }

  /** One grid point at index k with weight w extends both sides of the moment identity alike. */
  lemma GridStep(low: real, res: real, k: real, w: real, m: real, total: real, moment: real)
    requires m == low * total + res * moment
    ensures m + (low + k * res) * w == low * (total + w) + res * (moment + k * w)
  {
  }

  // ------------------------------------------------------------------
  // Rule
  // ------------------------------------------------------------------

  /** The largest antecedent size among `ks`, 0 when there is none. */
  ghost function MaxSize(ks: set<set<Set>>): (n: nat)
    ensures forall k :: k in ks ==> |k| <= n
    ensures ks != {} ==> exists k :: k in ks && |k| == n
    decreases |ks|
  {
    if ks == {} then 0
    else
      var k :| k in ks;
      var rest := MaxSize(ks - {k});
      if |k| >= rest then |k| else rest
  }

  /** Every set a rule table mentions, as antecedent or as consequent. */
  ghost function Mentioned(conditions: map<set<Set>, Set>): set<Set>
  {
    (set K, f | K in conditions && f in K :: f) + conditions.Values
  }

  /** Every antecedent set has a domain, and that domain has an input value. */
  ghost predicate Covered(K: set<Set>, args: map<Domain, real>)
    reads K
  {
    forall f :: f in K ==> f.domain != null && f.domain in args
  }

  /** The firing strength of an antecedent: the smallest membership of its sets at their domains' inputs. */
  ghost function Strength(K: set<Set>, args: map<Domain, real>): real
    reads K
    requires K != {} && Covered(K, args)
  {
    SetMin(AntecedentValues(K, args))
  }

  /** The memberships of the sets of `K` at their domains' inputs. */
  ghost function AntecedentValues(K: set<Set>, args: map<Domain, real>): (vs: set<real>)
    reads K
    requires Covered(K, args)
    ensures K != {} ==> vs != {}
  {
    var vs := set f | f in K :: f.func(args[f.domain]);
    assert K != {} ==> vs != {} by {
      if K != {} {
        var f0 :| f0 in K;
        assert f0.func(args[f0.domain]) in vs;
      }
    }
    vs
  }

  /** The strength is at most every membership of the antecedent, and equals one of them. */
  lemma StrengthIsMinimum(K: set<Set>, args: map<Domain, real>)
    requires K != {} && Covered(K, args)
    ensures forall f :: f in K ==> Strength(K, args) <= f.func(args[f.domain])
    ensures exists f :: f in K && Strength(K, args) == f.func(args[f.domain])
  {
    var vs := AntecedentValues(K, args);
    assert forall f :: f in K ==> f.func(args[f.domain]) in vs;
  }

  /**
   * A rule table: each antecedent (a set of sets, typically one per domain)
   * maps to a consequent set.
   */
  datatype Rule = Rule(conditions: map<set<Set>, Set>)
  {
    /** `+` and `|`: the merged table; on an antecedent both share, the right operand's consequent wins. */
    function Union(other: Rule): (r: Rule)
      ensures r.conditions.Keys == conditions.Keys + other.conditions.Keys
      ensures forall k :: k in other.conditions ==> r.conditions[k] == other.conditions[k]
      ensures forall k :: k in conditions && k !in other.conditions ==> r.conditions[k] == conditions[k]
    {
      Rule(conditions + other.conditions)
    }

    /**
     * `other + rule` with the rule on the right, as `sum(...)` calls it: an
     * integer start value leaves the rule unchanged; a rule on the left is
     * merged as `+` merges, with the left operand's consequent winning.
     */
    function RAdd(other: Addend): (r: Rule)
      ensures other.IntAddend? ==> r == this
      ensures other.RuleAddend? ==> r.conditions.Keys == conditions.Keys + other.rule.conditions.Keys
      ensures other.RuleAddend? ==> forall k :: k in other.rule.conditions ==> r.conditions[k] == other.rule.conditions[k]
      ensures other.RuleAddend? ==> forall k :: k in conditions && k !in other.rule.conditions ==> r.conditions[k] == conditions[k]
    {
      match other
      case IntAddend(_) => this
      case RuleAddend(o) => Union(o)
    }

    /**
     * `==` on rules, that is on their tables: the same antecedents, and under
     * each the same consequent object or consequents that compare equal; a
     * consequent comparison without a domain raises.
     */
    function Equal(other: Rule): (r: Result<bool>)
      reads conditions.Values, other.conditions.Values
      ensures conditions.Keys != other.conditions.Keys ==> r == Ok(false)
      ensures r == Ok(true) ==> conditions.Keys == other.conditions.Keys
      ensures r == Ok(true) ==> forall K :: K in conditions ==>
        conditions[K] == other.conditions[K] || SameSetValues(conditions[K], other.conditions[K])
      ensures conditions.Keys == other.conditions.Keys
              && (forall K :: K in conditions ==>
                    conditions[K] == other.conditions[K] || SameSetValues(conditions[K], other.conditions[K]))
              ==> r == Ok(true)
      ensures r.Err? ==> r.error.FuzzyWarning?
    {
      if conditions.Keys != other.conditions.Keys then Ok(false)
      else if exists K :: K in conditions && conditions[K] != other.conditions[K]
                          && conditions[K].Equal(other.conditions[K]).Err? then
        Err(FuzzyWarning("Impossible to determine."))
      else
        Ok(forall K :: K in conditions ==>
             conditions[K] == other.conditions[K] || conditions[K].Equal(other.conditions[K]).value)
    }

    /** `rule[key]`: the consequent of an antecedent. */
    function GetItem(key: set<Set>): (r: Result<Set>)
      ensures r.Ok? <==> key in conditions
      ensures r.Ok? ==> r.value == conditions[key]
      ensures r.Err? ==> r.error.KeyError?
    {
      if key in conditions then Ok(conditions[key]) else Err(KeyError("antecedent not in rule"))
    }

    /** Every antecedent is non-empty and covered by the arguments. */
    ghost predicate Applicable(args: map<Domain, real>)
      reads Mentioned(conditions)
    {
      forall K :: K in conditions ==> K != {} && Covered(K, args)
    }

    /** The antecedents that fire, with their strengths. */
    ghost function Firing(args: map<Domain, real>): (w: map<set<Set>, real>)
      reads Mentioned(conditions)
      requires Applicable(args)
      ensures w.Keys <= conditions.Keys
      ensures forall K :: K in conditions ==> (K in w <==> Strength(K, args) > 0.0)
      ensures forall K :: K in w ==> w[K] == Strength(K, args) && w[K] > 0.0
    {
      map K | K in conditions && Strength(K, args) > 0.0 :: Strength(K, args)
    }

    /** Some antecedent set has no domain, or its domain has no input value. */
    ghost predicate Uncovered(args: map<Domain, real>)
      reads Mentioned(conditions)
    {
      exists K, f :: K in conditions && f in K && (f.domain == null || f.domain !in args)
    }

    /**
     * Calling a rule: the strength-weighted mean of the centres of gravity of
     * the consequents whose antecedents fire, or None when none fires or the
     * method is not "cog".
     */
    ghost function Infer(args: map<Domain, real>, how: string): (r: Result<Option<real>>)
      reads Mentioned(conditions)
      requires conditions != map[] ==> |args| == MaxSize(conditions.Keys)
      ensures conditions == map[] ==> r.Err? && r.error.ValueError?
      ensures conditions != map[] && how != "cog" ==> r == Ok(None)
    {
      if conditions == map[] then Err(ValueError("max() arg is an empty sequence"))
      else if how != "cog" then Ok(None)
      else InferCog(args)
    }

    /** The "cog" method, once the arity assertion has passed. */
    ghost function InferCog(args: map<Domain, real>): (r: Result<Option<real>>)
      reads Mentioned(conditions)
      ensures Uncovered(args) ==> r.Err? && r.error.KeyError?
      ensures !Uncovered(args) && {} in conditions ==> r.Err? && r.error.ValueError?
    {
      if Uncovered(args) then Err(KeyError("no input value for a domain of the rule"))
      else if {} in conditions then Err(ValueError("min() arg is an empty sequence"))
      else
        ApplicableWhenCovered(args);
        Aggregate(Firing(args))
    }

    lemma ApplicableWhenCovered(args: map<Domain, real>)
      requires !Uncovered(args) && {} !in conditions
      ensures Applicable(args)
    {
      forall K | K in conditions
        ensures K != {} && Covered(K, args)
      {
        forall f | f in K
          ensures f.domain != null && f.domain in args
        {
        }
      }
    }

    /** The weighted mean over the firing antecedents `w`, None when none fires. */
    ghost function Aggregate(w: map<set<Set>, real>): (r: Result<Option<real>>)
      reads conditions.Values
      requires w.Keys <= conditions.Keys
      requires forall K :: K in w ==> w[K] > 0.0
      ensures r == Ok(None) <==> w == map[]
    {
      if w == map[] then Ok(None)
      else if exists K :: K in w && conditions[K].Cog().Err? then
        var K :| K in w && conditions[K].Cog().Err?;
        Err(conditions[K].Cog().error)
      else
        MapSumPositive(w);
        Ok(Some(MapSum(Weighted(w)) / MapSum(w)))
    }

    /** Each firing consequent's centre of gravity times its strength. */
    ghost function Weighted(w: map<set<Set>, real>): (m: map<set<Set>, real>)
      reads conditions.Values
      requires w.Keys <= conditions.Keys
      requires forall K :: K in w ==> conditions[K].Cog().Ok?
      ensures m.Keys == w.Keys
      ensures forall K :: K in m ==> m[K] == conditions[K].Cog().value * w[K]
    {
      map K | K in w :: conditions[K].Cog().value * w[K]
    }
  }

  /** What `sum` adds a rule to: its integer start value, or the rule summed so far. */
  datatype Addend = IntAddend(n: int) | RuleAddend(rule: Rule)

  /** One step of `sum`: `acc + rule`, which falls back to `rule.__radd__` when `acc` is an integer. */
  function Plus(acc: Addend, rule: Rule): (r: Rule)
    ensures acc.IntAddend? ==> r == rule
    ensures acc.RuleAddend? ==> r.conditions.Keys == acc.rule.conditions.Keys + rule.conditions.Keys
  {
    match acc
    case IntAddend(_) => rule.RAdd(acc)
    case RuleAddend(left) => left.Union(rule)
  }

  /** Python's `sum(rules, start)`: the start value for no rules, else the running `+` from the left. */
  function PySum(rules: seq<Rule>, start: Addend): (r: Addend)
    ensures rules == [] ==> r == start
    ensures rules != [] ==> r.RuleAddend?
  {
    if rules == [] then start else RuleAddend(Plus(PySum(rules[..|rules| - 1], start), rules[|rules| - 1]))
  }

  /** `sum(rules)`: 0 for no rules, else the tables merged from left to right. */
  function SumRules(rules: seq<Rule>): (r: Option<Rule>)
    ensures r.None? <==> rules == []
  {
    if rules == [] then None
    else if |rules| == 1 then Some(rules[0])
    else Some(SumRules(rules[..|rules| - 1]).value.Union(rules[|rules| - 1]))
  }

  /** Applicable inputs leave no antecedent uncovered and no empty antecedent. */
  lemma NotUncovered(rule: Rule, args: map<Domain, real>)
    requires rule.Applicable(args)
    ensures !rule.Uncovered(args) && {} !in rule.conditions
  {
    forall K, f | K in rule.conditions && f in K
      ensures f.domain != null && f.domain in args
    {
      assert Covered(K, args);
    }
  }

  /** With applicable inputs, "cog" inference is the weighted mean over the firing antecedents. */
  lemma InferIsAggregate(rule: Rule, args: map<Domain, real>)
    requires rule.conditions != map[] && |args| == MaxSize(rule.conditions.Keys)
    requires rule.Applicable(args)
    ensures rule.Infer(args, "cog") == rule.Aggregate(rule.Firing(args))
  {
    assert rule.Infer(args, "cog") == rule.InferCog(args);
    NotUncovered(rule, args);
  }

  /** No antecedent fires exactly when none has positive strength. */
  lemma FiringEmptyIff(rule: Rule, args: map<Domain, real>)
    requires rule.Applicable(args)
    ensures rule.Firing(args) == map[] <==> forall K :: K in rule.conditions ==> Strength(K, args) <= 0.0
  {
    var w := rule.Firing(args);
    if w != map[] {
      var K :| K in w;
      assert Strength(K, args) > 0.0;
    }
  }

  /** With applicable inputs, inference yields None exactly when no antecedent has positive strength. */
  lemma InferNoneIffNothingFires(rule: Rule, args: map<Domain, real>)
    requires rule.conditions != map[] && |args| == MaxSize(rule.conditions.Keys)
    requires rule.Applicable(args)
    ensures rule.Infer(args, "cog") == Ok(None) <==>
      forall K :: K in rule.conditions ==> Strength(K, args) <= 0.0
  {
    assert rule.Infer(args, "cog") == rule.Aggregate(rule.Firing(args)) by {
      InferIsAggregate(rule, args);
    }
    AggregateNoneIff(rule, args);
    FiringEmptyIff(rule, args);
  }

  lemma AggregateNoneIff(rule: Rule, args: map<Domain, real>)
    requires rule.Applicable(args)
    ensures rule.Aggregate(rule.Firing(args)) == Ok(None) <==> rule.Firing(args) == map[]
  {
  }

  /**
   * When every consequent has a centre of gravity in [lo, hi], the inferred
   * value, if any, lies in [lo, hi] too: it is a weighted mean.
   */
  lemma InferWithinConsequents(rule: Rule, args: map<Domain, real>, lo: real, hi: real)
    requires rule.conditions != map[] && |args| == MaxSize(rule.conditions.Keys)
    requires rule.Applicable(args)
    requires forall K :: K in rule.conditions ==>
      rule.conditions[K].Cog().Ok? && lo <= rule.conditions[K].Cog().value <= hi
    ensures rule.Infer(args, "cog").Ok?
    ensures rule.Infer(args, "cog").value.Some? ==> lo <= rule.Infer(args, "cog").value.value <= hi
  {
    assert rule.Infer(args, "cog") == rule.Aggregate(rule.Firing(args)) by {
      InferIsAggregate(rule, args);
    }
    AggregateWithin(rule, rule.Firing(args), lo, hi);
  }

  /** The bracketing step of InferWithinConsequents, on the firing strengths alone. */
  lemma AggregateWithin(rule: Rule, w: map<set<Set>, real>, lo: real, hi: real)
    requires w.Keys <= rule.conditions.Keys
    requires forall K :: K in w ==> w[K] > 0.0
    requires forall K :: K in w ==>
      rule.conditions[K].Cog().Ok? && lo <= rule.conditions[K].Cog().value <= hi
    ensures rule.Aggregate(w).Ok?
    ensures rule.Aggregate(w).value.Some? ==> lo <= rule.Aggregate(w).value.value <= hi
  {
    if w != map[] {
      var m := rule.Weighted(w);
      var c := map K | K in w :: rule.conditions[K].Cog().value;
      assert WeightedBy(m, c, w) && ValuesWithin(c, lo, hi) by {
        WeightedByCogs(rule, w, m, c, lo, hi);
      }
      MapMeanBetween(w, m, c, lo, hi);
    }
  }

  lemma WeightedByCogs(rule: Rule, w: map<set<Set>, real>, m: map<set<Set>, real>, c: map<set<Set>, real>,
                       lo: real, hi: real)
    requires w.Keys <= rule.conditions.Keys
    requires forall K :: K in w ==> w[K] > 0.0
    requires forall K :: K in w ==>
      rule.conditions[K].Cog().Ok? && lo <= rule.conditions[K].Cog().value <= hi
    requires m == rule.Weighted(w)
    requires c == map K | K in w :: rule.conditions[K].Cog().value
    ensures WeightedBy(m, c, w) && ValuesWithin(c, lo, hi)
  {
  }

  /** A table with one antecedent that fires infers its consequent's centre of gravity. */
  lemma InferSingleRule(K: set<Set>, c: Set, args: map<Domain, real>)
    requires K != {} && Covered(K, args) && |args| == |K|
    requires Strength(K, args) > 0.0 && c.Cog().Ok?
    ensures Rule(map[K := c]).Infer(args, "cog") == Ok(Some(c.Cog().value))
  {
    var rule := Rule(map[K := c]);
    assert rule.conditions.Keys == {K};
    assert MaxSize(rule.conditions.Keys) == |K|;
    InferIsAggregate(rule, args);
    var x := Strength(K, args);
    assert rule.Firing(args) == map[K := x];
    AggregateSingle(rule, K, x, c.Cog().value);
  }

  lemma AggregateSingle(rule: Rule, K: set<Set>, x: real, g: real)
    requires K in rule.conditions && x > 0.0 && rule.conditions[K].Cog() == Ok(g)
    ensures rule.Aggregate(map[K := x]) == Ok(Some(g))
  {
    var w := map[K := x];
    var m := rule.Weighted(w);
    assert m.Keys == {K} && m[K] == g * x;
    assert m == map[K := g * x];
    MapSumSingleton(K, x);
    MapSumSingleton(K, g * x);
    MulDivCancel(g, x);
  }

  /** `sum(rules)` holds every antecedent of every rule, each with the consequent of the last rule that has it. */
  lemma {:induction false} SumRulesContents(rules: seq<Rule>, K: set<Set>)
    requires rules != []
    ensures K in SumRules(rules).value.conditions <==> exists i :: 0 <= i < |rules| && K in rules[i].conditions
    ensures forall i :: (0 <= i < |rules| && K in rules[i].conditions &&
                         (forall j :: i < j < |rules| ==> K !in rules[j].conditions)) ==>
                        SumRules(rules).value.conditions[K] == rules[i].conditions[K]
  {
    if |rules| > 1 {
      var init := rules[..|rules| - 1];
      SumRulesContents(init, K);
      assert forall i :: 0 <= i < |init| ==> init[i] == rules[i];
    }
  }

  /** `sum(rules)` with its default start 0 is the left-to-right merge of the tables. */
  lemma {:induction false} PySumIsSumRules(rules: seq<Rule>, n: int)
    ensures PySum(rules, IntAddend(n)) == if rules == [] then IntAddend(n) else RuleAddend(SumRules(rules).value)
  {
    if |rules| > 1 {
      PySumIsSumRules(rules[..|rules| - 1], n);
    }
  }

  /** Every rule equals itself, and rule equality does not depend on the order of the operands. */
  lemma RuleEqualFacts(a: Rule, b: Rule)
    ensures a.Equal(a) == Ok(true)
    ensures a.Equal(b) == b.Equal(a)
  {
  }
}
