/** The two failure-compatible shapes used throughout. */
module Wrappers {
  datatype Option<+T> = None | Some(value: T)

  datatype Result<+T, +E> = Ok(value: T) | Err(error: E)
}

/**
 Exact rationals over int64 (backend/internal/gnc/numeric.go). Sums are formed
 on unbounded rationals and then squeezed back into two 64-bit fields, so every
 exactness claim carries a bound.
 */
module Numeric {
  import opened Wrappers

  const INT64_MAX: int := 0x7fff_ffff_ffff_ffff
  const INT64_MIN: int := -0x8000_0000_0000_0000

  predicate Fits(x: int) {
    INT64_MIN <= x <= INT64_MAX
  }

  // big.Int.Int64 keeps the low 64 bits; so does int64 negation.
  function Wrap(x: int): (r: int)
    ensures Fits(r)
    ensures Fits(x) <==> r == x
  {
    (x + 0x8000_0000_0000_0000) % 0x1_0000_0000_0000_0000 - 0x8000_0000_0000_0000
  }

  // ---------------------------------------------------------------- products

  lemma MulAssoc(a: int, b: int, c: int)
    ensures a * (b * c) == (a * b) * c == b * (a * c)
  {
  }

  lemma MulNegated(a: int, b: int)
    ensures (-a) * b == -(a * b)
  {
  }

  lemma MulDist(a: int, b: int, c: int)
    ensures a * (b + c) == a * b + a * c
  {
  }

  lemma MulAtLeast(a: int, b: int)
    requires a >= 1 && b >= 0
    ensures a * b >= b
  {
  }

  lemma MulGrows(a: int, b: int)
    requires a > 0 && b >= 2
    ensures a * b > a
  {
  }

  lemma Cancel(x: int, y: int, q: int)
    requires q > 0 && x * q == y * q
    ensures x == y
  {
  }

  lemma PositiveFactor(a: int, b: int)
    requires a > 0 && a * b > 0
    ensures b > 0
  {
  }

  // ---------------------------------------------------------------- gcd

  ghost predicate Divides(d: int, x: int) {
    exists k: int :: x == d * k
  }

  function Gcd(a: nat, b: nat): (g: nat)
    ensures a > 0 || b > 0 ==> g > 0
    decreases b
  {
    if b == 0 then a else Gcd(b, a % b)
  }

  // Bezout coefficients of Gcd(a, b).
  function Bezout(a: nat, b: nat): (c: (int, int))
    ensures a * c.0 + b * c.1 == Gcd(a, b)
    decreases b
  {
    if b == 0 then (1, 0) else
    var c := Bezout(b, a % b);
    BezoutStep(a, b, c.0, c.1);
    (c.1, c.0 - (a / b) * c.1)
  }

  lemma BezoutStep(a: nat, b: nat, x: int, y: int)
    requires b > 0
    ensures b * x + (a % b) * y == a * y + b * (x - (a / b) * y)
  {
    var k := a / b;
    assert a == b * k + a % b;
    MulAssoc(b, k, y);
    assert (a % b) * y == a * y - (b * k) * y;
    MulDist(b, x, -(k * y));
  }

  lemma {:induction false} GcdDivides(a: nat, b: nat)
    requires a > 0 || b > 0
    ensures Divides(Gcd(a, b), a) && Divides(Gcd(a, b), b)
    decreases b
  {
    var g := Gcd(a, b);
    if b == 0 {
      assert a == g * 1 && b == g * 0;
    } else {
      GcdDivides(b, a % b);
      var j: int :| b == g * j;
      var k: int :| a % b == g * k;
      assert a == b * (a / b) + a % b;
      MulAssoc(g, j, a / b);
      MulDist(g, j * (a / b), k);
      assert a == g * (j * (a / b) + k);
    }
  }

  // Euclid's loop computes the function above, which is the greatest common divisor.
  method GcdLoop(x: nat, y: nat) returns (g: nat)
    requires x > 0 || y > 0
    ensures g > 0 && Divides(g, x) && Divides(g, y)
    ensures forall d: nat :: d > 0 && Divides(d, x) && Divides(d, y) ==> d <= g
    ensures g == Gcd(x, y)
  {
    var a: int, b: int := x, y;
    while b != 0
      invariant a >= 0 && b >= 0 && (a > 0 || b > 0)
      invariant Gcd(a, b) == Gcd(x, y)
      decreases b
    {
      a, b := b, a % b;
    }
    g := a;
    GcdDivides(x, y);
    forall d: nat | d > 0 && Divides(d, x) && Divides(d, y)
      ensures d <= g
    {
      GcdGreatest(x, y, d);
    }
  }

  lemma GcdGreatest(a: nat, b: nat, d: nat)
    requires a > 0 || b > 0
    requires d > 0 && Divides(d, a) && Divides(d, b)
    ensures d <= Gcd(a, b)
  {
    var c := Bezout(a, b);
    var j: int :| a == d * j;
    var k: int :| b == d * k;
    MulAssoc(d, j, c.0);
    MulAssoc(d, k, c.1);
    MulDist(d, j * c.0, k * c.1);
    var m := j * c.0 + k * c.1;
    PositiveFactor(d, m);
    MulAtLeast(m, d);
  }

  // If p/q == z/d with p/q in lowest terms, then z/d is p/q times m over m.
  lemma LowestFactor(p: int, q: int, z: int, d: int) returns (m: int)
    requires q > 0 && d > 0 && p * d == z * q
    requires Gcd(Abs(p), q) == 1
    ensures m > 0 && q * m == d && p * m == z
  {
    var c := Bezout(Abs(p), q);
    var x := if p < 0 then -c.0 else c.0;
    assert p * x + q * c.1 == 1;
    m := x * z + c.1 * d;
    Refactor(p, q, z, d, x, c.1);
    PositiveFactor(q, m);
    MulAssoc(p, m, q);
    Cancel(p * m, z, q);
  }

  lemma LowestTermsAreSmallest(p: int, q: int, z: int, d: int)
    requires q > 0 && d > 0 && p * d == z * q
    requires Gcd(Abs(p), q) == 1
    ensures q <= d && Abs(p) <= Abs(z)
  {
    var m := LowestFactor(p, q, z, d);
    MulAtLeast(m, q);
    AbsMul(p, m);
    MulAtLeast(m, Abs(p));
  }

  lemma Refactor(p: int, q: int, z: int, d: int, x: int, y: int)
    requires p * d == z * q && p * x + q * y == 1
    ensures q * (x * z + y * d) == d
  {
    MulDist(q, x * z, y * d);
    MulAssoc(q, x, z);
    MulAssoc(x, z, q);
    MulAssoc(x, p, d);
    assert x * (p * d) == x * (z * q);
    MulAssoc(q, y, d);
    assert (p * x) * d + (q * y) * d == (p * x + q * y) * d;
  }

  lemma AbsMul(p: int, m: int)
    requires m > 0
    ensures Abs(p * m) == Abs(p) * m
  {
  }

  // ---------------------------------------------------------------- values

  // num/denom as stored: two int64 fields.
  datatype Numeric = Numeric(num: int, denom: int) {
    ghost function Value(): real
      requires denom != 0
    {
      num as real / denom as real
    }
  }

  function Abs(x: int): nat {
    if x < 0 then -x else x
  }

  const ZERO := Numeric(0, 1)

  // New panics on a zero denominator.
  function New(num: int, denom: int): (r: Numeric)
    requires denom != 0
    ensures denom > INT64_MIN && num > INT64_MIN && Fits(num) && Fits(denom)
      ==> r.denom > 0 && r.Value() == num as real / denom as real
  {
    if denom < 0 then
      assert -num as real / -denom as real == num as real / denom as real;
      Numeric(Wrap(-num), Wrap(-denom))
    else Numeric(num, denom)
  }

  // A big.Rat: lowest terms, positive denominator.
  function Lowest(p: int, q: int): (r: (int, int))
    requires q != 0
    ensures r.1 > 0 && r.0 * q == p * r.1
    ensures Gcd(Abs(r.0), r.1) == 1
  {
    var g := Gcd(Abs(p), Abs(q));
    LowestFacts(p, q);
    ((if q < 0 then -p else p) / g, Abs(q) / g)
  }

  lemma LowestFacts(p: int, q: int)
    requires q != 0
    ensures var g := Gcd(Abs(p), Abs(q));
            var n := (if q < 0 then -p else p) / g;
            && Abs(q) / g > 0
            && n * q == p * (Abs(q) / g)
            && Gcd(Abs(n), Abs(q) / g) == 1
  {
    var g := Gcd(Abs(p), Abs(q));
    GcdDivides(Abs(p), Abs(q));
    var sp := if q < 0 then -p else p;
    var k := Quotient(g, Abs(q));
    var j := Quotient(g, sp);
    assert k > 0 by { PositiveFactor(g, k); }
    assert j * Abs(q) == sp * k by {
      MulAssoc(j, g, k);
      MulAssoc(g, j, k);
    }
    AbsMul(j, g);
    CofactorsAreCoprime(Abs(p), Abs(q), g, Abs(j), k);
  }

  ghost function Quotient(g: int, x: int): (k: int)
    requires g > 0 && Divides(g, Abs(x))
    ensures k == x / g && x == g * k
  {
    assert Divides(g, x) by {
      var j: int :| Abs(x) == g * j;
      assert x == g * j || x == g * (-j);
    }
    var k: int :| x == g * k;
    DivExact(g, k);
    k
  }

  lemma DivExact(g: int, k: int)
    requires g > 0
    ensures (g * k) / g == k && (g * k) % g == 0
  {
    var d := (g * k) / g;
    assert g * k == g * d + (g * k) % g;
    MulDist(g, k, -d);
    assert 0 <= g * (k - d) < g;
    if k - d > 0 {
      MulAtLeast(k - d, g);
      assert false;
    } else if k - d < 0 {
      MulAtLeast(d - k, g);
      assert false;
    }
  }

  lemma CofactorsAreCoprime(a: nat, b: nat, g: nat, j: nat, k: nat)
    requires b > 0 && g == Gcd(a, b) && a == g * j && b == g * k && k > 0
    ensures Gcd(j, k) == 1
  {
    var h := Gcd(j, k);
    GcdDivides(j, k);
    var m: int :| j == h * m;
    var n: int :| k == h * n;
    MulAssoc(g, h, m);
    MulAssoc(g, h, n);
    MulAtLeast(g, h);
    GcdGreatest(a, b, g * h);
    if h >= 2 {
      MulGrows(g, h);
      assert false;
    }
  }

  // fromBigRat: each field is cut to 64 bits; a denominator that wrapped
  // negative flips both signs.
  function FromRat(p: int, q: int): (r: Numeric)
    requires q != 0
    ensures Fits(Lowest(p, q).0) && Fits(Lowest(p, q).1) ==>
      r == Numeric(Lowest(p, q).0, Lowest(p, q).1)
  {
    var low := Lowest(p, q);
    var num, denom := Wrap(low.0), Wrap(low.1);
    if denom < 0 then Numeric(Wrap(-num), Wrap(-denom)) else Numeric(num, denom)
  }

  // A zero denominator (a sum whose denominator wrapped) makes SetFrac64 panic.
  function Add(a: Numeric, b: Numeric): Numeric
    requires a.denom != 0 && b.denom != 0
  {
    FromRat(a.num * b.denom + b.num * a.denom, a.denom * b.denom)
  }

  function Neg(a: Numeric): Numeric {
    Numeric(Wrap(-a.num), a.denom)
  }

  // None stands for the division-by-zero panic.
  function SumFrom(acc: Numeric, values: seq<Numeric>): Option<Numeric>
    decreases |values|
  {
    if |values| == 0 then Some(acc)
    else if acc.denom == 0 || values[0].denom == 0 then None
    else SumFrom(Add(acc, values[0]), values[1..])
  }

  function Sum(values: seq<Numeric>): Option<Numeric> {
    SumFrom(ZERO, values)
  }

  lemma {:induction false} SumFromSnoc(acc: Numeric, values: seq<Numeric>, v: Numeric)
    ensures SumFrom(acc, values + [v]) ==
      match SumFrom(acc, values)
      case None => None
      case Some(s) => if s.denom == 0 || v.denom == 0 then None else Some(Add(s, v))
    decreases |values|
  {
    if |values| == 0 {
      assert values + [v] == [v];
      assert [v][1..] == [];
    } else {
      assert (values + [v])[1..] == values[1..] + [v];
      if acc.denom != 0 && values[0].denom != 0 {
        SumFromSnoc(Add(acc, values[0]), values[1..], v);
      }
    }
  }

  // The accumulating loop of Sum.
  method SumLoop(values: seq<Numeric>) returns (r: Option<Numeric>)
    ensures r == Sum(values)
  {
    var acc := Some(ZERO);
    var i := 0;
    while i < |values|
      invariant 0 <= i <= |values|
      invariant acc == Sum(values[..i])
    {
      SumFromSnoc(ZERO, values[..i], values[i]);
      assert values[..i + 1] == values[..i] + [values[i]];
      acc := match acc
        case None => None
        case Some(s) => if s.denom == 0 || values[i].denom == 0 then None else Some(Add(s, values[i]));
      i := i + 1;
    }
    assert values[..i] == values;
    r := acc;
  }

  // ---------------------------------------------------------------- exactness

  ghost function RealSum(values: seq<Numeric>): real
    requires forall v <- values :: v.denom != 0
  {
    if |values| == 0 then 0.0 else values[0].Value() + RealSum(values[1..])
  }

  // Every value is a whole number of 1/d units.
  ghost predicate InUnits(values: seq<Numeric>, d: int) {
    forall v <- values :: v.denom > 0 && d % v.denom == 0
  }

  function Units(v: Numeric, d: int): int
    requires v.denom > 0
  {
    v.num * (d / v.denom)
  }

  function UnitSum(values: seq<Numeric>, d: int): int
    requires forall v <- values :: v.denom > 0
  {
    if |values| == 0 then 0 else Units(values[0], d) + UnitSum(values[1..], d)
  }

  predicate FitsReduced(p: int, q: int)
    requires q != 0
  {
    Fits(Lowest(p, q).0) && Fits(Lowest(p, q).1)
  }

  // p/q in lowest terms, as a pair of unbounded fields.
  function Reduced(p: int, q: int): Numeric
    requires q != 0
  {
    Numeric(Lowest(p, q).0, Lowest(p, q).1)
  }

  // Every running total, written in lowest terms, has int64 fields. Large values
  // of opposite sign are no obstacle.
  ghost predicate PartialsFit(values: seq<Numeric>, d: int) {
    && d > 0 && InUnits(values, d)
    && forall k :: 0 <= k <= |values| ==> FitsReduced(UnitSum(values[..k], d), d)
  }

  // A simpler sufficient bound, on the running totals in units.
  lemma SmallPartialsFit(values: seq<Numeric>, d: int)
    requires 0 < d <= INT64_MAX && InUnits(values, d)
    requires forall k :: 0 <= k <= |values| ==> Abs(UnitSum(values[..k], d)) <= INT64_MAX
    ensures PartialsFit(values, d)
  {
    forall k | 0 <= k <= |values|
      ensures FitsReduced(UnitSum(values[..k], d), d)
    {
      var u := UnitSum(values[..k], d);
      var low := Lowest(u, d);
      LowestTermsAreSmallest(low.0, low.1, u, d);
    }
  }

  // Lowest terms are unique.
  lemma IsLowest(n: int, m: int, p: int, q: int)
    requires m > 0 && q > 0 && n * q == p * m && Gcd(Abs(n), m) == 1
    ensures Lowest(p, q) == (n, m)
  {
    var low := Lowest(p, q);
    SameRatio(low.0, low.1, p, q, n, m);
    SameRatio(n, m, p, q, low.0, low.1);
    LowestTermsAreSmallest(n, m, low.0, low.1);
    LowestTermsAreSmallest(low.0, low.1, n, m);
    Cancel(n, low.0, m);
  }

  lemma SameLowest(p: int, q: int, u: int, d: int)
    requires q > 0 && d > 0 && p * d == u * q
    ensures Lowest(p, q) == Lowest(u, d)
  {
    var low := Lowest(p, q);
    SameRatio(low.0, low.1, p, q, u, d);
    IsLowest(low.0, low.1, u, d);
  }

  lemma LowestNegated(p: int, q: int)
    requires q > 0
    ensures Lowest(-p, q) == (-Lowest(p, q).0, Lowest(p, q).1)
  {
    hide Lowest, Gcd;
    var low := Lowest(p, q);
    MulNegated(low.0, q);
    MulNegated(p, low.1);
    IsLowest(-low.0, low.1, -p, q);
  }

  lemma ValueInUnits(v: Numeric, d: int)
    requires v.denom > 0 && d > 0 && d % v.denom == 0
    ensures v.Value() == Units(v, d) as real / d as real
  {
    UnitsOf(v, d);
    SameQuotient(v.num, v.denom, Units(v, d), d);
  }

  // a/b == c/d from cross products
  lemma SameQuotient(a: int, b: int, c: int, d: int)
    requires b > 0 && d > 0 && a * d == c * b
    ensures a as real / b as real == c as real / d as real
  {
    assert a as real * d as real == (a * d) as real;
    assert c as real * b as real == (c * b) as real;
    CrossToQuotient(a as real, b as real, c as real, d as real);
  }

  lemma CrossToQuotient(a: real, b: real, c: real, d: real)
    requires b != 0.0 && d != 0.0 && a * d == c * b
    ensures a / b == c / d
  {
    assert a == (c * b) / d;
    assert (c * b) / d / b == c / d;
  }

  // What Add squeezes into its fields is the true sum in lowest terms.
  lemma AddReduces(z: int, v: Numeric, d: int)
    requires d > 0 && v.denom > 0 && d % v.denom == 0
    ensures var a := Reduced(z, d);
      && a.denom > 0 && a.denom * v.denom > 0
      && Lowest(a.num * v.denom + v.num * a.denom, a.denom * v.denom) == Lowest(z + Units(v, d), d)
  {
    var a := Reduced(z, d);
    UnitsOf(v, d);
    CrossSum(a.num, a.denom, z, v.num, v.denom, Units(v, d), d);
    SameLowest(a.num * v.denom + v.num * a.denom, a.denom * v.denom, z + Units(v, d), d);
  }

  // One Add lands exactly on the sum whenever the sum's lowest terms fit.
  lemma AddIsExact(z: int, v: Numeric, d: int)
    requires d > 0 && v.denom > 0 && d % v.denom == 0
    requires FitsReduced(z + Units(v, d), d)
    ensures Add(Reduced(z, d), v) == Reduced(z + Units(v, d), d)
  {
    AddReduces(z, v, d);
  }

  lemma CrossSum(an: int, ad: int, z: int, vn: int, vd: int, y: int, d: int)
    requires an * d == z * ad && vn * d == y * vd && ad > 0 && vd > 0
    ensures ad * vd > 0
    ensures (an * vd + vn * ad) * d == (z + y) * (ad * vd)
  {
    MulAssoc(an, vd, d);
    MulAssoc(vd, an, d);
    MulAssoc(vd, z, ad);
    MulAssoc(vn, ad, d);
    MulAssoc(ad, vn, d);
    MulAssoc(ad, y, vd);
    MulAssoc(z, ad, vd);
    MulAssoc(y, ad, vd);
    assert (an * vd) * d == z * (ad * vd);
    assert (vn * ad) * d == y * (ad * vd);
  }

  // l/m == p/q == u/d
  lemma SameRatio(l: int, m: int, p: int, q: int, u: int, d: int)
    requires q > 0 && l * q == p * m && p * d == u * q
    ensures l * d == u * m
  {
    MulAssoc(d, l, q);
    MulAssoc(d, p, m);
    MulAssoc(m, u, q);
    assert (l * d) * q == d * (l * q) == d * (p * m) == (p * d) * m == (u * q) * m;
    assert (u * q) * m == (u * m) * q;
    Cancel(l * d, u * m, q);
  }

  lemma UnitsOf(v: Numeric, d: int)
    requires v.denom > 0 && d % v.denom == 0
    ensures v.num * d == Units(v, d) * v.denom
  {
    assert d == v.denom * (d / v.denom);
    MulAssoc(v.num, v.denom, d / v.denom);
  }

  lemma {:induction false} UnitSumSnoc(values: seq<Numeric>, v: Numeric, d: int)
    requires v.denom > 0 && forall w <- values :: w.denom > 0
    ensures UnitSum(values + [v], d) == UnitSum(values, d) + Units(v, d)
  {
    if |values| == 0 {
      assert values + [v] == [v] && [v][1..] == [];
    } else {
      assert (values + [v])[1..] == values[1..] + [v];
      UnitSumSnoc(values[1..], v, d);
    }
  }

  lemma ZeroReduced(d: int)
    requires d > 0
    ensures Reduced(0, d) == ZERO
  {
    IsLowest(0, 1, 0, d);
  }

  // If the running totals before the last one fit, what is added last finds the
  // exact sum so far.
  lemma {:induction false} SumReduces(values: seq<Numeric>, d: int)
    requires d > 0 && InUnits(values, d)
    requires forall k :: 0 <= k <= |values| ==> FitsReduced(UnitSum(values[..k], d), d)
    ensures Sum(values) == Some(Reduced(UnitSum(values, d), d))
    decreases |values|
  {
    if |values| == 0 {
      ZeroReduced(d);
    } else {
      var init, v := values[..|values| - 1], values[|values| - 1];
      assert values == init + [v];
      forall k | 0 <= k <= |init|
        ensures FitsReduced(UnitSum(init[..k], d), d)
      {
        assert init[..k] == values[..k];
      }
      SumReduces(init, d);
      SumFromSnoc(ZERO, init, v);
      UnitSumSnoc(init, v, d);
      assert values[..|values|] == values;
      AddIsExact(UnitSum(init, d), v, d);
    }
  }

  lemma {:induction false} RealSumInUnits(values: seq<Numeric>, d: int)
    requires d > 0 && InUnits(values, d)
    ensures RealSum(values) == UnitSum(values, d) as real / d as real
  {
    if |values| != 0 {
      ValueInUnits(values[0], d);
      RealSumInUnits(values[1..], d);
    }
  }

  // Within the bound the int64 sum is the exact rational sum, in lowest terms.
  lemma SumIsExact(values: seq<Numeric>, d: int)
    requires PartialsFit(values, d)
    ensures Sum(values) == Some(Reduced(UnitSum(values, d), d))
    ensures Sum(values).value.denom > 0 && Fits(Sum(values).value.num) && Fits(Sum(values).value.denom)
    ensures Sum(values).value.Value() == RealSum(values)
    ensures Sum(values).value.num == 0 <==> RealSum(values) == 0.0
  {
    SumReduces(values, d);
    RealSumInUnits(values, d);
    assert values[..|values|] == values;
    var r := Sum(values).value;
    SameQuotient(r.num, r.denom, UnitSum(values, d), d);
    ZeroQuotient(r.num, r.denom);
  }

  lemma ZeroQuotient(a: int, b: int)
    requires b > 0
    ensures a as real / b as real == 0.0 <==> a == 0
  {
    var x := a as real / b as real;
    assert x * b as real == a as real;
  }
}
