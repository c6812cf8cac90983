/**
 When the four operations on rationals are exact (Add, Sub, Mul, Div and
 fromBigRat in backend/internal/gnc/numeric.go).
 */
module Exactness {
  import opened Wrappers
  import opened Numeric

  function Sub(a: Numeric, b: Numeric): Numeric
    requires a.denom != 0 && b.denom != 0
  {
    FromRat(a.num * b.denom - b.num * a.denom, a.denom * b.denom)
  }

  function Mul(a: Numeric, b: Numeric): Numeric
    requires a.denom != 0 && b.denom != 0
  {
    FromRat(a.num * b.num, a.denom * b.denom)
  }

  // None is ErrDivideByZero.
  function Div(a: Numeric, b: Numeric): Option<Numeric>
    requires a.denom != 0 && b.denom != 0
  {
    if b.num == 0 then None else Some(FromRat(a.num * b.denom, a.denom * b.num))
  }

  // The result stands for p/q, with the sign in the numerator.
  predicate Represents(r: Numeric, p: int, q: int) {
    r.denom > 0 && r.num * q == p * r.denom
  }

  // Squeezing a rational back into two int64 fields is exact if and only if
  // its lowest terms fit them.
  lemma FromRatIsExactIff(p: int, q: int)
    requires q != 0
    ensures Represents(FromRat(p, q), p, q) <==> FitsReduced(p, q)
  {
    var (n, d) := Lowest(p, q);
    var r := FromRat(p, q);
    if Represents(r, p, q) {
      Cross(r.num, r.denom, p, q, n, d);
      LowestTermsAreSmallest(n, d, r.num, r.denom);
      ResultFits(p, q);
      if n > INT64_MAX {
        SameSign(n, r.denom, r.num, d);
        assert false;
      }
    }
  }

  lemma ResultFits(p: int, q: int)
    requires q != 0
    ensures Fits(FromRat(p, q).num) && Fits(FromRat(p, q).denom)
  {
    hide Lowest, Wrap;
  }

  // r/s == p/q == n/d
  lemma Cross(r: int, s: int, p: int, q: int, n: int, d: int)
    requires q != 0 && r * q == p * s && n * q == p * d
    ensures n * s == r * d
  {
    MulAssoc(s, n, q);
    MulAssoc(s, p, d);
    MulAssoc(d, r, q);
    MulAssoc(d, p, s);
    assert (n * s) * q == (r * d) * q;
    CancelNonZero(n * s, r * d, q);
  }

  lemma CancelNonZero(x: int, y: int, q: int)
    requires q != 0 && x * q == y * q
    ensures x == y
  {
    if q > 0 {
      Cancel(x, y, q);
    } else {
      assert x * (-q) == y * (-q);
      Cancel(x, y, -q);
    }
  }

  lemma SameSign(n: int, s: int, r: int, d: int)
    requires n > 0 && s > 0 && d > 0 && n * s == r * d
    ensures r > 0
  {
    NonZeroProduct(n, s);
    PositiveFactor(d, r);
  }

  lemma RepresentsValue(r: Numeric, p: int, q: int)
    requires q != 0 && r.denom > 0
    ensures Represents(r, p, q) <==> r.Value() == p as real / q as real
  {
    var x, y := r.num as real / r.denom as real, p as real / q as real;
    assert x * r.denom as real == r.num as real && y * q as real == p as real;
    assert (r.num * q) as real == r.num as real * q as real;
    assert (p * r.denom) as real == p as real * r.denom as real;
    CrossReal(x, y, r.num as real, r.denom as real, p as real, q as real);
  }

  lemma CrossReal(x: real, y: real, a: real, b: real, c: real, d: real)
    requires b != 0.0 && d != 0.0 && x * b == a && y * d == c
    ensures x == y <==> a * d == c * b
  {
    assert a * d == x * (b * d);
    assert c * b == y * (b * d);
    CancelReal(x, y, b * d);
  }

  lemma CancelReal(x: real, y: real, z: real)
    requires z != 0.0
    ensures x == y <==> x * z == y * z
  {
    if x * z == y * z {
      assert (x - y) * z == 0.0;
    }
  }

  // The true results, as quotients of products.
  lemma TrueSums(a: Numeric, b: Numeric)
    requires a.denom != 0 && b.denom != 0 && a.denom * b.denom != 0
    ensures a.Value() + b.Value() == (a.num * b.denom + b.num * a.denom) as real / (a.denom * b.denom) as real
    ensures a.Value() - b.Value() == (a.num * b.denom - b.num * a.denom) as real / (a.denom * b.denom) as real
  {
    var an, ad, bn, bd := a.num as real, a.denom as real, b.num as real, b.denom as real;
    Casts(a.num, b.denom);
    Casts(b.num, a.denom);
    Casts(a.denom, b.denom);
    SumOfQuotients(an, ad, bn, bd);
    SumOfQuotients(an, ad, -bn, bd);
    NegatedQuotient(bn, bd);
  }

  lemma TrueProduct(a: Numeric, b: Numeric)
    requires a.denom != 0 && b.denom != 0 && a.denom * b.denom != 0
    ensures a.Value() * b.Value() == (a.num * b.num) as real / (a.denom * b.denom) as real
  {
    Casts(a.num, b.num);
    Casts(a.denom, b.denom);
    ProductOfQuotients(a.num as real, a.denom as real, b.num as real, b.denom as real);
  }

  lemma TrueQuotient(a: Numeric, b: Numeric)
    requires a.denom != 0 && b.denom != 0 && b.num != 0 && a.denom * b.num != 0
    ensures b.Value() != 0.0 && a.Value() / b.Value() == (a.num * b.denom) as real / (a.denom * b.num) as real
  {
    Casts(a.num, b.denom);
    Casts(a.denom, b.num);
    QuotientOfQuotients(a.num as real, a.denom as real, b.num as real, b.denom as real);
  }

  lemma Casts(x: int, y: int)
    ensures (x * y) as real == x as real * y as real
  {
  }

  lemma NegatedQuotient(x: real, y: real)
    requires y != 0.0
    ensures (-x) / y == -(x / y)
  {
    assert x / y * y == x;
  }

  lemma NonZeroProduct(x: int, y: int)
    requires x != 0 && y != 0
    ensures x * y != 0
  {
  }

  lemma SumOfQuotients(a: real, b: real, c: real, d: real)
    requires b != 0.0 && d != 0.0
    ensures b * d != 0.0 && a / b + c / d == (a * d + c * b) / (b * d)
  {
    var x, y := a / b, c / d;
    assert x * b == a && y * d == c;
    assert (x + y) * (b * d) == a * d + c * b;
    Solve(x + y, b * d, a * d + c * b);
  }

  lemma ProductOfQuotients(a: real, b: real, c: real, d: real)
    requires b != 0.0 && d != 0.0
    ensures b * d != 0.0 && (a / b) * (c / d) == (a * c) / (b * d)
  {
    var x, y := a / b, c / d;
    assert x * b == a && y * d == c;
    assert (x * y) * (b * d) == a * c;
    Solve(x * y, b * d, a * c);
  }

  lemma QuotientOfQuotients(a: real, b: real, c: real, d: real)
    requires b != 0.0 && c != 0.0 && d != 0.0
    ensures c / d != 0.0 && b * c != 0.0 && (a / b) / (c / d) == (a * d) / (b * c)
  {
    var x, y := a / b, c / d;
    assert x * b == a && y * d == c;
    var z := x / y;
    assert z * y == x;
    assert z * (b * c) == (z * y) * (b * d) == a * d;
    Solve(z, b * c, a * d);
  }

  lemma Solve(x: real, y: real, z: real)
    requires y != 0.0 && x * y == z
    ensures x == z / y
  {
  }

  // Add, Sub, Mul and Div give the exact rational, normalised, if and only if
  // its lowest terms fit int64; Div fails exactly for a zero divisor.
  lemma SumsAreExactIff(a: Numeric, b: Numeric)
    requires a.denom > 0 && b.denom > 0
    ensures a.denom * b.denom != 0
    ensures Add(a, b).denom > 0 && Add(a, b).Value() == a.Value() + b.Value()
      <==> FitsReduced(a.num * b.denom + b.num * a.denom, a.denom * b.denom)
    ensures Sub(a, b).denom > 0 && Sub(a, b).Value() == a.Value() - b.Value()
      <==> FitsReduced(a.num * b.denom - b.num * a.denom, a.denom * b.denom)
  {
    hide FromRat, FitsReduced, Represents;
    var q := a.denom * b.denom;
    NonZeroProduct(a.denom, b.denom);
    TrueSums(a, b);
    ExactIff(a.num * b.denom + b.num * a.denom, q);
    ExactIff(a.num * b.denom - b.num * a.denom, q);
  }

  lemma ProductIsExactIff(a: Numeric, b: Numeric)
    requires a.denom > 0 && b.denom > 0
    ensures a.denom * b.denom != 0
    ensures Mul(a, b).denom > 0 && Mul(a, b).Value() == a.Value() * b.Value()
      <==> FitsReduced(a.num * b.num, a.denom * b.denom)
  {
    hide FromRat, FitsReduced, Represents;
    NonZeroProduct(a.denom, b.denom);
    TrueProduct(a, b);
    ExactIff(a.num * b.num, a.denom * b.denom);
  }

  lemma QuotientIsExactIff(a: Numeric, b: Numeric)
    requires a.denom > 0 && b.denom > 0
    ensures Div(a, b).None? <==> b.Value() == 0.0
    ensures b.num != 0 ==> b.Value() != 0.0 && a.denom * b.num != 0
    ensures b.num != 0 ==>
      (Div(a, b).value.denom > 0 && Div(a, b).value.Value() == a.Value() / b.Value()
       <==> FitsReduced(a.num * b.denom, a.denom * b.num))
  {
    hide FromRat, FitsReduced, Represents;
    ZeroQuotient(b.num, b.denom);
    if b.num != 0 {
      NonZeroProduct(a.denom, b.num);
      TrueQuotient(a, b);
      ExactIff(a.num * b.denom, a.denom * b.num);
    }
  }

  lemma ExactIff(p: int, q: int)
    requires q != 0
    ensures FromRat(p, q).denom > 0 && FromRat(p, q).Value() == p as real / q as real <==> FitsReduced(p, q)
  {
    hide FromRat, FitsReduced;
    FromRatIsExactIff(p, q);
    if FromRat(p, q).denom > 0 {
      RepresentsValue(FromRat(p, q), p, q);
    }
  }

  // ------------------------------------------------------------ running sums

  lemma {:induction false} SumFits(values: seq<Numeric>)
    requires Sum(values).Some?
    ensures Fits(Sum(values).value.num) && Fits(Sum(values).value.denom)
  {
    hide Lowest, FromRat;
    if |values| != 0 {
      var init, v := values[..|values| - 1], values[|values| - 1];
      assert values == init + [v];
      SumFromSnoc(ZERO, init, v);
      var s := Sum(init).value;
      NonZeroProduct(s.denom, v.denom);
      ResultFits(s.num * v.denom + v.num * s.denom, s.denom * v.denom);
    }
  }

  ghost predicate SumIsTrue(values: seq<Numeric>, d: int, k: nat)
    requires d > 0 && InUnits(values, d) && k <= |values|
  {
    Sum(values[..k]) == Some(Reduced(UnitSum(values[..k], d), d))
  }

  // The running int64 sum is the exact total, in lowest terms, after each of the
  // values if and only if every one of these totals fits.
  lemma SumsAreTrueIff(values: seq<Numeric>, d: int)
    requires d > 0 && InUnits(values, d)
    ensures (forall k :: 0 <= k <= |values| ==> SumIsTrue(values, d, k)) <==> PartialsFit(values, d)
  {
    hide Sum, Lowest;
    if PartialsFit(values, d) {
      forall k | 0 <= k <= |values|
        ensures SumIsTrue(values, d, k)
      {
        PrefixFits(values, d, k);
        SumReduces(values[..k], d);
      }
    }
    if forall k :: 0 <= k <= |values| ==> SumIsTrue(values, d, k) {
      forall k | 0 <= k <= |values|
        ensures FitsReduced(UnitSum(values[..k], d), d)
      {
        assert SumIsTrue(values, d, k);
        SumFits(values[..k]);
      }
    }
  }

  lemma PrefixFits(values: seq<Numeric>, d: int, n: nat)
    requires PartialsFit(values, d) && n <= |values|
    ensures PartialsFit(values[..n], d)
  {
    hide FitsReduced;
    forall k | 0 <= k <= n
      ensures FitsReduced(UnitSum(values[..n][..k], d), d)
    {
      assert values[..n][..k] == values[..k];
    }
  }

  // The totals before the last value fit.
  ghost predicate EarlierPartialsFit(values: seq<Numeric>, d: int) {
    && 0 < d <= INT64_MAX && InUnits(values, d)
    && forall k :: 0 <= k < |values| ==> FitsReduced(UnitSum(values[..k], d), d)
  }

  // Then only the last addition can wrap, and only in its numerator.
  lemma SumWrapsLast(values: seq<Numeric>, d: int)
    requires EarlierPartialsFit(values, d)
    ensures var (n, m) := Lowest(UnitSum(values, d), d);
      Fits(m) && Sum(values) == Some(Numeric(Wrap(n), m))
  {
    hide Lowest, Sum, FitsReduced, UnitSum, Units, Add, Reduced;
    var (n, m) := Lowest(UnitSum(values, d), d);
    LowestTermsAreSmallest(n, m, UnitSum(values, d), d);
    if |values| == 0 {
      NoValuesWrap(d);
    } else {
      var init, v := values[..|values| - 1], values[|values| - 1];
      assert values == init + [v];
      forall k | 0 <= k <= |init|
        ensures FitsReduced(UnitSum(init[..k], d), d)
      {
        assert init[..k] == values[..k];
      }
      SumReduces(init, d);
      UnitSumSnoc(init, v, d);
      AddWraps(UnitSum(init, d), v, d);
      AddFromSum(init, v);
    }
  }

  lemma NoValuesWrap(d: int)
    requires d > 0
    ensures var (n, m) := Lowest(UnitSum([], d), d);
      Fits(m) && Sum([]) == Some(Numeric(Wrap(n), m))
  {
    hide Lowest;
    ZeroReduced(d);
  }

  lemma EmptySum()
    ensures Sum([]) == Some(ZERO)
  {
  }

  lemma AddFromSum(init: seq<Numeric>, v: Numeric)
    requires Sum(init).Some? && Sum(init).value.denom != 0 && v.denom != 0
    ensures Sum(init + [v]) == Some(Add(Sum(init).value, v))
  {
    SumFromSnoc(ZERO, init, v);
  }

  lemma AddWraps(z: int, v: Numeric, d: int)
    requires 0 < d <= INT64_MAX && v.denom > 0 && d % v.denom == 0
    ensures var (n, m) := Lowest(z + Units(v, d), d);
      Reduced(z, d).denom > 0 && Add(Reduced(z, d), v) == Numeric(Wrap(n), m)
  {
    hide Lowest;
    AddReduces(z, v, d);
    var (n, m) := Lowest(z + Units(v, d), d);
    LowestTermsAreSmallest(n, m, z + Units(v, d), d);
  }

  // ------------------------------------------------------------ without any bound

  const TWO64 := 0x1_0000_0000_0000_0000

  // a is u/d, give or take a multiple of 2^64 units of 1/d.
  ghost predicate Congruent(a: Numeric, u: int, d: int) {
    && a.denom > 0 && d % a.denom == 0
    && exists k: int :: OffBy(Units(a, d), u, k)
  }

  predicate OffBy(z: int, u: int, k: int) {
    z == u + k * TWO64
  }

  lemma WrapIsOff(n: int) returns (k: int)
    ensures Wrap(n) == n + k * TWO64
  {
    k := -((n + 0x8000_0000_0000_0000) / TWO64);
  }

  lemma AddInLowest(a: Numeric, v: Numeric, d: int)
    requires 0 < d <= INT64_MAX && a.denom > 0 && d % a.denom == 0 && v.denom > 0 && d % v.denom == 0
    ensures var (n, m) := Lowest(Units(a, d) + Units(v, d), d);
      Add(a, v) == Numeric(Wrap(n), m)
  {
    hide Lowest, Units;
    var z := Units(a, d) + Units(v, d);
    UnitsOf(a, d);
    UnitsOf(v, d);
    CrossSum(a.num, a.denom, Units(a, d), v.num, v.denom, Units(v, d), d);
    SameLowest(a.num * v.denom + v.num * a.denom, a.denom * v.denom, z, d);
    var (n, m) := Lowest(z, d);
    LowestTermsAreSmallest(n, m, z, d);
  }

  // Cutting z/d in lowest terms to 64 bits moves it by multiples of 2^64 units.
  lemma CutIsOff(z: int, d: int) returns (k: int)
    requires d > 0
    ensures var (n, m) := Lowest(z, d);
      m > 0 && d % m == 0 && OffBy(Units(Numeric(Wrap(n), m), d), z, k)
  {
    hide Lowest, Wrap;
    var (n, m) := Lowest(z, d);
    var c := LowestFactor(n, m, z, d);
    DivExact(m, c);
    var j := WrapIsOff(n);
    k := j * c;
    assert (n + j * TWO64) * c == n * c + k * TWO64 by {
      MulAssoc(c, j, TWO64);
    }
  }

  // Every wrap is by whole multiples of 2^64 units.
  lemma AddIsCongruent(a: Numeric, v: Numeric, u: int, d: int)
    requires 0 < d <= INT64_MAX && Congruent(a, u, d) && v.denom > 0 && d % v.denom == 0
    ensures Congruent(Add(a, v), u + Units(v, d), d)
  {
    hide Lowest, Units, Wrap, Add;
    var k :| OffBy(Units(a, d), u, k);
    AddInLowest(a, v, d);
    var j := CutIsOff(Units(a, d) + Units(v, d), d);
    assert OffBy(Units(Add(a, v), d), u + Units(v, d), k + j);
  }

  // Whatever fits or does not: the int64 sum is the total modulo 2^64 units.
  lemma {:induction false} SumIsCongruent(values: seq<Numeric>, d: int)
    requires 0 < d <= INT64_MAX && InUnits(values, d)
    ensures Sum(values).Some? && Congruent(Sum(values).value, UnitSum(values, d), d)
    decreases |values|
  {
    hide Congruent, Sum;
    if |values| == 0 {
      EmptySum();
      ZeroIsCongruent(d);
    } else {
      var init, v := values[..|values| - 1], values[|values| - 1];
      assert values == init + [v];
      SumIsCongruent(init, d);
      CongruentIsPositive(Sum(init).value, UnitSum(init, d), d);
      AddFromSum(init, v);
      UnitSumSnoc(init, v, d);
      AddIsCongruent(Sum(init).value, v, UnitSum(init, d), d);
    }
  }

  lemma ZeroIsCongruent(d: int)
    requires d > 0
    ensures Congruent(ZERO, 0, d)
  {
    assert OffBy(Units(ZERO, d), 0, 0);
  }

  lemma CongruentIsPositive(a: Numeric, u: int, d: int)
    requires Congruent(a, u, d)
    ensures a.denom > 0 && d % a.denom == 0
  {
  }
}
