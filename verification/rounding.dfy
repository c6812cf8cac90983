/**
 Converting an exact rational to a fixed denominator (Convert and bankerRound
 in backend/internal/gnc/numeric.go). The scaled value is a real number x; a
 rounding mode is a relation between x and the integer it becomes.
 */
module Rounding {
  import opened Wrappers
  import opened Numeric

  datatype Mode = Banker | Truncate | Floor | Ceiling | Never

  datatype Error = BadTarget | Remainder

  ghost predicate IsFloor(r: int, x: real) {
    r as real <= x < r as real + 1.0
  }

  ghost predicate IsCeiling(r: int, x: real) {
    r as real - 1.0 < x <= r as real
  }

  ghost predicate IsNearestEven(r: int, x: real) {
    var gap := x - r as real;
    && -0.5 <= gap <= 0.5
    && (gap == -0.5 || gap == 0.5 ==> r % 2 == 0)
  }

  ghost predicate Rounds(mode: Mode, r: int, x: real) {
    match mode
    case Floor => IsFloor(r, x)
    case Ceiling => IsCeiling(r, x)
    case Truncate => if x >= 0.0 then IsFloor(r, x) else IsCeiling(r, x)
    case Banker => IsNearestEven(r, x)
    case Never => Equals(r, x)
  }

  ghost predicate Equals(r: int, x: real) {
    x == r as real
  }

  ghost predicate IsWhole(x: real) {
    exists r :: Equals(r, x)
  }

  // x is quo + rem/q, as Euclidean division finds it.
  ghost predicate Splits(x: real, quo: int, rem: int, q: int) {
    var f := x - quo as real;
    && 0.0 <= f < 1.0
    && (f == 0.0 <==> rem == 0)
    && (f < 0.5 <==> 2 * rem < q) && (f == 0.5 <==> 2 * rem == q)
  }

  lemma SplitQuotient(p: int, q: int)
    requires q > 0
    ensures Splits(p as real / q as real, p / q, p % q, q)
    ensures p as real / q as real < 0.0 <==> p < 0
  {
    var x := p as real / q as real;
    var f := x - (p / q) as real;
    assert p == q * (p / q) + p % q;
    assert f * q as real == (p % q) as real by {
      assert x * q as real == p as real;
      assert (p / q) as real * q as real == (q * (p / q)) as real;
    }
    Scale(f, q, p % q);
    Scale(x, q, p);
  }

  // f*q == n decides where f lies.
  lemma Scale(f: real, q: int, n: int)
    requires q > 0 && f * q as real == n as real
    ensures f < 0.0 <==> n < 0
    ensures f == 0.0 <==> n == 0
    ensures f < 1.0 <==> n < q
    ensures f < 0.5 <==> 2 * n < q
    ensures f == 0.5 <==> 2 * n == q
  {
    ScaleLess(f, q, n, 0);
    ScaleLess(f, q, n, 1);
    assert (2.0 * f) * q as real == (2 * n) as real;
    ScaleLess(2.0 * f, q, 2 * n, 1);
  }

  lemma ScaleLess(f: real, q: int, n: int, b: int)
    requires q > 0 && f * q as real == n as real
    ensures f < b as real <==> n < b * q
    ensures f == b as real <==> n == b * q
  {
    Below(f, b as real, q as real);
    assert (b * q) as real == b as real * q as real;
  }

  lemma Below(a: real, b: real, d: real)
    requires d > 0.0
    ensures a < b <==> a * d < b * d
    ensures a == b <==> a * d == b * d
  {
  }

  // Rounding half to even: quo is adjusted in place from the remainder.
  method BankerRound(quo0: int, rem: int, q: int, ghost x: real) returns (quo: int)
    requires 0 <= rem < q && Splits(x, quo0, rem, q)
    ensures IsNearestEven(quo, x)
  {
    quo := quo0;
    var sign := if rem < 0 then -1 else 1;
    if 2 * Abs(rem) < Abs(q) {
    } else if 2 * Abs(rem) > Abs(q) {
      quo := quo + sign;
    } else if quo % 2 != 0 {
      quo := quo + sign;
    }
  }

  lemma NotWhole(lo: int, x: real)
    requires lo as real < x < lo as real + 1.0
    ensures !IsWhole(x)
  {
    forall r
      ensures !Equals(r, x)
    {
      if r <= lo {
        assert r as real <= lo as real;
      } else {
        assert r as real >= (lo + 1) as real;
      }
    }
  }

  // The switch over modes, for a quotient that left a remainder; None is the
  // remainder error.
  method Adjust(quo0: int, rem: int, q: int, negative: bool, mode: Mode, ghost x: real) returns (r: Option<int>)
    requires 0 < rem < q && Splits(x, quo0, rem, q) && (negative <==> x < 0.0)
    ensures r.None? <==> mode.Never?
    ensures r.Some? ==> Rounds(mode, r.value, x)
    ensures !IsWhole(x)
  {
    NotWhole(quo0, x);
    var quo := quo0;
    match mode {
      case Never =>
        return None;
      case Truncate =>
        if negative && rem != 0 {
          quo := quo + 1;
        }
      case Floor =>
      case Ceiling =>
        if rem > 0 {
          quo := quo + 1;
        }
      case Banker =>
        quo := BankerRound(quo, rem, q, x);
    }
    r := Some(quo);
  }

  ghost function Scaled(n: Numeric, target: int): real
    requires n.denom > 0
  {
    (n.num * target) as real / n.denom as real
  }

  // The result is the one integer the mode allows for n * target, cut to 64
  // bits; conversion fails only for a bad target or a remainder under Never.
  ghost predicate IsConversion(n: Numeric, target: int, mode: Mode, r: Result<Numeric, Error>)
    requires n.denom > 0
  {
    && (r == Err(BadTarget) <==> target <= 0)
    && (target > 0 ==> (r == Err(Remainder) <==> mode.Never? && !IsWhole(Scaled(n, target))))
    && (r.Ok? ==>
        && r.value.denom == target
        && exists quo: int :: Rounds(mode, quo, Scaled(n, target)) && r.value.num == Wrap(quo))
  }

  method Convert(n: Numeric, target: int, mode: Mode) returns (r: Result<Numeric, Error>)
    requires n.denom > 0
    ensures IsConversion(n, target, mode, r)
  {
    if target <= 0 {
      return Err(BadTarget);
    }
    var p := n.num * target;
    SplitQuotient(p, n.denom);
    var quo, rem := p / n.denom, p % n.denom;
    if rem == 0 {
      assert Equals(quo, Scaled(n, target));
      assert Rounds(mode, quo, Scaled(n, target));
      return Ok(Numeric(Wrap(quo), target));
    }
    var adjusted := Adjust(quo, rem, n.denom, p < 0, mode, Scaled(n, target));
    if adjusted.None? {
      return Err(Remainder);
    }
    assert Rounds(mode, adjusted.value, Scaled(n, target));
    r := Ok(Numeric(Wrap(adjusted.value), target));
  }

  // A mode allows at most one integer, so Convert's contract fixes its result.
  lemma RoundsIsFunctional(mode: Mode, x: real, r: int, s: int)
    requires Rounds(mode, r, x) && Rounds(mode, s, x)
    ensures r == s
  {
    RoundsIsMonotone(mode, x, x, r, s);
    RoundsIsMonotone(mode, x, x, s, r);
  }

  lemma RoundsIsMonotone(mode: Mode, x: real, y: real, r: int, s: int)
    requires x <= y && Rounds(mode, r, x) && Rounds(mode, s, y)
    ensures r <= s
  {
  }

  lemma RoundsNegated(x: real, r: int)
    ensures Rounds(Banker, r, x) <==> Rounds(Banker, -r, -x)
    ensures Rounds(Truncate, r, x) <==> Rounds(Truncate, -r, -x)
    ensures Rounds(Floor, r, -x) <==> Rounds(Ceiling, -r, x)
  {
    assert (-r) as real == -(r as real);
  }

  lemma WholeRoundsToItself(mode: Mode, r: int, again: int)
    ensures Rounds(mode, again, r as real) <==> again == r
  {
    if Rounds(mode, again, r as real) {
      RoundsIsFunctional(mode, r as real, again, r);
    }
  }

  // A converted value, scaled to its own denominator, is its numerator.
  lemma ScaledBack(n: Numeric)
    requires n.denom > 0
    ensures Scaled(n, n.denom) == n.num as real
  {
    assert (n.num * n.denom) as real == n.num as real * n.denom as real;
  }

  // Converting a converted value again, to the same denominator and in whatever
  // mode, succeeds and keeps it, also where the first conversion wrapped.
  lemma ConvertingAgainKeeps(
    n: Numeric, target: int, mode: Mode, r: Numeric, againMode: Mode, again: Result<Numeric, Error>)
    requires n.denom > 0 && target > 0 && IsConversion(n, target, mode, Ok(r))
    requires IsConversion(r, target, againMode, again)
    ensures again == Ok(r)
  {
    ScaledBack(r);
    assert Equals(r.num, Scaled(r, target));
    match again {
      case Err(BadTarget) =>
      case Err(Remainder) =>
      case Ok(v) =>
        var quo: int :| Rounds(againMode, quo, Scaled(r, target)) && v.num == Wrap(quo);
        WholeRoundsToItself(againMode, r.num, quo);
    }
  }

  // Never succeeds exactly when floor, ceiling, truncation and banker agree.
  lemma NeverMeansAllAgree(x: real, f: int, c: int, t: int, b: int)
    requires Rounds(Floor, f, x) && Rounds(Ceiling, c, x) && Rounds(Truncate, t, x) && Rounds(Banker, b, x)
    ensures IsWhole(x) <==> f == c == t == b
  {
    if IsWhole(x) {
      var r :| Equals(r, x);
      assert r == f && r == c && r == t;
      RoundsIsFunctional(Banker, x, r, b);
    }
    if f == c == t == b {
      assert Equals(f, x);
    }
  }

  // The banker error is at most half a unit, and each mode stays within one.
  lemma RoundingError(mode: Mode, x: real, r: int)
    requires Rounds(mode, r, x)
    ensures -1.0 < x - r as real < 1.0
    ensures mode.Banker? ==> -0.5 <= x - r as real <= 0.5
  {
  }
}
