/** Python's numeric primitives as exact arithmetic: floats are `real`,
    `int(x)` truncates toward zero, `round` rounds half to even, `//` floors
    and `%` takes the sign of the divisor. */
module Numerics {

  /** `np.clip(x, lo, hi)` and `max(lo, min(hi, x))` for lo <= hi. */
  function Clip(x: real, lo: real, hi: real): (r: real)
    requires lo <= hi
    ensures lo <= r <= hi
    ensures lo <= x <= hi ==> r == x
    ensures x <= lo ==> r == lo
    ensures hi <= x ==> r == hi
  {
    if x < lo then lo else if x > hi then hi else x
  }

  /** `np.clip(x, 0, 1)`. */
  function Clip01(x: real): (r: real)
    ensures 0.0 <= r <= 1.0
    ensures 0.0 <= x <= 1.0 ==> r == x
  {
    Clip(x, 0.0, 1.0)
  }

  lemma ClipMonotone(x: real, y: real, lo: real, hi: real)
    requires lo <= hi && x <= y
    ensures Clip(x, lo, hi) <= Clip(y, lo, hi)
  {
  }

  /** Python's `int(x)` on a float: truncation toward zero. */
  function Trunc(x: real): (n: int)
    ensures 0.0 <= x ==> 0 <= n && n as real <= x < n as real + 1.0
    ensures x < 0.0 ==> n <= 0 && n as real - 1.0 < x <= n as real
  {
    if x >= 0.0 then x.Floor else -((-x).Floor)
  }

  lemma TruncMonotone(x: real, y: real)
    requires x <= y
    ensures Trunc(x) <= Trunc(y)
  {
    if x >= 0.0 {
    } else if y < 0.0 {
      assert (-y).Floor <= (-x).Floor;
    }
  }

  /** Python 3's built-in `round(x)`: the nearest integer, ties to the even one. */
  function RoundHalfEven(x: real): (n: int)
    ensures x - 0.5 <= n as real <= x + 0.5
    ensures (n as real == x - 0.5 || n as real == x + 0.5) ==> n % 2 == 0
  {
    var f := x.Floor;
    var d := x - f as real;
    if d < 0.5 then f
    else if d > 0.5 then f + 1
    else if f % 2 == 0 then f else f + 1
  }

  lemma RoundHalfEvenOfInt(k: int)
    ensures RoundHalfEven(k as real) == k
  {
  }

  /** Rounding is monotone, ties included: half-to-even only moves a tie to
      one of the two neighbours, and both neighbours of a tie are shared by
      every real between them. */
  lemma RoundHalfEvenMonotone(x: real, y: real)
    requires x <= y
    ensures RoundHalfEven(x) <= RoundHalfEven(y)
  {
    var fx, fy := x.Floor, y.Floor;
    if fx == fy {
      var dx, dy := x - fx as real, y - fy as real;
      assert dx <= dy;
    } else {
      assert fx < fy;
      assert RoundHalfEven(x) <= fx + 1 <= fy <= RoundHalfEven(y);
    }
  }

  /** Python's `round(x, 3)` over exact reals. */
  function Round3(x: real): (r: real)
    ensures x - 0.0005 <= r <= x + 0.0005
  {
    RoundHalfEven(x * 1000.0) as real / 1000.0
  }

  /** A value given to three decimals is in range and rounding to three
      decimals keeps every value of such a range inside it. */
  lemma Round3InRange(x: real, lo: int, hi: int)
    requires lo as real / 1000.0 <= x <= hi as real / 1000.0
    ensures lo as real / 1000.0 <= Round3(x) <= hi as real / 1000.0
  {
    RoundHalfEvenMonotone(lo as real, x * 1000.0);
    RoundHalfEvenMonotone(x * 1000.0, hi as real);
    RoundHalfEvenOfInt(lo);
    RoundHalfEvenOfInt(hi);
  }

  /** Python's `a // b`: the floor of the exact quotient. */
  function FloorDiv(a: int, b: int): (q: int)
    requires b != 0
    ensures 0 < b ==> b * q <= a < b * q + b
    ensures b < 0 ==> b * q + b < a <= b * q
  {
    if b > 0 then a / b
    else
      var q := (-a) / (-b);
      assert -a == (-b) * q + (-a) % (-b);
      q
  }

  /** Python's `a % b`: the remainder of floor division, with the divisor's sign. */
  function PyMod(a: int, b: int): (r: int)
    requires b != 0
    ensures a == b * FloorDiv(a, b) + r
    ensures 0 < b ==> 0 <= r < b
    ensures b < 0 ==> b < r <= 0
  {
    a - b * FloorDiv(a, b)
  }

  /** Python's `a % b == 0` holds exactly when Dafny's Euclidean `a % b == 0`
      does, whatever the signs: both say that b divides a. */
  lemma PyModZeroIff(a: int, b: int)
    requires b != 0
    ensures PyMod(a, b) == 0 <==> a % b == 0
  {
    if PyMod(a, b) == 0 {
      DividesMod(a, b, FloorDiv(a, b));
    }
    if a % b == 0 {
      var k := a / b;
      assert a == b * k;
      if b > 0 {
        assert FloorDiv(a, b) == k;
      } else {
        assert b * k + b < a <= b * k;
        FloorDivUnique(a, b, k);
      }
    }
  }

  /** Euclidean remainders ignore the divisor's sign. */
  lemma ModNegDivisor(a: int, c: int)
    requires c > 0
    ensures a % (-c) == a % c
  {
  }

  lemma DividesMod(a: int, b: int, k: int)
    requires b != 0 && a == b * k
    ensures a % b == 0
  {
    var q, r := a / b, a % b;
    assert a == b * q + r && 0 <= r < (if b < 0 then -b else b);
    var m := k - q;
    assert r == b * m;
    if m > 0 {
      if b > 0 { MulAtLeast(b, m); } else { MulAtLeast(-b, m); }
    } else if m < 0 {
      if b > 0 { MulAtLeast(b, -m); } else { MulAtLeast(-b, -m); }
    }
  }

  /** Euclidean division is determined by its defining equation. */
  lemma DivModUnique(a: int, s: int, q: int, r: int)
    requires s > 0 && a == q * s + r && 0 <= r < s
    ensures a / s == q && a % s == r
  {
    var q', r' := a / s, a % s;
    assert a == q' * s + r' && 0 <= r' < s;
    assert (q - q') * s == r' - r;
    if q > q' {
      MulAtLeast(s, q - q');
    } else if q < q' {
      MulAtLeast(s, q' - q);
    }
  }

  /** ceil((m + 1) / s) exceeds ceil(m / s) exactly when s divides m. */
  lemma CeilDivStep(m: nat, s: int)
    requires s > 0
    ensures (m + s) / s == (m + s - 1) / s + (if m % s == 0 then 1 else 0)
  {
    var q, r := m / s, m % s;
    var qs := q * s;
    assert m == qs + r;
    assert (q + 1) * s == qs + s;
    if r == 0 {
      DivModUnique(m + s - 1, s, q, s - 1);
      DivModUnique(m + s, s, q + 1, 0);
    } else {
      DivModUnique(m + s - 1, s, q + 1, r - 1);
      DivModUnique(m + s, s, q + 1, r);
    }
  }

  lemma MulMonotone(a: int, b: int, s: int)
    requires a <= b && 0 <= s
    ensures a * s <= b * s
  {
    assert b * s - a * s == (b - a) * s;
  }

  lemma MulAtLeast(c: int, m: int)
    requires c > 0 && m > 0
    ensures c * m >= c
  {
    assert c * m == c + c * (m - 1);
  }

  lemma FloorDivUnique(a: int, b: int, k: int)
    requires b < 0 && b * k + b < a <= b * k
    ensures FloorDiv(a, b) == k
  {
    var q := FloorDiv(a, b);
    if q < k {
      MulMonoNeg(b, q, k - 1);
    } else if q > k {
      MulMonoNeg(b, k + 1, q);
    }
  }

  lemma MulMonoNeg(b: int, x: int, y: int)
    requires b < 0 && x <= y
    ensures b * x >= b * y
  {
    assert b * y - b * x == b * (y - x);
  }

  function Sum(s: seq<real>): real
  {
    if s == [] then 0.0 else s[0] + Sum(s[1..])
  }

  /** `np.mean` of a non-empty list, over exact reals. */
  function Mean(s: seq<real>): real
    requires s != []
  {
    Sum(s) / |s| as real
  }

  lemma {:induction false} SumBounds(s: seq<real>, lo: real, hi: real)
    requires forall i :: 0 <= i < |s| ==> lo <= s[i] <= hi
    ensures |s| as real * lo <= Sum(s) <= |s| as real * hi
  {
    if s != [] {
      SumBounds(s[1..], lo, hi);
      var m := |s[1..]| as real;
      assert |s| as real * lo == lo + m * lo;
      assert |s| as real * hi == hi + m * hi;
    }
  }

  /** A non-negative number no larger than a positive divisor gives a
      quotient in [0, 1]. */
  lemma FractionInUnit(a: real, d: real)
    requires 0.0 <= a <= d && 0.0 < d
    ensures 0.0 <= a / d <= 1.0
  {
    var q := a / d;
    assert q * d == a;
    assert (1.0 - q) * d == d - a;
  }

  /** The mean of values in [lo, hi] lies in [lo, hi]. */
  lemma MeanBounds(s: seq<real>, lo: real, hi: real)
    requires s != []
    requires forall i :: 0 <= i < |s| ==> lo <= s[i] <= hi
    ensures lo <= Mean(s) <= hi
  {
    SumBounds(s, lo, hi);
    var n := |s| as real;
    assert n * lo <= Sum(s) <= n * hi;
    assert lo == (n * lo) / n && hi == (n * hi) / n;
  }
}
