/** The scripts' calls into `random`, with the generator's output passed in:
    a draw is a number u in [0, 1), the value `random.random()` returns, and
    every sampling call is a function of the draw it consumes. A lemma per
    call shows that every value of the documented range is reachable. */
module RandomDraws {
  import opened Numerics

  predicate IsDraw(u: real) { 0.0 <= u < 1.0 }

  /** A stream of draw pairs indexed by the call that consumes them. */
  ghost predicate DrawPairs(d: nat -> (real, real))
  {
    forall i: nat :: IsDraw(d(i).0) && IsDraw(d(i).1)
  }

  lemma MulNonNeg(x: real, y: real)
    requires 0.0 <= x && 0.0 <= y
    ensures 0.0 <= x * y
  {
  }

  /** A quotient by a positive number lies in [0, 1) exactly when the
      dividend lies in [0, divisor). */
  lemma FractionIsDraw(p: real, d: real)
    requires 0.0 <= p < d
    ensures IsDraw(p / d)
  {
    var u := p / d;
    assert d * u == p;
    assert d * (1.0 - u) == d - p;
  }

  /** `random.uniform(a, b)`: `a + (b - a) * random()`. */
  function Uniform(a: real, b: real, u: real): (r: real)
    requires a <= b && IsDraw(u)
    ensures a <= r <= b
  {
    MulNonNeg(b - a, u);
    MulNonNeg(b - a, 1.0 - u);
    assert (b - a) - (b - a) * u == (b - a) * (1.0 - u);
    a + (b - a) * u
  }

  lemma UniformCovers(a: real, b: real, x: real)
    requires a <= x < b
    ensures IsDraw((x - a) / (b - a)) && Uniform(a, b, (x - a) / (b - a)) == x
  {
    FractionIsDraw(x - a, b - a);
  }

  lemma ScaleBelow(u: real, n: int)
    requires IsDraw(u) && n > 0
    ensures 0.0 <= u * n as real < n as real
  {
    assert n as real - u * n as real == (1.0 - u) * n as real;
  }

  /** `random.randint(a, b)` for a <= b: one of the b − a + 1 integers in
      [a, b], selected by the draw. (For a > b Python raises ValueError;
      callers check that case first.) */
  function RandInt(a: int, b: int, u: real): (r: int)
    requires a <= b && IsDraw(u)
    ensures a <= r <= b
  {
    ScaleBelow(u, b - a + 1);
    a + Trunc(u * (b - a + 1) as real)
  }

  lemma RandIntCovers(a: int, b: int, v: int)
    requires a <= v <= b
    ensures IsDraw((v - a) as real / (b - a + 1) as real)
    ensures RandInt(a, b, (v - a) as real / (b - a + 1) as real) == v
  {
    var n := (b - a + 1) as real;
    var u := (v - a) as real / n;
    FractionIsDraw((v - a) as real, n);
    assert u * n == (v - a) as real;
  }
}
