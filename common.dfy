// Helpers shared by the models: an Option type for JavaScript's `null`, and
// `Math.random()` made explicit. Every call of `Math.random()` becomes a real
// draw `u` with 0 <= u < 1 that the caller supplies; `Math.floor(u * m)` and
// `Math.ceil(u * m)` are then computed exactly.
module Common {

  datatype Option<+T> = None | Some(value: T)

  /** What `Math.random()` may return: a number in [0, 1). */
  predicate IsDraw(u: real)
  {
    0.0 <= u < 1.0
  }

  predicate AreDraws(us: seq<real>)
  {
    forall k :: 0 <= k < |us| ==> IsDraw(us[k])
  }

  /** `Math.floor(u * m)`. */
  function FloorScaled(u: real, m: int): int
  {
    (u * m as real).Floor
  }

  /** `Math.ceil(u * m)`. */
  function CeilScaled(u: real, m: int): int
  {
    -((-(u * m as real)).Floor)
  }

  lemma ScaledDrawBelow(u: real, m: real)
    requires IsDraw(u) && m > 0.0
    ensures 0.0 <= u * m < m
  {
    assert (1.0 - u) * m > 0.0;
  }

  /** A draw scaled by m >= 1 and rounded down picks one of 0 .. m-1. */
  lemma FloorScaledBounds(u: real, m: int)
    requires IsDraw(u) && m >= 1
    ensures 0 <= FloorScaled(u, m) < m
  {
    ScaledDrawBelow(u, m as real);
  }

  /** Rounded up, it picks one of 0 .. m; 0 only for the draw u == 0. */
  lemma CeilScaledBounds(u: real, m: int)
    requires IsDraw(u) && m >= 1
    ensures 0 <= CeilScaled(u, m) <= m
    ensures CeilScaled(u, m) == 0 <==> u == 0.0
  {
    ScaledDrawBelow(u, m as real);
    if u > 0.0 {
      assert u * m as real > 0.0;
    }
  }

  /** Every outcome 0 .. m-1 of a scaled floor is reached: by the draw v / m. */
  lemma FloorScaledExact(v: int, m: int)
    requires 0 <= v < m
    ensures IsDraw(v as real / m as real)
    ensures FloorScaled(v as real / m as real, m) == v
  {
    var u := v as real / m as real;
    DivTimes(v as real, m as real);
    assert (1.0 - u) * m as real == (m - v) as real;
    PositiveFactor(1.0 - u, m as real);
  }

  /** Every outcome 1 .. m of a scaled ceiling is reached: by the draw
      (2v - 1) / 2m, which scales to v - 1/2. */
  lemma CeilScaledExact(v: int, m: int)
    requires 1 <= v <= m
    ensures IsDraw((2 * v - 1) as real / (2 * m) as real)
    ensures CeilScaled((2 * v - 1) as real / (2 * m) as real, m) == v
  {
    var u := (2 * v - 1) as real / (2 * m) as real;
    DivTimes((2 * v - 1) as real, (2 * m) as real);
    assert u * m as real == (u * (2 * m) as real) / 2.0;
    assert (1.0 - u) * (2 * m) as real == (2 * m - 2 * v + 1) as real;
    PositiveFactor(1.0 - u, (2 * m) as real);
  }

  lemma DivTimes(x: real, d: real)
    requires d != 0.0
    ensures x / d * d == x
  {
  }

  /** Distributivity on the left and on the right, stated once for the
      integer arithmetic of the other modules. */
  lemma Distribute(a: int, x: int, y: int)
    ensures a * (x + y) == a * x + a * y
  {
  }

  lemma SplitFactor(a: int, b: int, y: int)
    ensures (a + b) * y == a * y + b * y
  {
  }

  lemma PositiveFactor(x: real, d: real)
    requires d > 0.0 && x * d > 0.0
    ensures x > 0.0
  {
  }
}
