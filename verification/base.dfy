/** Small shared vocabulary: optional values, results with an error, and the
    square-root facts the game takes from `Math.hypot`. */
module Base {

  /** A value that may be absent (JavaScript `undefined`/`null`). */
  datatype Option<+T> = None | Some(value: T)

  /** The outcome of an operation that can fail. */
  datatype Result<+T, +E> = Success(value: T) | Failure(error: E)

  /** A point in world space (pixels). */
  datatype Pos = Pos(x: real, y: real)

  /** Squared Euclidean length of the vector (dx, dy). */
  function Len2(dx: real, dy: real): (r: real)
    ensures r >= 0.0
  {
    dx * dx + dy * dy
  }

  /** `len` is what `Math.hypot(dx, dy)` returns: the non-negative square root
      of dx*dx + dy*dy. The model never computes a square root itself; callers
      supply the root and this predicate ties it to its operands. */
  predicate IsHypot(dx: real, dy: real, len: real)
  {
    len >= 0.0 && len * len == Len2(dx, dy)
  }

  /** A vector u with `u * len == d * k`, where len > 0 is the length of d,
      has length k: scaling a vector by k over its own length gives a
      vector of length k. */
  lemma HypotScale(ux: real, uy: real, dx: real, dy: real, len: real, k: real)
    requires len > 0.0 && len * len == Len2(dx, dy)
    requires ux * len == dx * k && uy * len == dy * k
    ensures Len2(ux, uy) == k * k
  {
    ScaleProducts(ux, ux, uy, uy, dx, dx, dy, dy, len, len, k, k);
  }

  /** HypotScale with a separate copy of each operand, so that every
      product is of two distinct variables. */
  lemma ScaleProducts(ux: real, vx: real, uy: real, vy: real, dx: real, ex: real, dy: real, ey: real,
                      l: real, m: real, k: real, j: real)
    requires l > 0.0 && m > 0.0 && l * m == dx * ex + dy * ey
    requires ux * l == dx * k && uy * l == dy * k
    requires vx * m == ex * j && vy * m == ey * j
    ensures ux * vx + uy * vy == k * j
  {
    assert l * m > 0.0;
    assert (ux * vx + uy * vy) * (l * m) == (ux * l) * (vx * m) + (uy * l) * (vy * m);
    assert (ux * vx + uy * vy) * (l * m) == (dx * ex + dy * ey) * (k * j);
    Cancel(ux * vx + uy * vy, k * j, l * m);
  }

  /** Multiplication by a positive factor is injective. */
  lemma Cancel(a: real, b: real, c: real)
    requires c > 0.0 && a * c == b * c
    ensures a == b
  {
    assert (a - b) * c == 0.0;
  }

  /** JavaScript `a | 0` / truncation toward zero on a real that fits in 32
      bits: the integer part, rounded toward zero. */
  function Trunc(r: real): (n: int)
    ensures r >= 0.0 ==> n as real <= r < n as real + 1.0
    ensures r < 0.0 ==> n as real - 1.0 < r <= n as real
  {
    if r >= 0.0 then r.Floor else -((-r).Floor)
  }

  function MaxInt(a: int, b: int): int { if a >= b then a else b }
  function MinInt(a: int, b: int): int { if a <= b then a else b }
  function MaxReal(a: real, b: real): real { if a >= b then a else b }
  function MinReal(a: real, b: real): real { if a <= b then a else b }
}
