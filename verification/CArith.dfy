/** Integer division as C performs it, and the floor it is compared with. */
module CArith {

  /** C's signed division (div_s64): the quotient is truncated towards zero. */
  function TruncDiv(a: int, b: int): int
    requires b > 0
  {
    if a >= 0 then a / b else -((-a) / b)
  }

  lemma TruncDivBounds(a: int, b: int)
    requires b > 0
    ensures var q := TruncDiv(a, b); a >= 0 ==> q * b <= a < (q + 1) * b
    ensures var q := TruncDiv(a, b); a <= 0 ==> (q - 1) * b < a <= q * b
  {
  }

  /** q is the floor of a / b. */
  predicate IsFloor(q: int, a: int, b: int)
    requires b > 0
  {
    q * b <= a < (q + 1) * b
  }

  lemma MulMonotone(x: int, y: int, b: int)
    requires x <= y && 0 <= b
    ensures x * b <= y * b
  {
  }

  lemma MulSub(x: int, y: int, b: int)
    ensures (x - y) * b == x * b - y * b
    ensures b * (x - y) == x * b - y * b
  {
  }

  lemma MulAdd(x: int, y: int, b: int)
    ensures (x + y) * b == x * b + y * b
    ensures b * (x + y) == x * b + y * b
  {
  }

  /** The floor of a / b, shifted by a whole number of b's. */
  lemma FloorShift(q: int, a: int, b: int, d: int)
    requires b > 0 && IsFloor(q, a, b)
    ensures IsFloor(q - d, a - d * b, b)
  {
    MulSub(q, d, b);
    MulSub(q + 1, d, b);
  }

  /** A strict inequality between multiples of b is one between the factors. */
  lemma MulCancel(x: int, y: int, b: int)
    requires 0 < b && x * b < y * b
    ensures x < y
  {
    if y <= x {
      MulMonotone(y, x, b);
    }
  }

  lemma FloorUnique(q: int, r: int, a: int, b: int)
    requires b > 0 && IsFloor(q, a, b) && IsFloor(r, a, b)
    ensures q == r
  {
    MulCancel(q, r + 1, b);
    MulCancel(r, q + 1, b);
  }

  function Min(a: int, b: int): int { if a <= b then a else b }

  function Max(a: int, b: int): int { if a >= b then a else b }

  /** clamp_t(s64, x, -limit, limit) */
  function Clamp(x: int, limit: int): (r: int)
    requires limit >= 0
    ensures -limit <= r <= limit
    ensures -limit <= x <= limit ==> r == x
  {
    if x < -limit then -limit else if x > limit then limit else x
  }
}
