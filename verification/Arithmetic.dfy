/** Facts about products and quotients of integers. */
module Arithmetic {

  lemma {:induction false} MulMonotone(a: nat, b: nat, c: nat)
    requires a <= b
    ensures a * c <= b * c
  {
  }

  lemma {:induction false} Associate(a: int, b: int, c: int)
    ensures a * (b * c) == (a * b) * c
  {
  }

  /** A quotient and a remainder in range are the quotient and the remainder. */
  lemma {:induction false} DivUnique(x: int, m: int, a: int, c: int)
    requires m > 0 && x == a * m + c && 0 <= c < m
    ensures x / m == a && x % m == c
  {
    var q, r := x / m, x % m;
    assert x == q * m + r;
    assert (a - q) * m == r - c;
    if a > q { MulMonotone(1, a - q, m); assert false; }
    if a < q { assert (q - a) * m == c - r; MulMonotone(1, q - a, m); assert false; }
  }

  lemma {:induction false} DivMonotone(x: nat, y: nat, m: nat)
    requires x <= y && m > 0
    ensures 0 <= x / m <= y / m && (x / m) * m <= x
  {
    var a, b := x / m, y / m;
    assert x == a * m + x % m && y == b * m + y % m;
    assert (b + 1) * m == b * m + m;
    if a > b { MulMonotone(b + 1, a, m); assert false; }
  }
}
