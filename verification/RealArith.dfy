/** C's conversions from `float`, with `float` read as `real`. */
module RealArith {

  /** The `(int)` and `(long)` casts: the fraction is dropped, so rounding is toward zero. */
  function Trunc(x: real): (n: int)
    ensures 0.0 <= x ==> 0 <= n && n as real <= x < n as real + 1.0
    ensures x <= 0.0 ==> n <= 0 && n as real - 1.0 < x <= n as real
  {
    if x >= 0.0 then x.Floor else -((-x).Floor)
  }

  /** Division of `int` by `int` in C truncates toward zero as well. */
  function TruncDiv(a: int, b: int): (q: int)
    requires b != 0
  {
    if (a >= 0) == (b > 0) then Abs(a) / Abs(b) else -(Abs(a) / Abs(b))
  }

  function Abs(a: int): (r: nat) {
    if a >= 0 then a else -a
  }

  function Min(a: int, b: int): int {
    if a <= b then a else b
  }

  /** A quotient is what multiplies back. */
  lemma DivIs(n: real, d: real, q: real)
    requires d != 0.0 && n == q * d
    ensures n / d == q
  {
  }

  /** The whole part of a share of a, in the proportion of b to c. */
  lemma ShareOf(a: real, b: real, c: real) returns (n: int)
    requires a >= 0.0 && b >= 0.0 && c > 0.0
    ensures n == Trunc(a * (b / c)) && n >= 0
    ensures n as real * c <= a * b < (n as real + 1.0) * c
  {
    n := Trunc(a * (b / c));
    PositiveShare(a, b, c);
    ShareProduct(a, b, c);
    hide Trunc;
    ShareBounds(n as real, n as real + 1.0, a * (b / c), a * b, c);
  }

  lemma ShareBounds(n: real, m: real, x: real, product: real, c: real)
    requires c > 0.0 && n <= x < m && x * c == product
    ensures n * c <= product < m * c
  {
    ScaleOrder(n, x, c);
    ScaleOrder(x, m, c);
  }

  lemma ShareProduct(a: real, b: real, c: real)
    requires c > 0.0
    ensures (a * (b / c)) * c == a * b
  {
    var part := b / c;
    assert part * c == b;
    Reorder(a, part, c);
  }

  lemma PositiveShare(a: real, b: real, c: real)
    requires a >= 0.0 && b >= 0.0 && c > 0.0
    ensures a * (b / c) >= 0.0
  {
  }

  lemma ScaleOrder(a: real, b: real, c: real)
    requires c > 0.0 && a <= b
    ensures a * c <= b * c && (a < b ==> a * c < b * c)
  {
    Distribute(a, b, c);
    if a < b { assert (b - a) * c > 0.0; }
  }

  lemma Distribute(a: real, b: real, c: real)
    ensures (b - a) * c == b * c - a * c
  {
  }

  lemma Reorder(a: real, b: real, c: real)
    ensures (a * b) * c == a * (b * c) == (a * c) * b
  {
  }

  lemma ProperFraction(e: real, d: real)
    requires e < d && 0.0 < d
    ensures e / d < 1.0 && (0.0 < e ==> 0.0 < e / d)
  {
  }
}
