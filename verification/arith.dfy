// Integer facts about floor and ceiling division used by the share and collateral arithmetic.

module Arith {
  /** Ceiling division for a positive divisor. */
  function CeilDiv(x: int, d: int): (q: int)
    requires d > 0
    ensures (q - 1) * d < x <= q * d
  {
    FloorBounds(-x, d);
    -((-x) / d)
  }

  lemma FloorBounds(x: int, d: int)
    requires d > 0
    ensures (x / d) * d <= x < (x / d + 1) * d
  {
  }

  /** A number strictly between two consecutive multiples of `d` pins the floor. */
  lemma FloorUnique(x: int, d: int, q: int)
    requires d > 0
    requires q * d <= x < (q + 1) * d
    ensures x / d == q
  {
    FloorBounds(x, d);
    var p := x / d;
    if p < q {
      MulLeMul(p + 1, q, d);
    } else if p > q {
      MulLeMul(q + 1, p, d);
    }
  }

  lemma MulLeMul(a: int, b: int, c: int)
    requires a <= b && c >= 0
    ensures a * c <= b * c
  {
  }

  lemma MulDivCancel(a: int, d: int)
    requires d > 0
    ensures (a * d) / d == a
  {
    FloorUnique(a * d, d, a);
  }

  /** Floor division is monotone in the dividend. */
  lemma DivMonotone(x: int, y: int, d: int)
    requires d > 0 && x <= y
    ensures x / d <= y / d
  {
    FloorBounds(x, d);
    FloorBounds(y, d);
    if x / d > y / d {
      MulLeMul(y / d + 1, x / d, d);
    }
  }

  /** Ceiling division is monotone in the dividend. */
  lemma CeilMonotone(x: int, y: int, d: int)
    requires d > 0 && x <= y
    ensures CeilDiv(x, d) <= CeilDiv(y, d)
  {
    DivMonotone(-y, -x, d);
  }

  /** Two floor divisions in a row are one division by the product. */
  lemma NestedDiv(x: int, a: int, b: int)
    requires a > 0 && b > 0
    ensures (x / a) / b == x / (a * b)
  {
    var q := (x / a) / b;
    FloorBounds(x, a);
    FloorBounds(x / a, b);
    // q*b <= x/a < (q+1)*b, hence q*b*a <= x and x < ((q+1)*b)*a
    MulLeMul(q * b, x / a, a);
    MulLeMul(x / a + 1, (q + 1) * b, a);
    assert q * (a * b) <= x < (q + 1) * (a * b);
    FloorUnique(x, a * b, q);
  }

  /** Multiplying non-negative numbers is monotone in both factors. */
  lemma MulMonotone(a: int, b: int, c: int, d: int)
    requires 0 <= a <= b && 0 <= c <= d
    ensures a * c <= b * d
  {
    MulLeMul(a, b, c);
    MulLeMul(c, d, b);
  }
}
