/** Floor and ceiling division, as the fee, decimal and rate-limit proofs use them. */
module Arithmetic {

  function CeilDiv(n: nat, d: nat): nat
    requires 0 < d
  {
    (n + d - 1) / d
  }

  lemma Distribute(a: int, x: int, y: int)
    ensures a * (x + y) == a * x + a * y
  {
  }

  lemma MulMonotone(a: int, b: int, c: int)
    requires a <= b && 0 <= c
    ensures a * c <= b * c
    ensures c * a <= c * b
  {
  }

  lemma MulCancel(a: int, b: int, c: int)
    requires 0 < c && c * a < c * b
    ensures a < b
  {
    if b <= a { MulMonotone(b, a, c); }
  }

  lemma FloorBounds(n: int, d: int)
    requires 0 < d
    ensures d * (n / d) <= n < d * (n / d) + d
  {
  }

  /** A quotient is determined by its bounds. */
  lemma FloorUnique(n: int, d: int, q: int)
    requires 0 < d
    requires d * q <= n < d * q + d
    ensures n / d == q
  {
    FloorBounds(n, d);
    var f := n / d;
    assert d * f < d * (q + 1);
    MulCancel(f, q + 1, d);
    assert d * q < d * (f + 1);
    MulCancel(q, f + 1, d);
  }

  lemma FloorMonotone(a: int, b: int, d: int)
    requires 0 < d && a <= b
    ensures a / d <= b / d
  {
    FloorBounds(a, d);
    FloorBounds(b, d);
    assert d * (a / d) < d * (b / d + 1);
    MulCancel(a / d, b / d + 1, d);
  }

  lemma FloorOfMultiple(k: int, d: int)
    requires 0 < d
    ensures (d * k) / d == k
    ensures (d * k) % d == 0
  {
    FloorUnique(d * k, d, k);
  }

  lemma ModOfShift(a: int, k: int, d: int)
    requires 0 < d
    ensures (a + d * k) % d == a % d
  {
    FloorBounds(a, d);
    var q := a / d;
    assert d * (q + k) == d * q + d * k;
    FloorUnique(a + d * k, d, q + k);
  }

  /** The ceiling is the least q with d * q >= n. */
  lemma CeilBounds(n: nat, d: nat)
    requires 0 < d
    ensures n <= d * CeilDiv(n, d) < n + d
  {
    FloorBounds(n + d - 1, d);
  }

  lemma CeilUnique(n: nat, d: nat, q: int)
    requires 0 < d
    requires n <= d * q < n + d
    ensures CeilDiv(n, d) == q
  {
    FloorUnique(n + d - 1, d, q);
  }

  /** floor(floor(r * x / m) / r) == floor(x / m): scaling up before dividing changes nothing. */
  lemma NestedFloor(r: int, x: int, m: int)
    requires 0 < r && 0 < m
    ensures (r * x / m) / r == x / m
  {
    var y := r * x / m;
    var q := x / m;
    FloorBounds(r * x, m);
    FloorBounds(x, m);
    // r * q <= y
    MulMonotone(m * q, x, r);
    assert m * (r * q) == r * (m * q);
    assert m * (r * q) < m * (y + 1);
    MulCancel(r * q, y + 1, m);
    // y < r * (q + 1)
    MulMonotone(x + 1, m * q + m, r);
    assert r * (m * q + m) == m * (r * q + r);
    assert m * y < m * (r * q + r);
    MulCancel(y, r * q + r, m);
    FloorUnique(y, r, q);
  }

  /** floor(a/d) + floor(b/d) <= floor((a+b)/d) <= floor(a/d) + floor(b/d) + 1 */
  lemma FloorSuperadditive(a: int, b: int, d: int)
    requires 0 < d
    ensures a / d + b / d <= (a + b) / d <= a / d + b / d + 1
  {
    FloorBounds(a, d);
    FloorBounds(b, d);
    FloorBounds(a + b, d);
    var x, y, z := a / d, b / d, (a + b) / d;
    Distribute(d, x, y);
    Distribute(d, z, 1);
    MulCancel(x + y, z + 1, d);
    Distribute(d, x + y, 2);
    MulCancel(z, x + y + 2, d);
  }

  /** The floor share and the ceiling share of a whole add up to the whole. */
  lemma FloorCeilComplement(k: nat, part: nat, whole: nat)
    requires 0 < whole && part <= whole
    ensures 0 <= k * (whole - part)
    ensures k * part / whole + CeilDiv(k * (whole - part), whole) == k
  {
    FloorBounds(k * part, whole);
    var q := k * part / whole;
    MulMonotone(0, whole - part, k);
    assert k * (whole - part) == k * whole - k * part;
    assert whole * (k - q) == whole * k - whole * q;
    CeilUnique(k * (whole - part), whole, k - q);
  }
}
