/** Integer conversions of the driver's arithmetic: Python's int() on a float
    truncates toward zero, and storing an int into a ctypes c_ubyte field keeps
    its low eight bits. */
module Numeric {

  type byte = x: int | 0 <= x < 256

  /** Python int(x) for a float x: truncation toward zero. */
  function Trunc(x: real): (r: int)
    ensures x >= 0.0 ==> r as real <= x < r as real + 1.0
    ensures x < 0.0 ==> r as real - 1.0 < x <= r as real
  {
    if x >= 0.0 then x.Floor else -((-x).Floor)
  }

  /** Integer division rounding toward zero (C and Python 2 int() style). */
  function TruncDiv(n: int, d: int): (q: int)
    requires d > 0
    ensures n >= 0 ==> q >= 0 && q * d <= n < (q + 1) * d
    ensures n < 0 ==> q <= 0 && (q - 1) * d < n <= q * d
  {
    if n >= 0 then DivBounds(n, d); n / d
    else DivBounds(-n, d); -((-n) / d)
  }

  lemma DivBounds(m: int, d: int)
    requires m >= 0 && d > 0
    ensures m / d >= 0 && (m / d) * d <= m < (m / d + 1) * d
  {
    var q, r := m / d, m % d;
    assert m == q * d + r && 0 <= r < d;
    assert (q + 1) * d == q * d + d;
  }

  /** The value a ctypes c_ubyte field holds after an int is assigned to it. */
  function ToUByte(x: int): (b: byte)
    ensures 0 <= x < 256 ==> b == x
    ensures (x - b) % 256 == 0
  {
    x % 256
  }

  /** A real quotient of naturals lies between the integer quotient and its successor. */
  lemma FloorOfQuotient(m: int, d: int)
    requires m >= 0 && d > 0
    ensures (m as real / d as real).Floor == m / d
  {
    var q, r := m / d, m % d;
    var x := m as real / d as real;
    var y := r as real / d as real;
    assert m == q * d + r;
    assert m as real == (q * d) as real + r as real;
    assert (q * d) as real == q as real * d as real;
    assert y * d as real == r as real;
    assert 0.0 <= y < 1.0;
    assert x == q as real + y by {
      assert x * d as real == m as real;
      assert (q as real + y) * d as real == m as real;
    }
  }

  /** Truncating a real quotient of integers is integer division toward zero. */
  lemma TruncOfQuotient(n: int, d: int)
    requires d > 0
    ensures Trunc(n as real / d as real) == TruncDiv(n, d)
  {
    if n >= 0 {
      FloorOfQuotient(n, d);
    } else {
      FloorOfQuotient(-n, d);
      assert n as real / d as real == -((-n) as real / d as real);
    }
  }
}
