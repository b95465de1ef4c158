// The integer arithmetic of Go where it differs from Dafny's: 64-bit wrap-around,
// division and remainder that truncate toward zero, and the reinterpretation of a
// signed 64-bit value as an unsigned one.
module GoInts {

  const TWO_63: int := 0x8000_0000_0000_0000
  const TWO_64: int := 0x1_0000_0000_0000_0000

  // The value an int64 holds after an operation whose exact result is n.
  function Wrap64(n: int): (r: int)
    ensures -TWO_63 <= r < TWO_63
    ensures -TWO_63 <= n < TWO_63 ==> r == n
  {
    (n + TWO_63) % TWO_64 - TWO_63
  }

  // Go's `/`: truncates toward zero.
  function Quo(a: int, b: int): int
    requires b != 0
  {
    if a >= 0 then a / b else -((-a) / b)
  }

  // Go's `%`: takes the sign of the dividend.
  function Rem(a: int, b: int): int
    requires b != 0
  {
    a - Quo(a, b) * b
  }

  // uint64(x) for an int64 x, and int64(u) for a uint64 u.
  function ToUnsigned64(x: int): (u: int)
    requires -TWO_63 <= x < TWO_63
    ensures 0 <= u < TWO_64
  {
    if x >= 0 then x else x + TWO_64
  }

  function ToSigned64(u: int): (x: int)
    requires 0 <= u < TWO_64
    ensures -TWO_63 <= x < TWO_63
  {
    if u < TWO_63 then u else u - TWO_64
  }

  lemma QuotientAtLeast(x: int, d: int, q: int)
    requires d > 0
    ensures q * d <= x <==> q <= x / d
  {
    assert x == (x / d) * d + x % d;
    if q <= x / d {
      assert q * d <= (x / d) * d;
    } else {
      assert (x / d + 1) * d <= q * d;
    }
  }

  // The quotient is pinned down by the interval the dividend falls into.
  lemma QuotientOf(x: int, d: int, q: int)
    requires d > 0
    requires q * d <= x < (q + 1) * d
    ensures x / d == q
  {
    QuotientAtLeast(x, d, q);
    QuotientAtLeast(x, d, q + 1);
  }

  // An overflow loses a multiple of 2^64 and nothing else.
  lemma WrapsTo(n: int, r: int, k: int)
    requires n == r + k * TWO_64 && -TWO_63 <= r < TWO_63
    ensures Wrap64(n) == r
  {
    QuotientOf(n + TWO_63, TWO_64, k);
  }

  lemma QuoBounds(a: int, b: int)
    requires b > 0
    ensures var q := Quo(a, b);
            if a >= 0 then q * b <= a < (q + 1) * b else (q - 1) * b < a <= q * b
  {
    var x := if a >= 0 then a else -a;
    QuotientAtLeast(x, b, x / b);
    QuotientAtLeast(x, b, x / b + 1);
    assert (-(x / b)) * b == -(x / b * b);
    assert (-(x / b) - 1) * b == -((x / b + 1) * b);
  }
}
