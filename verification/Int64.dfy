/** The 64-bit integer arithmetic of the source. */
module Int64 {
  const MIN_INT64: int := -0x8000_0000_0000_0000
  const MAX_INT64: int := 0x7FFF_FFFF_FFFF_FFFF

  /** What 64 bits keep of a sum or a product. */
  function Wrap64(n: int): (w: int)
    ensures MIN_INT64 <= w <= MAX_INT64
    ensures MIN_INT64 <= n <= MAX_INT64 ==> w == n
  {
    (n - MIN_INT64) % 0x1_0000_0000_0000_0000 + MIN_INT64
  }

  /** Go's integer division, which truncates toward zero. */
  function Quotient(a: int, b: int): int
    requires b > 0
  {
    if a >= 0 then a / b else -((-a) / b)
  }

  /** The usual way to divide and round up. */
  function RoundedUp(size: int, n: int): int
    requires n > 0
  {
    Quotient(Wrap64(size + n - 1), n)
  }

  lemma DivisionBounds(a: int, n: int)
    requires a >= 0 && n > 0
    ensures (a / n) * n <= a < (a / n) * n + n
    ensures ((a / n) - 1) * n == (a / n) * n - n
  {
    assert a == (a / n) * n + a % n;
  }

  lemma QuotientNegative(a: int, n: int)
    requires a < 0 && n > 0
    ensures Quotient(a, n) <= 0 && Quotient(a, n) * n <= 0
  {
    DivisionBounds(-a, n);
    var q := (-a) / n;
    assert Quotient(a, n) == -q && q >= 0;
    assert (-q) * n == -(q * n);
  }

  /** It does round up if and only if the sum fits 64 bits; beyond that the result is not positive. */
  lemma RoundsUpIff(size: int, n: int)
    requires 0 < size <= MAX_INT64 && 0 < n <= MAX_INT64
    ensures var q := RoundedUp(size, n);
      && (size + n - 1 <= MAX_INT64 <==> (q - 1) * n < size <= q * n)
      && (size + n - 1 <= MAX_INT64 <==> q >= 1)
  {
    var q := RoundedUp(size, n);
    if size + n - 1 <= MAX_INT64 {
      DivisionBounds(size + n - 1, n);
      NotPositive(q, n);
    } else {
      assert Wrap64(size + n - 1) == size + n - 1 - 0x1_0000_0000_0000_0000;
      QuotientNegative(size + n - 1 - 0x1_0000_0000_0000_0000, n);
    }
  }

  lemma NotPositive(k: int, n: int)
    requires n > 0
    ensures k <= 0 ==> k * n <= 0
  {
  }
}
