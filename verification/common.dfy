/** Small shared vocabulary: an optional value and the fixed-width integer
    ranges the C++ sources use. */
module Common {

  /** The nullable pointer / "maybe absent" value of the sources. */
  datatype Option<+T> = None | Some(value: T)

  /** An 8-bit unsigned value (uint8_t). */
  type byte = x: int | 0 <= x < 256

  /** 2^32, the modulus of `unsigned int` arithmetic. */
  const U32_MODULUS: int := 0x1_0000_0000

  /** 2^64, the modulus of `size_t` arithmetic. */
  const U64_MODULUS: int := 0x1_0000_0000_0000_0000

  /** Conversion of a mathematical integer to `unsigned int` (wrap-around). */
  function ToU32(n: int): (r: nat)
    ensures r < U32_MODULUS
    ensures 0 <= n < U32_MODULUS ==> r == n
  {
    n % U32_MODULUS
  }

  /** Conversion of an integer to `uint8_t` (wrap-around modulo 256). */
  function ToByte(n: int): (r: byte)
    ensures 0 <= n < 256 ==> r == n
  {
    n % 256
  }

  /** Multiplying by a natural number keeps the order. */
  lemma MultiplyMonotone(a: nat, b: nat, c: nat)
    requires a <= b
    ensures a * c <= b * c
  {
    var d: nat := b - a;
    assert b * c == a * c + d * c;
  }

  /** Cancelling a natural factor from a strict inequality. */
  lemma LessFromProduct(a: int, b: int, c: nat)
    requires a * c < b * c
    ensures a < b
  {
    var d := b - a;
    assert d * c == b * c - a * c;
    assert d * c > 0;
  }

  /** A quotient and remainder below the divisor are the ones `/` and `%` give. */
  lemma DivModUnique(k: nat, n: nat, r: nat, q: nat)
    requires r < n && k == r + q * n
    ensures k % n == r && k / n == q
  {
    var q', r' := k / n, k % n;
    assert k == q' * n + r';
    var d := q - q';
    assert d * n == r' - r;
    LessFromProduct(d, 1, n);
    LessFromProduct(-1, d, n);
  }

  /** A positive product of naturals has positive factors. */
  lemma PositiveFactors(a: nat, b: nat)
    requires a * b > 0
    ensures a > 0 && b > 0
  {
  }
}
