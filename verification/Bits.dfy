/** Fixed-width machine integers, written out over unbounded `int`. */
module Bits {
  const TWO32: int := 0x1_0000_0000
  const TWO64: int := 0x1_0000_0000_0000_0000

  type Byte = n: nat | n < 256
  type Int64 = v: int | -0x8000_0000_0000_0000 <= v < 0x8000_0000_0000_0000
  type UInt32 = v: nat | v < 0x1_0000_0000

  predicate IsWidth(bits: nat) {
    bits == 32 || bits == 64
  }

  function Modulus(bits: nat): int {
    if bits == 32 then TWO32 else TWO64
  }

  /** The unsigned reading of the low `bits` bits of `v`. */
  function Unsigned(v: int, bits: nat): nat {
    v % Modulus(bits)
  }

  /** The two's complement reading of the bit pattern `n`. */
  function Signed(n: int, bits: nat): int {
    if n < Modulus(bits) / 2 then n else n - Modulus(bits)
  }

  /** Go's int64(uint64) conversion. */
  function ToInt64(n: int): Int64 {
    Signed(n % TWO64, 64)
  }

  /** Values that differ by a multiple of the modulus have the same residue. */
  lemma ResidueUnique(x: int, y: int, k: int, m: int)
    requires m > 0
    requires x == y + k * m
    ensures x % m == y % m
  {
    var q, r := y / m, y % m;
    assert y == q * m + r;
    assert x == (q + k) * m + r;
    QuotientUnique(x, q + k, r, m);
  }

  lemma QuotientUnique(x: int, q: int, r: int, m: int)
    requires 0 <= r < m
    requires x == q * m + r
    ensures x / m == q && x % m == r
  {
    var d := x / m - q;
    assert d * m == r - x % m;
    assert d >= 1 ==> d * m >= m;
    assert d <= -1 ==> d * m <= -m;
  }

  /** Reading a residue as signed and back is the identity, in both directions. */
  lemma SignedRoundTrip(v: int, bits: nat)
    requires IsWidth(bits)
    ensures -Modulus(bits) / 2 <= v < Modulus(bits) / 2 ==> Signed(Unsigned(v, bits), bits) == v
    ensures 0 <= v < Modulus(bits) ==> Unsigned(Signed(v, bits), bits) == v
  {
  }
}
