/**
 The LEB128 readers of internal/verify/symbolic.go against the encoding of section 5.2.2 of the
 WebAssembly Core Specification.
 */
module Leb128 {
  import opened Wrappers
  import opened Bits

  function Pow2(k: nat): (p: nat)
    ensures p > 0
  {
    if k == 0 then 1 else 2 * Pow2(k - 1)
  }

  lemma {:induction false} Pow2Add(a: nat, b: nat)
    ensures Pow2(a + b) == Pow2(a) * Pow2(b)
    decreases b
  {
    if b > 0 {
      Pow2Add(a, b - 1);
      assert Pow2(a + b) == 2 * Pow2(a + (b - 1));
    }
  }

  lemma Pow2Zero()
    ensures Pow2(0) == 1
  {
  }

  lemma {:induction false} Pow2Values()
    ensures Pow2(7) == 128 && Pow2(32) == TWO32 && Pow2(63) == TWO64 / 2 && Pow2(64) == TWO64
  {
    assert Pow2(4) == 16;
    Pow2Add(4, 4);
    assert Pow2(8) == 256;
    Pow2Add(8, 8);
    assert Pow2(7) == 128 && Pow2(16) == 0x1_0000;
    Pow2Add(16, 16);
    Pow2Add(32, 32);
  }

  /** Bitwise or of operands with no common bit: the low part lies below bit `shift`, the high part above. */
  function OrDisjoint(low: nat, high: nat, shift: nat): nat
    requires low < Pow2(shift) && high % Pow2(shift) == 0
  {
    low + high
  }

  /** `x << shift` in an unsigned type of `width` bits. */
  function ShiftLeft(x: nat, shift: nat, width: nat): (r: nat)
    requires shift <= width
    ensures r % Pow2(shift) == 0
    ensures r == (x % Pow2(width - shift)) * Pow2(shift)
  {
    ShiftedMultiple(x, shift, width);
    (x * Pow2(shift)) % Pow2(width)
  }

  lemma ShiftedMultiple(x: nat, shift: nat, width: nat)
    requires shift <= width
    ensures (x * Pow2(shift)) % Pow2(width) == (x % Pow2(width - shift)) * Pow2(shift)
    ensures ((x % Pow2(width - shift)) * Pow2(shift)) % Pow2(shift) == 0
  {
    hide Pow2;
    Pow2Add(width - shift, shift);
    ScaledResidue(x, Pow2(shift), Pow2(width - shift));
  }

  lemma ScaledResidue(x: nat, p: nat, q: nat)
    requires p > 0 && q > 0
    ensures q * p > 0 && (x * p) % (q * p) == (x % q) * p
    ensures ((x % q) * p) % p == 0
  {
    var a, r := x / q, x % q;
    assert x == a * q + r;
    Scale(x, a, q, r, p);
    Monotone(r + 1, q, p);
    QuotientUnique(x * p, a, r * p, q * p);
    QuotientUnique(r * p, r, 0, p);
  }

  lemma Scale(x: int, a: int, q: int, r: int, p: int)
    requires x == a * q + r
    ensures x * p == a * (q * p) + r * p
  {
  }

  lemma Monotone(a: int, b: int, p: int)
    requires a <= b && 0 <= p
    ensures a * p <= b * p
  {
  }

  /** A byte shifted into place above `v` stays below the next seven bits, and below the width. */
  lemma ShiftedBelow(x: nat, shift: nat, width: nat, v: nat)
    requires shift <= width && v < Pow2(shift) && x < 128
    ensures v + ShiftLeft(x, shift, width) < Pow2(shift + 7)
    ensures v + ShiftLeft(x, shift, width) < Pow2(width)
  {
    Pow2Values();
    hide Pow2;
    var p, q := Pow2(shift), Pow2(width - shift);
    var r := x % q;
    Pow2Add(shift, 7);
    Monotone(r + 1, 128, p);
    Pow2Add(width - shift, shift);
    Monotone(r + 1, q, p);
  }

  // ----- unsigned, 32 bits -----

  /** What the loop of readU32 computes from its i-th byte on. */
  function DecodeU32(b: seq<Byte>, p: nat, i: nat, v: nat): (r: Option<(UInt32, nat)>)
    requires i <= 5 && v < Pow2(7 * i)
    ensures r.Some? ==> p < r.value.1 <= |b|
    decreases 5 - i
  {
    if i == 5 || p >= |b| then None
    else
      var x := b[p];
      ShiftedBelow(x % 128, 7 * i, 32, v);
      Pow2Values();
      var w := OrDisjoint(v, ShiftLeft(x % 128, 7 * i, 32), 7 * i);
      if x < 128 then Some((w, p + 1)) else DecodeU32(b, p + 1, i + 1, w)
  }

  function ReadU32(b: seq<Byte>, p: nat): (r: Option<(UInt32, nat)>)
    ensures r.Some? ==> p < r.value.1 <= |b|
  {
    DecodeU32(b, p, 0, 0)
  }

  method ReadU32Loop(b: seq<Byte>, p: nat) returns (r: Option<(UInt32, nat)>)
    ensures r == ReadU32(b, p)
  {
    var v: nat, q: nat, i: nat := 0, p, 0;
    hide Pow2;
    assert Pow2(7 * 0) == 1 by { Pow2Zero(); }
    while i < 5
      invariant 0 <= i <= 5 && v < Pow2(7 * i)
      invariant ReadU32(b, p) == DecodeU32(b, q, i, v)
    {
      if q >= |b| { return None; }
      var x := b[q];
      q := q + 1;
      ShiftedBelow(x % 128, 7 * i, 32, v);
      Pow2Values();
      v := OrDisjoint(v, ShiftLeft(x % 128, 7 * i, 32), 7 * i);
      if x < 128 { return Some((v, q)); }
      i := i + 1;
    }
    return None;
  }

  function EncodeU(n: nat): (e: seq<Byte>)
    ensures e != []
  {
    if n < 128 then [n] else [n % 128 + 128] + EncodeU(n / 128)
  }

  /** The bytes `e` stand in `b` at position p. */
  predicate At(b: seq<Byte>, p: nat, e: seq<Byte>) {
    p + |e| <= |b| && b[p..p + |e|] == e
  }

  lemma AtSplit(b: seq<Byte>, p: nat, e: seq<Byte>, f: seq<Byte>)
    ensures At(b, p, e + f) <==> At(b, p, e) && At(b, p + |e|, f)
  {
    if p + |e| + |f| <= |b| {
      var whole := b[p..p + |e + f|];
      assert whole[..|e|] == b[p..p + |e|] && whole[|e|..] == b[p + |e|..p + |e| + |f|];
      assert whole == whole[..|e|] + whole[|e|..];
    }
  }

  lemma {:induction false} DecodeEncodedU(b: seq<Byte>, p: nat, i: nat, v: nat, n: nat)
    requires i < 5 && v < Pow2(7 * i) && n < Pow2(32 - 7 * i)
    requires At(b, p, EncodeU(n))
    ensures v + n * Pow2(7 * i) < TWO32
    ensures DecodeU32(b, p, i, v) == Some((v + n * Pow2(7 * i), p + |EncodeU(n)|))
    decreases 5 - i
  {
    hide Pow2, DecodeU32;
    var p7, q, x := Pow2(7 * i), Pow2(32 - 7 * i), n % 128;
    Pow2Values();
    Pow2Add(32 - 7 * i, 7 * i);
    Monotone(n + 1, q, p7);
    assert b[p] == EncodeU(n)[0];
    DecodeU32Step(b, p, i, v);
    if n >= 128 {
      LastByte(i);
      AtSplit(b, p, [x + 128], EncodeU(n / 128));
      Pow2Add(32 - 7 * (i + 1), 7);
      Pow2Add(7 * i, 7);
      DecodeEncodedU(b, p + 1, i + 1, v + x * p7, n / 128);
      Scale(n, n / 128, 128, x, p7);
    }
  }

  lemma DecodeU32Step(b: seq<Byte>, p: nat, i: nat, v: nat)
    requires i < 5 && v < Pow2(7 * i) && p < |b| && b[p] % 128 < Pow2(32 - 7 * i)
    ensures v + b[p] % 128 * Pow2(7 * i) < TWO32
    ensures v + b[p] % 128 * Pow2(7 * i) < Pow2(7 * (i + 1))
    ensures DecodeU32(b, p, i, v) ==
            var w := v + b[p] % 128 * Pow2(7 * i);
            if b[p] < 128 then Some((w, p + 1)) else DecodeU32(b, p + 1, i + 1, w)
  {
    hide Pow2, ShiftLeft;
    Pow2Values();
    var x := b[p] % 128;
    ShiftedBelow(x, 7 * i, 32, v);
    QuotientUnique(x, 0, x, Pow2(32 - 7 * i));
    assert ShiftLeft(x, 7 * i, 32) == x * Pow2(7 * i);
  }

  lemma LastByte(i: nat)
    requires i < 5 && Pow2(32 - 7 * i) > 128
    ensures i < 4
  {
    assert Pow2(4) == 16;
  }

  /** readU32 is a left inverse of the unsigned encoding, for every u32 and whatever follows it. */
  lemma ReadsEncodedU32(b: seq<Byte>, p: nat, n: UInt32)
    requires At(b, p, EncodeU(n))
    ensures ReadU32(b, p) == Some((n, p + |EncodeU(n)|))
  {
    Pow2Values();
    DecodeEncodedU(b, p, 0, 0, n);
  }

  // ----- signed, 64 bits -----

  lemma SignBits(shift: nat)
    requires shift <= 64
    ensures 0 <= TWO64 - Pow2(shift) && (TWO64 - Pow2(shift)) % Pow2(shift) == 0
  {
    Pow2Values();
    hide Pow2;
    Pow2Add(64 - shift, shift);
    var p, q := Pow2(shift), Pow2(64 - shift);
    Monotone(1, q, p);
    assert TWO64 - p == (q - 1) * p;
    QuotientUnique((q - 1) * p, q - 1, 0, p);
  }

  /** The value of a completed number: the sign bit of the last byte fills the bits above `shift`. */
  function FinishS64(w: nat, sign: bool, shift: nat): Int64
    requires shift < 64 ==> w < Pow2(shift)
  {
    if shift < 64 && sign then
      SignBits(shift);
      ToInt64(OrDisjoint(w, TWO64 - Pow2(shift), shift))
    else ToInt64(w)
  }

  /** What the loop of readS64 computes from its k-th byte on. */
  function DecodeS64(b: seq<Byte>, p: nat, k: nat, v: nat): (r: Option<(Int64, nat)>)
    requires k <= 10 && (k < 10 ==> v < Pow2(7 * k))
    ensures r.Some? ==> p < r.value.1 <= |b|
    decreases 10 - k
  {
    if p >= |b| || 7 * k >= 64 then None
    else
      var x := b[p];
      ShiftedBelow(x % 128, 7 * k, 64, v);
      var w := OrDisjoint(v, ShiftLeft(x % 128, 7 * k, 64), 7 * k);
      if x < 128 then Some((FinishS64(w, x % 128 >= 64, 7 * k + 7), p + 1))
      else DecodeS64(b, p + 1, k + 1, w)
  }

  function ReadS64(b: seq<Byte>, p: nat): (r: Option<(Int64, nat)>)
    ensures r.Some? ==> p < r.value.1 <= |b|
  {
    DecodeS64(b, p, 0, 0)
  }

  method ReadS64Loop(b: seq<Byte>, p: nat) returns (r: Option<(Int64, nat)>)
    ensures r == ReadS64(b, p)
  {
    hide Pow2, ShiftLeft, FinishS64;
    var v: nat, shift: nat, q: nat := 0, 0, p;
    ghost var k: nat := 0;
    assert Pow2(7 * 0) == 1 by { Pow2Zero(); }
    while true
      invariant shift == 7 * k && k <= 10 && (k < 10 ==> v < Pow2(7 * k))
      invariant ReadS64(b, p) == DecodeS64(b, q, k, v)
      decreases 10 - k
    {
      if q >= |b| || shift >= 64 { return None; }
      var x := b[q];
      q := q + 1;
      ShiftedBelow(x % 128, shift, 64, v);
      v := OrDisjoint(v, ShiftLeft(x % 128, shift, 64), shift);
      shift := shift + 7;
      if x < 128 { return Some((FinishS64(v, x % 128 >= 64, shift), q)); }
      k := k + 1;
    }
  }

  function EncodeS(n: int): (e: seq<Byte>)
    ensures e != []
    decreases if n < 0 then -n else n
  {
    if -64 <= n < 64 then [n % 128] else [n % 128 + 128] + EncodeS(n / 128)
  }

  lemma ShiftedByte(x: nat, shift: nat, width: nat)
    requires x < 128 && shift + 7 <= width
    ensures ShiftLeft(x, shift, width) == x * Pow2(shift)
  {
    Pow2Values();
    hide Pow2, ShiftLeft;
    Pow2Add(7, width - shift - 7);
    Monotone(1, Pow2(width - shift - 7), 128);
    QuotientUnique(x, 0, x, Pow2(width - shift));
  }

  lemma DecodeS64Step(b: seq<Byte>, p: nat, k: nat, v: nat)
    requires k < 9 && v < Pow2(7 * k) && p < |b|
    ensures v + b[p] % 128 * Pow2(7 * k) < Pow2(7 * (k + 1))
    ensures b[p] < 128 ==>
            DecodeS64(b, p, k, v) == Some((FinishS64(v + b[p] % 128 * Pow2(7 * k), b[p] >= 64, 7 * k + 7), p + 1))
    ensures b[p] >= 128 ==>
            DecodeS64(b, p, k, v) == DecodeS64(b, p + 1, k + 1, v + b[p] % 128 * Pow2(7 * k))
  {
    hide Pow2, ShiftLeft, FinishS64;
    ShiftedBelow(b[p] % 128, 7 * k, 64, v);
    ShiftedByte(b[p] % 128, 7 * k, 64);
  }

  lemma Pow2One()
    ensures Pow2(1) == 2
  {
  }

  /** Sign extension puts back what the two's complement encoding dropped. */
  lemma FinishCorrect(v: nat, n: int, p: nat, shift: nat)
    requires shift < 64 && Pow2(shift) == 128 * p && v < p && -64 <= n < 64
    requires v + n % 128 * p < Pow2(shift)
    ensures -TWO64 / 2 <= v + n * p < TWO64 / 2
    ensures FinishS64(v + n % 128 * p, n % 128 >= 64, shift) == v + n * p
  {
    hide Pow2, ToInt64;
    Pow2Values();
    Pow2Add(63 - shift, shift);
    Monotone(1, Pow2(63 - shift), Pow2(shift));
    SignBits(shift);
    Monotone(-64, n, p);
    Monotone(n, 63, p);
    ToInt64Value(v + n * p);
    if n < 0 {
      assert n % 128 == n + 128;
      Scale(n + 128, 1, n, 128, p);
      assert v + n % 128 * p + (TWO64 - Pow2(shift)) == v + n * p + TWO64;
    } else {
      assert n % 128 == n;
    }
  }

  lemma ToInt64Value(z: int)
    requires -TWO64 / 2 <= z < TWO64 / 2
    ensures ToInt64(z) == z == ToInt64(z + TWO64)
  {
  }

  lemma {:induction false} DecodeEncodedS(b: seq<Byte>, p: nat, k: nat, v: nat, n: int)
    requires k <= 9 && v < Pow2(7 * k) && 0 <= n + Pow2(63 - 7 * k) && n < Pow2(63 - 7 * k)
    requires At(b, p, EncodeS(n))
    ensures -TWO64 / 2 <= v + n * Pow2(7 * k) < TWO64 / 2
    ensures DecodeS64(b, p, k, v) == Some((v + n * Pow2(7 * k), p + |EncodeS(n)|))
    decreases 10 - k
  {
    hide Pow2, DecodeS64, FinishS64, ToInt64;
    if k == 9 {
      DecodeTenthByte(b, p, v, n);
    } else {
      DecodeS64Step(b, p, k, v);
      if -64 <= n < 64 {
        assert b[p] == n % 128;
        NextSeven(k, n);
        FinishCorrect(v, n, Pow2(7 * k), 7 * k + 7);
      } else {
        var w := v + n % 128 * Pow2(7 * k);
        AtSplit(b, p, [n % 128 + 128], EncodeS(n / 128));
        NextSeven(k, n);
        Regroup(v, n, Pow2(7 * k));
        DecodeEncodedS(b, p + 1, k + 1, w, n / 128);
      }
    }
  }

  /** Dropping seven bits of n scales both the weight and the bound. */
  lemma NextSeven(k: nat, n: int)
    requires k < 9 && 0 <= n + Pow2(63 - 7 * k) && n < Pow2(63 - 7 * k)
    ensures Pow2(7 * (k + 1)) == 128 * Pow2(7 * k)
    ensures 0 <= n / 128 + Pow2(63 - 7 * (k + 1)) && n / 128 < Pow2(63 - 7 * (k + 1))
  {
    Pow2Values();
    hide Pow2;
    Pow2Add(7 * k, 7);
    Pow2Add(63 - 7 * (k + 1), 7);
  }

  lemma Regroup(v: int, n: int, p: int)
    ensures v + n % 128 * p + n / 128 * (128 * p) == v + n * p
  {
    Scale(n, n / 128, 128, n % 128, p);
  }

  lemma DecodeTenthByte(b: seq<Byte>, p: nat, v: nat, n: int)
    requires v < Pow2(63) && 0 <= n + Pow2(0) && n < Pow2(0)
    requires At(b, p, EncodeS(n))
    ensures -TWO64 / 2 <= v + n * Pow2(63) < TWO64 / 2
    ensures DecodeS64(b, p, 9, v) == Some((v + n * Pow2(63), p + |EncodeS(n)|))
  {
    Pow2Values();
    Pow2Zero();
    hide Pow2, DecodeS64;
    assert n == 0 || n == -1;
    assert b[p] == n % 128;
    TopBit(b[p]);
    DecodeS64Tenth(b, p, v);
  }

  /** Of the tenth byte only the lowest bit stays within 64 bits. */
  lemma TopBit(x: nat)
    ensures ShiftLeft(x, 63, 64) == x % 2 * Pow2(63)
  {
    Pow2One();
    hide Pow2, ShiftLeft;
  }

  lemma DecodeS64Tenth(b: seq<Byte>, p: nat, v: nat)
    requires v < Pow2(63) && p < |b| && b[p] < 128
    ensures DecodeS64(b, p, 9, v) == Some((ToInt64(v + ShiftLeft(b[p], 63, 64)), p + 1))
  {
    hide Pow2, ShiftLeft;
    ShiftedBelow(b[p], 63, 64, v);
  }

  /** readS64 is a left inverse of the signed encoding, for every i64 and whatever follows it. */
  lemma ReadsEncodedS64(b: seq<Byte>, p: nat, n: Int64)
    requires At(b, p, EncodeS(n))
    ensures ReadS64(b, p) == Some((n, p + |EncodeS(n)|))
  {
    Pow2Values();
    DecodeEncodedS(b, p, 0, 0, n);
  }
}
