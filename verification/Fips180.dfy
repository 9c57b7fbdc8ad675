/**
 The SHA-256 function of FIPS 180-4, as a one-shot mathematical function of a message.
 Rotations are the bit-vector rotation, the message schedule and the block chain are the
 recurrences of section 6.2.2, and the padded message of section 5.1.1 is built in one piece.
 */
module Fips180 {

  type Byte = bv8
  type Word = bv32

  /** The working variables a..h, and also an intermediate hash value. */
  datatype Words8 = Words8(a: Word, b: Word, c: Word, d: Word, e: Word, f: Word, g: Word, h: Word)

  const TWO_64: nat := 0x1_0000_0000_0000_0000
  const TWO_61: nat := 0x2000_0000_0000_0000

  /** Addition modulo 2^32, as in section 3.2. */
  function Plus(x: Word, y: Word): Word { x + y }

  // Section 4.1.2

  function Ch(x: Word, y: Word, z: Word): Word { (x & y) ^ (!x & z) }
  function Maj(x: Word, y: Word, z: Word): Word { (x & y) ^ (x & z) ^ (y & z) }
  function BigSigma0(x: Word): Word { x.RotateRight(2) ^ x.RotateRight(13) ^ x.RotateRight(22) }
  function BigSigma1(x: Word): Word { x.RotateRight(6) ^ x.RotateRight(11) ^ x.RotateRight(25) }
  function SmallSigma0(x: Word): Word { x.RotateRight(7) ^ x.RotateRight(18) ^ (x >> 3) }
  function SmallSigma1(x: Word): Word { x.RotateRight(17) ^ x.RotateRight(19) ^ (x >> 10) }

  // Section 4.2.2

  /** The table of constants, row by row. */
  function KRow(r: nat): (row: seq<Word>)
    requires r < 8
    ensures |row| == 8
  {
    match r
    case 0 => [0x428a2f98, 0x71374491, 0xb5c0fbcf, 0xe9b5dba5, 0x3956c25b, 0x59f111f1, 0x923f82a4, 0xab1c5ed5]
    case 1 => [0xd807aa98, 0x12835b01, 0x243185be, 0x550c7dc3, 0x72be5d74, 0x80deb1fe, 0x9bdc06a7, 0xc19bf174]
    case 2 => [0xe49b69c1, 0xefbe4786, 0x0fc19dc6, 0x240ca1cc, 0x2de92c6f, 0x4a7484aa, 0x5cb0a9dc, 0x76f988da]
    case 3 => [0x983e5152, 0xa831c66d, 0xb00327c8, 0xbf597fc7, 0xc6e00bf3, 0xd5a79147, 0x06ca6351, 0x14292967]
    case 4 => [0x27b70a85, 0x2e1b2138, 0x4d2c6dfc, 0x53380d13, 0x650a7354, 0x766a0abb, 0x81c2c92e, 0x92722c85]
    case 5 => [0xa2bfe8a1, 0xa81a664b, 0xc24b8b70, 0xc76c51a3, 0xd192e819, 0xd6990624, 0xf40e3585, 0x106aa070]
    case 6 => [0x19a4c116, 0x1e376c08, 0x2748774c, 0x34b0bcb5, 0x391c0cb3, 0x4ed8aa4a, 0x5b9cca4f, 0x682e6ff3]
    case 7 => [0x748f82ee, 0x78a5636f, 0x84c87814, 0x8cc70208, 0x90befffa, 0xa4506ceb, 0xbef9a3f7, 0xc67178f2]
  }

  function K(t: nat): Word
    requires t < 64
  {
    KRow(t / 8)[t % 8]
  }

  // Section 5.3.3

  const H0: Words8 := Words8(0x6a09e667, 0xbb67ae85, 0x3c6ef372, 0xa54ff53a,
                             0x510e527f, 0x9b05688c, 0x1f83d9ab, 0x5be0cd19)

  /** A big-endian word: the value of its four bytes in base 256. */
  function WordOf(b0: Byte, b1: Byte, b2: Byte, b3: Byte): Word {
    (b0 as Word) * 0x1000000 + (b1 as Word) * 0x10000 + (b2 as Word) * 0x100 + (b3 as Word)
  }

  // Section 6.2.2, step 1: the message schedule of one block

  function W(block: seq<Byte>, t: nat): Word
    requires |block| == 64 && t < 64
  {
    if t < 16 then
      WordOf(block[4 * t], block[4 * t + 1], block[4 * t + 2], block[4 * t + 3])
    else
      Plus(Plus(Plus(W(block, t - 16), SmallSigma0(W(block, t - 15))), W(block, t - 7)), SmallSigma1(W(block, t - 2)))
  }

  // Step 3: one round

  function Round(v: Words8, k: Word, w: Word): Words8 {
    var t1 := Plus(Plus(Plus(Plus(v.h, BigSigma1(v.e)), Ch(v.e, v.f, v.g)), k), w);
    var t2 := Plus(BigSigma0(v.a), Maj(v.a, v.b, v.c));
    Words8(Plus(t1, t2), v.a, v.b, v.c, Plus(v.d, t1), v.e, v.f, v.g)
  }

  function Rounds(v: Words8, block: seq<Byte>, t: nat): Words8
    requires |block| == 64 && t <= 64
  {
    if t == 0 then v else Round(Rounds(v, block, t - 1), K(t - 1), W(block, t - 1))
  }

  function Add8(x: Words8, y: Words8): Words8 {
    Words8(Plus(x.a, y.a), Plus(x.b, y.b), Plus(x.c, y.c), Plus(x.d, y.d),
           Plus(x.e, y.e), Plus(x.f, y.f), Plus(x.g, y.g), Plus(x.h, y.h))
  }

  // Steps 2 to 4

  function Compress(h: Words8, block: seq<Byte>): Words8
    requires |block| == 64
  {
    Add8(h, Rounds(h, block, 64))
  }

  /** The hash value after all the 64-byte blocks of `m`. */
  function Chain(m: seq<Byte>): Words8
    requires |m| % 64 == 0
  {
    if m == [] then H0 else Compress(Chain(m[..|m| - 64]), m[|m| - 64..])
  }

  // Section 5.1.1: padding

  function Zeros(n: nat): (z: seq<Byte>)
    ensures |z| == n
  {
    seq(n, _ => 0)
  }

  function HighBytes(n: bv64): bv64 { n >> 8 }
  function LowByte(n: bv64): Byte { (n & 255) as Byte }
  function Join(high: bv64, low: Byte): bv64 { (high << 8) | (low as bv64) }

  /** The low `k` bytes of a 64-bit number, most significant first. */
  function BigEndian(n: bv64, k: nat): (b: seq<Byte>)
    ensures |b| == k
  {
    if k == 0 then [] else BigEndian(HighBytes(n), k - 1) + [LowByte(n)]
  }

  function Bits64(n: nat): bv64
    requires n < TWO_64
  {
    n as bv64
  }

  /** The number of zero bytes between the 0x80 byte and the length field. */
  function PadZeros(len: nat): nat {
    (119 - len % 64) % 64
  }

  lemma PaddedLength(len: nat)
    ensures (len + 1 + PadZeros(len) + 8) % 64 == 0
  {
    var q, r := len / 64, len % 64;
    assert len == 64 * q + r;
    assert PadZeros(len) == if r < 56 then 55 - r else 119 - r;
  }

  const END_MARK: seq<Byte> := [0x80]

  /** The padded message, with `bits` in the 64-bit length field. */
  function Padded(m: seq<Byte>, bits: nat): (p: seq<Byte>)
    requires bits < TWO_64
    ensures |p| % 64 == 0
  {
    PaddedLength(|m|);
    m + END_MARK + Zeros(PadZeros(|m|)) + BigEndian(Bits64(bits), 8)
  }

  /** The SHA-256 value of a message, defined for messages of fewer than 2^64 bits. */
  function Sha256(m: seq<Byte>): Words8
    requires |m| < TWO_61
  {
    Chain(Padded(m, 8 * |m|))
  }

  // The definitions above meet the standard's own words.

  /** Section 5.1.1 in bytes: the zeros are the least k with len + 1 + k = 56 mod 64 (448 mod 512 bits). */
  lemma PadZerosIsLeast(len: nat, k: nat)
    requires (len + 1 + k) % 64 == 56
    ensures (len + 1 + PadZeros(len)) % 64 == 56
    ensures PadZeros(len) <= k
  {
    var q, r := len / 64, len % 64;
    assert len == 64 * q + r;
  }

  function FromBigEndian(b: seq<Byte>): bv64 {
    if b == [] then 0 else Join(FromBigEndian(b[..|b| - 1]), b[|b| - 1])
  }

  predicate Fits(n: bv64, k: nat) {
    if k == 0 then n == 0 else Fits(HighBytes(n), k - 1)
  }

  lemma SplitLowByte(n: bv64)
    ensures Join(HighBytes(n), LowByte(n)) == n
  {
  }

  lemma {:induction false} BigEndianOfFitting(n: bv64, k: nat)
    requires Fits(n, k)
    ensures FromBigEndian(BigEndian(n, k)) == n
    decreases k
  {
    hide HighBytes, LowByte, Join;
    if k == 0 {
    } else {
      var front, b := BigEndian(HighBytes(n), k - 1), BigEndian(n, k);
      BigEndianOfFitting(HighBytes(n), k - 1);
      SplitLowByte(n);
      assert b[..|b| - 1] == front;
    }
  }

  lemma FitsStep(n: bv64, k: nat)
    requires Fits(HighBytes(n), k)
    ensures Fits(n, k + 1)
  {
    hide HighBytes;
  }

  lemma EightShifts(n: bv64)
    ensures HighBytes(HighBytes(HighBytes(HighBytes(HighBytes(HighBytes(HighBytes(HighBytes(n)))))))) == 0
  {
  }

  lemma EightBytesFit(n: bv64)
    ensures Fits(n, 8)
  {
    hide HighBytes, Fits;
    EightShifts(n);
    var n1 := HighBytes(n);
    var n2 := HighBytes(n1);
    var n3 := HighBytes(n2);
    var n4 := HighBytes(n3);
    var n5 := HighBytes(n4);
    var n6 := HighBytes(n5);
    var n7 := HighBytes(n6);
    assert Fits(HighBytes(n7), 0) by { ZeroFits(); }
    FitsStep(n7, 0);
    FitsStep(n6, 1);
    FitsStep(n5, 2);
    FitsStep(n4, 3);
    FitsStep(n3, 4);
    FitsStep(n2, 5);
    FitsStep(n1, 6);
    FitsStep(n, 7);
  }

  lemma ZeroFits()
    ensures Fits(0, 0)
  {
  }

  /** The length field reads back as the length it was built from. */
  lemma LengthFieldRoundTrip(n: bv64)
    ensures FromBigEndian(BigEndian(n, 8)) == n
  {
    EightBytesFit(n);
    BigEndianOfFitting(n, 8);
  }
}
