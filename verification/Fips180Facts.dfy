/**
 The constants and functions of FIPS 180-4 from their definitions: the round constants and the initial value are
 fractions of roots of the first primes, and Ch and Maj choose and count bits.
 */
module Fips180Facts {
  import opened Fips180

  // Section 4.1.2

  /** Bit i of a word. */
  function Bit(x: Word, i: bv5): (b: nat)
    ensures b <= 1
  {
    if (x >> i) & 1 == 1 then 1 else 0
  }

  function And(x: Word, y: Word): Word { x & y }
  function Xor(x: Word, y: Word): Word { x ^ y }
  function Not(x: Word): Word { !x }

  lemma BitOfAnd(x: Word, y: Word, i: bv5)
    ensures Bit(x & y, i) == Bit(x, i) * Bit(y, i)
  {
  }

  lemma BitAnd(x: Word, y: Word, i: bv5)
    ensures Bit(And(x, y), i) == Bit(x, i) * Bit(y, i)
  {
    hide Bit;
    BitOfAnd(x, y, i);
  }

  lemma BitOfXor(x: Word, y: Word, i: bv5)
    ensures Bit(x ^ y, i) == if Bit(x, i) == Bit(y, i) then 0 else 1
  {
  }

  lemma BitXor(x: Word, y: Word, i: bv5)
    ensures Bit(Xor(x, y), i) == if Bit(x, i) == Bit(y, i) then 0 else 1
  {
    hide Bit;
    BitOfXor(x, y, i);
  }

  lemma BitOfNot(x: Word, i: bv5)
    ensures Bit(!x, i) == 1 - Bit(x, i)
  {
  }

  lemma BitNot(x: Word, i: bv5)
    ensures Bit(Not(x), i) == 1 - Bit(x, i)
  {
    hide Bit;
    BitOfNot(x, i);
  }

  lemma ChForm(x: Word, y: Word, z: Word)
    ensures Ch(x, y, z) == Xor(And(x, y), And(Not(x), z))
  {
  }

  /** Ch takes y's bit where x's is set, and z's otherwise. */
  lemma ChChooses(x: Word, y: Word, z: Word, i: bv5)
    ensures Bit(Ch(x, y, z), i) == if Bit(x, i) == 1 then Bit(y, i) else Bit(z, i)
  {
    hide *;
    ChForm(x, y, z);
    BitNot(x, i);
    BitAnd(x, y, i);
    BitAnd(Not(x), z, i);
    BitXor(And(x, y), And(Not(x), z), i);
    BitIsBit(x, i);
    BitIsBit(y, i);
    BitIsBit(z, i);
  }

  lemma BitIsBit(x: Word, i: bv5)
    ensures Bit(x, i) == 0 || Bit(x, i) == 1
  {
  }

  function TwoTerms(x: Word, y: Word, z: Word): Word { (x & y) ^ (x & z) }

  lemma TwoTermsForm(x: Word, y: Word, z: Word)
    ensures TwoTerms(x, y, z) == Xor(And(x, y), And(x, z))
  {
  }

  lemma MajForm(x: Word, y: Word, z: Word)
    ensures Maj(x, y, z) == Xor(TwoTerms(x, y, z), And(y, z))
  {
  }

  /** Maj has a bit iff at least two of the three have it. */
  lemma MajCounts(x: Word, y: Word, z: Word, i: bv5)
    ensures Bit(Maj(x, y, z), i) == if Bit(x, i) + Bit(y, i) + Bit(z, i) >= 2 then 1 else 0
  {
    hide *;
    MajForm(x, y, z);
    TwoTermsForm(x, y, z);
    BitAnd(x, y, i);
    BitAnd(x, z, i);
    BitAnd(y, z, i);
    BitXor(And(x, y), And(x, z), i);
    BitXor(TwoTerms(x, y, z), And(y, z), i);
    BitIsBit(x, i);
    BitIsBit(y, i);
    BitIsBit(z, i);
  }

  // Sections 4.2.2 and 5.3.3

  const TWO_32: nat := 0x1_0000_0000

  /** The first 32 bits of the fractional part of the cube root of `p`, whose whole part is `a`, are `k`. */
  predicate CubeRootFraction(p: nat, a: nat, k: nat) {
    var c := TWO_32 * a + k;
    k < TWO_32 && c * c * c <= p * 0x1_0000_0000_0000_0000_0000_0000 < (c + 1) * (c + 1) * (c + 1)
  }

  predicate SquareRootFraction(p: nat, a: nat, k: nat) {
    var c := TWO_32 * a + k;
    k < TWO_32 && c * c <= p * 0x1_0000_0000_0000_0000 < (c + 1) * (c + 1)
  }

  /** The first sixty-four primes. */
  function PrimeRow(r: nat): (row: seq<nat>)
    requires r < 8
    ensures |row| == 8
  {
    match r
    case 0 => [2, 3, 5, 7, 11, 13, 17, 19]
    case 1 => [23, 29, 31, 37, 41, 43, 47, 53]
    case 2 => [59, 61, 67, 71, 73, 79, 83, 89]
    case 3 => [97, 101, 103, 107, 109, 113, 127, 131]
    case 4 => [137, 139, 149, 151, 157, 163, 167, 173]
    case 5 => [179, 181, 191, 193, 197, 199, 211, 223]
    case 6 => [227, 229, 233, 239, 241, 251, 257, 263]
    case 7 => [269, 271, 277, 281, 283, 293, 307, 311]
  }

  function Prime(t: nat): nat
    requires t < 64
  {
    PrimeRow(t / 8)[t % 8]
  }

  /** The whole part of the cube root of the t-th prime. */
  function Whole(t: nat): nat {
    if t < 4 then 1 else if t < 9 then 2 else if t < 18 then 3 else if t < 30 then 4 else if t < 47 then 5 else 6
  }

  lemma CubeRoots0()
    ensures forall i :: 0 <= i < 8 ==>
              CubeRootFraction(PrimeRow(0)[i], Whole(0 + i), KRow(0)[i] as nat)
  {
    assert CubeRootFraction(2, 1, 0x428a2f98 as Word as nat);
    assert CubeRootFraction(3, 1, 0x71374491 as Word as nat);
    assert CubeRootFraction(5, 1, 0xb5c0fbcf as Word as nat);
    assert CubeRootFraction(7, 1, 0xe9b5dba5 as Word as nat);
    assert CubeRootFraction(11, 2, 0x3956c25b as Word as nat);
    assert CubeRootFraction(13, 2, 0x59f111f1 as Word as nat);
    assert CubeRootFraction(17, 2, 0x923f82a4 as Word as nat);
    assert CubeRootFraction(19, 2, 0xab1c5ed5 as Word as nat);
  }

  lemma CubeRoots1()
    ensures forall i :: 0 <= i < 8 ==>
              CubeRootFraction(PrimeRow(1)[i], Whole(8 + i), KRow(1)[i] as nat)
  {
    assert CubeRootFraction(23, 2, 0xd807aa98 as Word as nat);
    assert CubeRootFraction(29, 3, 0x12835b01 as Word as nat);
    assert CubeRootFraction(31, 3, 0x243185be as Word as nat);
    assert CubeRootFraction(37, 3, 0x550c7dc3 as Word as nat);
    assert CubeRootFraction(41, 3, 0x72be5d74 as Word as nat);
    assert CubeRootFraction(43, 3, 0x80deb1fe as Word as nat);
    assert CubeRootFraction(47, 3, 0x9bdc06a7 as Word as nat);
    assert CubeRootFraction(53, 3, 0xc19bf174 as Word as nat);
  }

  lemma CubeRoots2()
    ensures forall i :: 0 <= i < 8 ==>
              CubeRootFraction(PrimeRow(2)[i], Whole(16 + i), KRow(2)[i] as nat)
  {
    assert CubeRootFraction(59, 3, 0xe49b69c1 as Word as nat);
    assert CubeRootFraction(61, 3, 0xefbe4786 as Word as nat);
    assert CubeRootFraction(67, 4, 0x0fc19dc6 as Word as nat);
    assert CubeRootFraction(71, 4, 0x240ca1cc as Word as nat);
    assert CubeRootFraction(73, 4, 0x2de92c6f as Word as nat);
    assert CubeRootFraction(79, 4, 0x4a7484aa as Word as nat);
    assert CubeRootFraction(83, 4, 0x5cb0a9dc as Word as nat);
    assert CubeRootFraction(89, 4, 0x76f988da as Word as nat);
  }

  lemma CubeRoots3()
    ensures forall i :: 0 <= i < 8 ==>
              CubeRootFraction(PrimeRow(3)[i], Whole(24 + i), KRow(3)[i] as nat)
  {
    assert CubeRootFraction(97, 4, 0x983e5152 as Word as nat);
    assert CubeRootFraction(101, 4, 0xa831c66d as Word as nat);
    assert CubeRootFraction(103, 4, 0xb00327c8 as Word as nat);
    assert CubeRootFraction(107, 4, 0xbf597fc7 as Word as nat);
    assert CubeRootFraction(109, 4, 0xc6e00bf3 as Word as nat);
    assert CubeRootFraction(113, 4, 0xd5a79147 as Word as nat);
    assert CubeRootFraction(127, 5, 0x06ca6351 as Word as nat);
    assert CubeRootFraction(131, 5, 0x14292967 as Word as nat);
  }

  lemma CubeRoots4()
    ensures forall i :: 0 <= i < 8 ==>
              CubeRootFraction(PrimeRow(4)[i], Whole(32 + i), KRow(4)[i] as nat)
  {
    assert CubeRootFraction(137, 5, 0x27b70a85 as Word as nat);
    assert CubeRootFraction(139, 5, 0x2e1b2138 as Word as nat);
    assert CubeRootFraction(149, 5, 0x4d2c6dfc as Word as nat);
    assert CubeRootFraction(151, 5, 0x53380d13 as Word as nat);
    assert CubeRootFraction(157, 5, 0x650a7354 as Word as nat);
    assert CubeRootFraction(163, 5, 0x766a0abb as Word as nat);
    assert CubeRootFraction(167, 5, 0x81c2c92e as Word as nat);
    assert CubeRootFraction(173, 5, 0x92722c85 as Word as nat);
  }

  lemma CubeRoots5()
    ensures forall i :: 0 <= i < 8 ==>
              CubeRootFraction(PrimeRow(5)[i], Whole(40 + i), KRow(5)[i] as nat)
  {
    assert CubeRootFraction(179, 5, 0xa2bfe8a1 as Word as nat);
    assert CubeRootFraction(181, 5, 0xa81a664b as Word as nat);
    assert CubeRootFraction(191, 5, 0xc24b8b70 as Word as nat);
    assert CubeRootFraction(193, 5, 0xc76c51a3 as Word as nat);
    assert CubeRootFraction(197, 5, 0xd192e819 as Word as nat);
    assert CubeRootFraction(199, 5, 0xd6990624 as Word as nat);
    assert CubeRootFraction(211, 5, 0xf40e3585 as Word as nat);
    assert CubeRootFraction(223, 6, 0x106aa070 as Word as nat);
  }

  lemma CubeRoots6()
    ensures forall i :: 0 <= i < 8 ==>
              CubeRootFraction(PrimeRow(6)[i], Whole(48 + i), KRow(6)[i] as nat)
  {
    assert CubeRootFraction(227, 6, 0x19a4c116 as Word as nat);
    assert CubeRootFraction(229, 6, 0x1e376c08 as Word as nat);
    assert CubeRootFraction(233, 6, 0x2748774c as Word as nat);
    assert CubeRootFraction(239, 6, 0x34b0bcb5 as Word as nat);
    assert CubeRootFraction(241, 6, 0x391c0cb3 as Word as nat);
    assert CubeRootFraction(251, 6, 0x4ed8aa4a as Word as nat);
    assert CubeRootFraction(257, 6, 0x5b9cca4f as Word as nat);
    assert CubeRootFraction(263, 6, 0x682e6ff3 as Word as nat);
  }

  lemma CubeRoots7()
    ensures forall i :: 0 <= i < 8 ==>
              CubeRootFraction(PrimeRow(7)[i], Whole(56 + i), KRow(7)[i] as nat)
  {
    assert CubeRootFraction(269, 6, 0x748f82ee as Word as nat);
    assert CubeRootFraction(271, 6, 0x78a5636f as Word as nat);
    assert CubeRootFraction(277, 6, 0x84c87814 as Word as nat);
    assert CubeRootFraction(281, 6, 0x8cc70208 as Word as nat);
    assert CubeRootFraction(283, 6, 0x90befffa as Word as nat);
    assert CubeRootFraction(293, 6, 0xa4506ceb as Word as nat);
    assert CubeRootFraction(307, 6, 0xbef9a3f7 as Word as nat);
    assert CubeRootFraction(311, 6, 0xc67178f2 as Word as nat);
  }

  /** Every round constant is the fraction of the cube root of its prime. */
  lemma ConstantsAreCubeRoots(t: nat)
    requires t < 64
    ensures CubeRootFraction(Prime(t), Whole(t), K(t) as nat)
  {
    hide CubeRootFraction, KRow, PrimeRow, Whole;
    var r := t / 8;
    assert t == 8 * r + t % 8;
    match r
    case 0 => CubeRoots0();
    case 1 => CubeRoots1();
    case 2 => CubeRoots2();
    case 3 => CubeRoots3();
    case 4 => CubeRoots4();
    case 5 => CubeRoots5();
    case 6 => CubeRoots6();
    case 7 => CubeRoots7();
  }

  /** Every word of the initial value is the fraction of the square root of its prime. */
  lemma InitialValueIsSquareRoots()
    ensures var h := [H0.a, H0.b, H0.c, H0.d, H0.e, H0.f, H0.g, H0.h];
            forall t :: 0 <= t < 8 ==> SquareRootFraction(PrimeRow(0)[t], t / 2 + 1, h[t] as nat)
  {
    assert SquareRootFraction(2, 1, 0x6a09e667 as Word as nat);
    assert SquareRootFraction(3, 1, 0xbb67ae85 as Word as nat);
    assert SquareRootFraction(5, 2, 0x3c6ef372 as Word as nat);
    assert SquareRootFraction(7, 2, 0xa54ff53a as Word as nat);
    assert SquareRootFraction(11, 3, 0x510e527f as Word as nat);
    assert SquareRootFraction(13, 3, 0x9b05688c as Word as nat);
    assert SquareRootFraction(17, 4, 0x1f83d9ab as Word as nat);
    assert SquareRootFraction(19, 4, 0x5be0cd19 as Word as nat);
  }
}
