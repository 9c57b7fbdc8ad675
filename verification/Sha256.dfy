/**
 The streaming SHA-256 of src/shell/sha256/sha256.c: a hash state, a partial block and a byte
 counter, updated in place. `Absorbed(m)` says what the fields hold after the bytes `m`.
 */
module Sha256 {
  import opened Fips180

  /** A 64-bit unsigned counter keeps a number modulo 2^64. */
  function U64(n: nat): (r: nat)
    ensures r < TWO_64
  {
    n % TWO_64
  }

  lemma WrapOnce(a: nat, q: nat, r: nat)
    requires a == TWO_64 * q + r
    ensures a % TWO_64 == r % TWO_64
  {
  }

  lemma U64Laws(a: nat, b: nat)
    ensures U64(U64(a) + b) == U64(a + b)
    ensures U64(U64(a) * 8) == U64(8 * a)
    ensures a < TWO_61 ==> U64(8 * a) == 8 * a
  {
    var q := a / TWO_64;
    assert a == TWO_64 * q + U64(a);
    WrapOnce(a + b, q, U64(a) + b);
    WrapOnce(8 * a, 8 * q, U64(a) * 8);
  }

  /** What the program leaves for any message; the length field wraps beyond 2^61 bytes. */
  function Digest(m: seq<Byte>): Words8 {
    Chain(Padded(m, U64(8 * |m|)))
  }

  /** Below 2^61 bytes, where FIPS 180-4 defines a value, it is that value. */
  lemma DigestIsSha256(m: seq<Byte>)
    requires |m| < TWO_61
    ensures Digest(m) == Sha256(m)
  {
    U64Laws(|m|, 0);
  }

  /** The program's own table of round constants, row by row. */
  function ConstantRow(r: nat): (row: seq<Word>)
    requires r < 8
    ensures |row| == 8
  {
    match r
    case 0 => [0x428a2f98, 0x71374491, 0xb5c0fbcf, 0xe9b5dba5, 0x3956c25b, 0x59f111f1, 0x923f82a4, 0xab1c5ed5]
    case 1 => [0xd807aa98, 0x12835b01, 0x243185be, 0x550c7dc3, 0x72be5d74, 0x80deb1fe, 0x9bdc06a7, 0xc19bf174]
    case 2 => [0xe49b69c1, 0xefbe4786, 0x0fc19dc6, 0x240ca1cc, 0x2de92c6f, 0x4a7484aa, 0x5cb0a9dc, 0x76f988da]
    case 3 => [0x983e5152, 0xa831c66d, 0xb00327c8, 0xbf597fc7, 0xc6e00bf3, 0xd5a79147, 0x06ca6351, 0x14292967]
    case 4 => [0x27b70a85, 0x2e1b2138, 0x4d2c6dfc, 0x53380d13, 0x650a7354, 0x766a0abb, 0x81c2c92e, 0x92722c85]
    case 5 => [0xa2bfe8a1, 0xa81a664b, 0xc24b8b70, 0xc76c51a3, 0xd192e819, 0xd6990624, 0xf40e3585, 0x106aa070]
    case 6 => [0x19a4c116, 0x1e376c08, 0x2748774c, 0x34b0bcb5, 0x391c0cb3, 0x4ed8aa4a, 0x5b9cca4f, 0x682e6ff3]
    case 7 => [0x748f82ee, 0x78a5636f, 0x84c87814, 0x8cc70208, 0x90befffa, 0xa4506ceb, 0xbef9a3f7, 0xc67178f2]
  }

  function RoundConstant(t: nat): Word
    requires t < 64
  {
    ConstantRow(t / 8)[t % 8]
  }

  /** It is the table of section 4.2.2. */
  lemma ConstantsAreK(t: nat)
    requires t < 64
    ensures RoundConstant(t) == K(t)
  {
    assert ConstantRow(t / 8) == KRow(t / 8);
  }

  // The rotations and word assembly as the program writes them, with shifts.

  function ShiftSmall0(x: Word): Word { ((x >> 7) | (x << 25)) ^ ((x >> 18) | (x << 14)) ^ (x >> 3) }
  function ShiftSmall1(x: Word): Word { ((x >> 17) | (x << 15)) ^ ((x >> 19) | (x << 13)) ^ (x >> 10) }
  function ShiftBig0(x: Word): Word { ((x >> 2) | (x << 30)) ^ ((x >> 13) | (x << 19)) ^ ((x >> 22) | (x << 10)) }
  function ShiftBig1(x: Word): Word { ((x >> 6) | (x << 26)) ^ ((x >> 11) | (x << 21)) ^ ((x >> 25) | (x << 7)) }

  function ShiftWord(b0: Byte, b1: Byte, b2: Byte, b3: Byte): Word {
    (b0 as Word << 24) | (b1 as Word << 16) | (b2 as Word << 8) | (b3 as Word)
  }

  function MixCh(e: Word, f: Word, g: Word): Word { (e & f) ^ (!e & g) }
  function MixMaj(a: Word, b: Word, c: Word): Word { (a & b) ^ (a & c) ^ (b & c) }

  lemma MixesAreChMaj(x: Word, y: Word, z: Word)
    ensures MixCh(x, y, z) == Ch(x, y, z) && MixMaj(x, y, z) == Maj(x, y, z)
  {
  }

  lemma ShiftsAreRotations(x: Word)
    ensures ShiftSmall0(x) == SmallSigma0(x) && ShiftSmall1(x) == SmallSigma1(x)
    ensures ShiftBig0(x) == BigSigma0(x) && ShiftBig1(x) == BigSigma1(x)
  {
  }

  lemma ShiftedBytes(b0: Byte, b1: Byte, b2: Byte, b3: Byte)
    ensures ShiftWord(b0, b1, b2, b3) == WordOf(b0, b1, b2, b3)
  {
  }

  function WordBytes(w: Word): (b: seq<Byte>)
    ensures |b| == 4
  {
    [((w >> 24) & 255) as Byte, ((w >> 16) & 255) as Byte, ((w >> 8) & 255) as Byte, (w & 255) as Byte]
  }

  lemma WordBytesRoundTrip(w: Word)
    ensures var b := WordBytes(w); WordOf(b[0], b[1], b[2], b[3]) == w
  {
  }

  /** Bytes of a sequence of words, in order. */
  function Bytes(ws: seq<Word>): (b: seq<Byte>)
    ensures |b| == 4 * |ws|
  {
    if ws == [] then [] else Bytes(ws[..|ws| - 1]) + WordBytes(ws[|ws| - 1])
  }

  function WordAt(b: seq<Byte>, i: nat): Word
    requires 4 * i + 4 <= |b|
  {
    WordOf(b[4 * i], b[4 * i + 1], b[4 * i + 2], b[4 * i + 3])
  }

  /** The words can be read back from the bytes. */
  lemma {:induction false} BytesRoundTrip(ws: seq<Word>, i: nat)
    requires i < |ws|
    ensures WordAt(Bytes(ws), i) == ws[i]
  {
    hide WordOf, WordBytes;
    var last := |ws| - 1;
    if i < last {
      BytesRoundTrip(ws[..last], i);
    } else {
      WordBytesRoundTrip(ws[last]);
    }
  }

  function DigestBytes(w: Words8): (b: seq<Byte>)
    ensures |b| == 32
  {
    Bytes([w.a, w.b, w.c, w.d, w.e, w.f, w.g, w.h])
  }

  /** The digest begins with word a and ends with word h. */
  lemma DigestOrder(w: Words8)
    ensures var b := DigestBytes(w);
            && WordAt(b, 0) == w.a && WordAt(b, 1) == w.b && WordAt(b, 2) == w.c && WordAt(b, 3) == w.d
            && WordAt(b, 4) == w.e && WordAt(b, 5) == w.f && WordAt(b, 6) == w.g && WordAt(b, 7) == w.h
  {
    hide WordAt, Bytes;
    var ws := [w.a, w.b, w.c, w.d, w.e, w.f, w.g, w.h];
    BytesRoundTrip(ws, 0);
    BytesRoundTrip(ws, 1);
    BytesRoundTrip(ws, 2);
    BytesRoundTrip(ws, 3);
    BytesRoundTrip(ws, 4);
    BytesRoundTrip(ws, 5);
    BytesRoundTrip(ws, 6);
    BytesRoundTrip(ws, 7);
  }

  const LUT: string := "0123456789abcdef"

  function HexByte(c: Byte): (s: string)
    ensures |s| == 2
  {
    [LUT[(c >> 4) as nat], LUT[(c & 15) as nat]]
  }

  function HexDigits(b: seq<Byte>): (s: string)
    ensures |s| == 2 * |b|
  {
    if b == [] then [] else HexDigits(b[..|b| - 1]) + HexByte(b[|b| - 1])
  }

  function NibbleValue(c: char): Byte {
    if '0' <= c <= '9' then (c - '0') as Byte else if 'a' <= c <= 'f' then (c - 'a') as Byte + 10 else 0
  }

  function ByteOfHex(hi: char, lo: char): Byte {
    (NibbleValue(hi) << 4) | NibbleValue(lo)
  }

  function UnHex(s: string): seq<Byte>
    requires |s| % 2 == 0
  {
    if s == [] then [] else UnHex(s[..|s| - 2]) + [ByteOfHex(s[|s| - 2], s[|s| - 1])]
  }

  lemma NibbleRoundTrip(n: Byte)
    requires n < 16
    ensures NibbleValue(LUT[n as nat]) == n
  {
    assert n == 0 || n == 1 || n == 2 || n == 3 || n == 4 || n == 5 || n == 6 || n == 7 || n == 8
           || n == 9 || n == 10 || n == 11 || n == 12 || n == 13 || n == 14 || n == 15;
  }

  lemma NibblesOfByte(c: Byte)
    ensures c >> 4 < 16 && c & 15 < 16 && ((c >> 4) << 4) | (c & 15) == c
  {
  }

  lemma HexByteRoundTrip(c: Byte)
    ensures ByteOfHex(HexByte(c)[0], HexByte(c)[1]) == c
  {
    hide NibbleValue;
    NibblesOfByte(c);
    NibbleRoundTrip(c >> 4);
    NibbleRoundTrip(c & 15);
  }

  /** The hexadecimal text loses nothing. */
  lemma {:induction false} HexRoundTrip(b: seq<Byte>)
    ensures UnHex(HexDigits(b)) == b
  {
    hide HexByte, ByteOfHex;
    if b == [] {
    } else {
      HexRoundTrip(b[..|b| - 1]);
      HexByteRoundTrip(b[|b| - 1]);
      var s := HexDigits(b);
      assert s[..|s| - 2] == HexDigits(b[..|b| - 1]);
    }
  }

  method BinToHex(data: seq<Byte>) returns (out: string)
    ensures out == HexDigits(data)
  {
    hide HexByte;
    out := [];
    for i := 0 to |data|
      invariant out == HexDigits(data[..i])
    {
      var c := data[i];
      assert data[..i + 1][..i] == data[..i];
      out := out + HexByte(c);
    }
    assert data[..|data|] == data;
  }

  ghost function Words(h: array<Word>): Words8
    requires h.Length == 8
    reads h
  {
    Words8(h[0], h[1], h[2], h[3], h[4], h[5], h[6], h[7])
  }

  class Sha256Buff {
    var dataSize: nat
    const h: array<Word>
    const lastChunk: array<Byte>
    var chunkSize: nat

    ghost predicate Shape() {
      h.Length == 8 && lastChunk.Length == 64
    }

    ghost predicate Absorbed(m: seq<Byte>)
      reads this, h, lastChunk
    {
      && Shape()
      && dataSize == U64(|m|)
      && chunkSize == |m| % 64
      && lastChunk[..chunkSize] == m[|m| - chunkSize..]
      && Words(h) == Chain(m[..|m| - chunkSize])
    }

    constructor ()
      ensures Shape() && fresh(h) && fresh(lastChunk)
    {
      h := new Word[8];
      lastChunk := new Byte[64];
      dataSize, chunkSize := 0, 0;
    }

    method Init()
      requires Shape()
      modifies this, h
      ensures Absorbed([])
    {
      h[0], h[1], h[2], h[3] := 0x6a09e667, 0xbb67ae85, 0x3c6ef372, 0xa54ff53a;
      h[4], h[5], h[6], h[7] := 0x510e527f, 0x9b05688c, 0x1f83d9ab, 0x5be0cd19;
      dataSize := 0;
      chunkSize := 0;
    }

    static method Schedule(chunk: seq<Byte>) returns (w: array<Word>)
      requires |chunk| == 64
      ensures fresh(w) && w.Length == 64
      ensures forall t :: 0 <= t < 64 ==> w[t] == W(chunk, t)
    {
      hide Plus, ShiftSmall0, ShiftSmall1, SmallSigma0, SmallSigma1, ShiftWord, WordOf;
      w := new Word[64];
      for i := 0 to 16
        invariant forall t :: 0 <= t < i ==> w[t] == W(chunk, t)
      {
        w[i] := ShiftWord(chunk[4 * i], chunk[4 * i + 1], chunk[4 * i + 2], chunk[4 * i + 3]);
        ShiftedBytes(chunk[4 * i], chunk[4 * i + 1], chunk[4 * i + 2], chunk[4 * i + 3]);
      }
      for i := 16 to 64
        invariant forall t :: 0 <= t < i ==> w[t] == W(chunk, t)
      {
        var s0 := ShiftSmall0(w[i - 15]);
        var s1 := ShiftSmall1(w[i - 2]);
        ShiftsAreRotations(w[i - 15]);
        ShiftsAreRotations(w[i - 2]);
        w[i] := Plus(Plus(Plus(w[i - 16], s0), w[i - 7]), s1);
      }
    }

    static method RoundStep(tv: array<Word>, k: Word, w: Word)
      requires tv.Length == 8
      modifies tv
      ensures Words(tv) == Round(old(Words(tv)), k, w)
    {
      hide Plus, ShiftBig0, ShiftBig1, BigSigma0, BigSigma1, Ch, Maj, MixCh, MixMaj;
      var bigS1 := ShiftBig1(tv[4]);
      var ch := MixCh(tv[4], tv[5], tv[6]);
      var temp1 := Plus(Plus(Plus(Plus(tv[7], bigS1), ch), k), w);
      var bigS0 := ShiftBig0(tv[0]);
      var maj := MixMaj(tv[0], tv[1], tv[2]);
      var temp2 := Plus(bigS0, maj);
      ShiftsAreRotations(tv[4]);
      ShiftsAreRotations(tv[0]);
      MixesAreChMaj(tv[4], tv[5], tv[6]);
      MixesAreChMaj(tv[0], tv[1], tv[2]);

      tv[7] := tv[6];
      tv[6] := tv[5];
      tv[5] := tv[4];
      tv[4] := Plus(tv[3], temp1);
      tv[3] := tv[2];
      tv[2] := tv[1];
      tv[1] := tv[0];
      tv[0] := Plus(temp1, temp2);
    }

    static method SixtyFourRounds(tv: array<Word>, w: array<Word>, ghost chunk: seq<Byte>)
      requires tv.Length == 8 && w.Length == 64 && tv != w && |chunk| == 64
      requires forall t :: 0 <= t < 64 ==> w[t] == W(chunk, t)
      modifies tv
      ensures Words(tv) == Rounds(old(Words(tv)), chunk, 64)
    {
      hide Plus, Round, W, Words, K, RoundConstant;
      for i := 0 to 64
        invariant Words(tv) == Rounds(old(Words(tv)), chunk, i)
      {
        ConstantsAreK(i);
        RoundStep(tv, RoundConstant(i), w[i]);
      }
    }

    method AddBack(tv: array<Word>)
      requires Shape() && tv.Length == 8 && tv != h
      modifies h
      ensures Words(h) == Add8(old(Words(h)), Words(tv))
    {
      hide Plus;
      for i := 0 to 8
        invariant forall j :: 0 <= j < i ==> h[j] == Plus(old(h[j]), tv[j])
        invariant forall j :: i <= j < 8 ==> h[j] == old(h[j])
      {
        h[i] := Plus(h[i], tv[i]);
      }
    }

    method CalcChunk(chunk: seq<Byte>)
      requires Shape() && |chunk| == 64
      modifies h
      ensures Words(h) == Compress(old(Words(h)), chunk)
    {
      hide Plus, Add8, Rounds, W;
      var w := Schedule(chunk);
      var tv := new Word[8];
      for i := 0 to 8
        invariant forall j :: 0 <= j < i ==> tv[j] == h[j]
        modifies tv
      {
        tv[i] := h[i];
      }
      SixtyFourRounds(tv, w, chunk);
      AddBack(tv);
    }

    /** memcpy(lastChunk + at, data, |data|) */
    method Store(at: nat, data: seq<Byte>)
      requires Shape() && at + |data| <= 64
      modifies lastChunk
      ensures lastChunk[..at + |data|] == old(lastChunk[..at]) + data
      ensures lastChunk[at + |data|..] == old(lastChunk[at + |data|..])
    {
      forall i | 0 <= i < |data| {
        lastChunk[at + i] := data[i];
      }
    }

    /** The hash state covers exactly the first `p` bytes of `all`. */
    ghost predicate Hashed(all: seq<Byte>, p: nat)
      reads h
    {
      Shape() && p % 64 == 0 && p <= |all| && Words(h) == Chain(all[..p])
    }

    method Block(chunk: seq<Byte>, ghost all: seq<Byte>, ghost p: nat)
      requires Hashed(all, p) && p + 64 <= |all| && chunk == all[p..p + 64]
      modifies h
      ensures Hashed(all, p + 64)
    {
      CalcChunk(chunk);
      ChainBlock(all, p);
    }

    /** The block loop of `Update`: every whole block of data[from..] goes straight to the hash. */
    method FullBlocks(data: seq<Byte>, from: nat, ghost m: seq<Byte>) returns (ptr: nat)
      requires from <= |data| && Hashed(m + data, |m| + from)
      modifies h
      ensures from <= ptr <= |data| < ptr + 64 && Hashed(m + data, |m| + ptr)
    {
      hide Chain, Words;
      ptr := from;
      while |data| - ptr >= 64
        invariant from <= ptr <= |data| && Hashed(m + data, |m| + ptr)
      {
        assert data[ptr..ptr + 64] == (m + data)[|m| + ptr..|m| + ptr + 64];
        Block(data[ptr..ptr + 64], m + data, |m| + ptr);
        ptr := ptr + 64;
      }
    }

    /** The bytes behind the last whole block are kept for the next call. */
    method KeepTail(rest: seq<Byte>, ghost all: seq<Byte>, ghost p: nat)
      requires Hashed(all, p) && dataSize == U64(|all|)
      requires chunkSize + |rest| < 64 && all[p..] == lastChunk[..chunkSize] + rest
      modifies this`chunkSize, lastChunk
      ensures Absorbed(all)
    {
      hide Chain, Words, U64;
      Store(chunkSize, rest);
      chunkSize := chunkSize + |rest|;
      TailLength(p, chunkSize);
    }

    method Update(data: seq<Byte>, ghost m: seq<Byte>)
      requires Absorbed(m)
      modifies this, h, lastChunk
      ensures Absorbed(m + data)
    {
      hide Chain, Words, U64;
      U64Laws(|m|, |data|);
      ghost var all, p := m + data, |m| - chunkSize;
      assert all[..p] == m[..p] && all[p..] == lastChunk[..chunkSize] + data;
      var ptr, size := 0, |data|;
      dataSize := U64(dataSize + size);
      if size + chunkSize >= 64 {
        var tmpChunk := lastChunk[..chunkSize] + data[..64 - chunkSize];
        ptr := 64 - chunkSize;
        chunkSize := 0;
        assert tmpChunk == all[p..p + 64];
        Block(tmpChunk, all, p);
        ptr := FullBlocks(data, ptr, m);
        p := |m| + ptr;
        assert all[p..] == data[ptr..];
      }
      KeepTail(data[ptr..], all, p);
    }

    /** The 0x80 byte, and zeros to the end of the block. */
    method MarkEnd()
      requires Shape() && chunkSize < 64
      modifies this`chunkSize, lastChunk
      ensures chunkSize == old(chunkSize) + 1
      ensures lastChunk[..] == old(lastChunk[..chunkSize]) + END_MARK + Zeros(63 - old(chunkSize))
    {
      hide Zeros;
      ghost var before := lastChunk[..chunkSize];
      lastChunk[chunkSize] := 0x80;
      chunkSize := chunkSize + 1;
      assert lastChunk[..chunkSize] == before + END_MARK;
      Store(chunkSize, Zeros(64 - chunkSize));
      assert lastChunk[..] == lastChunk[..64];
    }

    /** The end mark, and the extra block when the length does not fit behind it. */
    method PadFirst(ghost all: seq<Byte>, ghost p0: nat) returns (ghost p: nat)
      requires Hashed(all, p0) && chunkSize < 64 && Layout(all, p0, lastChunk[..chunkSize])
      modifies this`chunkSize, h, lastChunk
      ensures Hashed(all, p) && |all| == p + 64 && lastChunk[..56] == all[p..p + 56]
    {
      hide Chain, Words, Zeros;
      p := p0;
      MarkEnd();
      if chunkSize > 56 {
        Block(lastChunk[..], all, p);
        Store(0, Zeros(64));
        p := p + 64;
        ZerosPrefix(64, 56);
      } else {
        ZerosPrefix(64 - chunkSize, 56 - chunkSize);
      }
    }

    method Finalize(ghost m: seq<Byte>)
      requires Absorbed(m)
      modifies this, h, lastChunk
      ensures Shape()
      ensures Words(h) == Digest(m)
    {
      hide Chain, Words, BigEndian, U64, Bits64, Padded, Layout;
      U64Laws(|m|, 0);
      ghost var all := Padded(m, U64(8 * |m|));
      PaddedLayout(m, U64(8 * |m|));
      ghost var p := PadFirst(all, |m| - chunkSize);
      StoreLength(Bits64(U64(dataSize * 8)));
      assert all[p..p + 64] == all[p..p + 56] + all[p + 56..];
      Block(lastChunk[..], all, p);
      assert all[..p + 64] == all;
    }

    static method WriteWord(hash: array<Byte>, i: nat, w: Word)
      requires hash.Length == 32 && i < 8
      modifies hash
      ensures hash[..4 * i + 4] == old(hash[..4 * i]) + WordBytes(w)
    {
      hash[i * 4] := ((w >> 24) & 255) as Byte;
      hash[i * 4 + 1] := ((w >> 16) & 255) as Byte;
      hash[i * 4 + 2] := ((w >> 8) & 255) as Byte;
      hash[i * 4 + 3] := (w & 255) as Byte;
    }

    /** sha256_read: the eight words as 32 big-endian bytes. */
    method Read(hash: array<Byte>)
      requires Shape() && hash.Length == 32 && hash != lastChunk
      modifies hash
      ensures hash[..] == DigestBytes(Words(h))
    {
      hide WordBytes;
      ghost var words := h[..];
      for i := 0 to 8
        invariant hash[..4 * i] == Bytes(words[..i])
      {
        WriteWord(hash, i, h[i]);
        assert words[..i + 1][..i] == words[..i];
      }
      assert words[..8] == words == [h[0], h[1], h[2], h[3], h[4], h[5], h[6], h[7]];
      assert hash[..32] == hash[..];
    }

    /** sha256_read_hex: the same bytes as 64 hexadecimal digits. */
    method ReadHex() returns (hex: seq<char>)
      requires Shape()
      ensures hex == HexDigits(DigestBytes(Words(h)))
    {
      var hash := new Byte[32];
      Read(hash);
      hex := BinToHex(hash[..]);
    }

    /** The length loop: eight bytes, least significant written first, from the end of the block. */
    method StoreLength(bits: bv64)
      requires Shape()
      modifies lastChunk
      ensures lastChunk[..] == old(lastChunk[..56]) + BigEndian(bits, 8)
    {
      hide LowByte, HighBytes;
      var size := bits;
      var i := 8;
      while i > 0
        invariant 0 <= i <= 8
        invariant lastChunk[..56] == old(lastChunk[..56])
        invariant BigEndian(size, i) + lastChunk[56 + i..] == BigEndian(bits, 8)
      {
        ghost var was := lastChunk[56 + i..];
        lastChunk[55 + i] := LowByte(size);
        assert lastChunk[55 + i..] == [LowByte(size)] + was;
        size := HighBytes(size);
        i := i - 1;
      }
      assert lastChunk[..] == lastChunk[..56] + lastChunk[56..];
    }
  }

  lemma TailLength(p: nat, r: nat)
    requires p % 64 == 0 && r < 64
    ensures (p + r) % 64 == r
  {
  }

  lemma ZerosPrefix(n: nat, k: nat)
    requires k <= n
    ensures Zeros(n)[..k] == Zeros(k)
  {
  }

  /** The padded message `all` behind its first `p` bytes, when `tail` is what the last whole block
      left over: one block when the length field fits behind the end mark, two blocks otherwise. */
  ghost predicate Layout(all: seq<Byte>, p: nat, tail: seq<Byte>) {
    && |tail| < 64
    && |all| == p + (if |tail| < 56 then 64 else 128)
    && (|tail| < 56 ==> all[p..p + 56] == tail + END_MARK + Zeros(55 - |tail|))
    && (|tail| >= 56 ==> all[p..p + 64] == tail + END_MARK + Zeros(63 - |tail|) && all[p + 64..p + 120] == Zeros(56))
  }

  lemma PaddedLayout(m: seq<Byte>, bits: nat)
    requires bits < TWO_64
    ensures var p, all := |m| - |m| % 64, Padded(m, bits);
            && p <= |all| && all[..p] == m[..p] && Layout(all, p, m[p..])
            && |all| >= 8 && all[|all| - 8..] == BigEndian(Bits64(bits), 8)
  {
    hide BigEndian, Bits64;
    var r := |m| % 64;
    assert PadZeros(|m|) == (if r < 56 then 55 else 119) - r;
  }

  lemma ChainBlock(m: seq<Byte>, at: nat)
    requires at % 64 == 0 && at + 64 <= |m|
    ensures Chain(m[..at + 64]) == Compress(Chain(m[..at]), m[at..at + 64])
  {
    var n := m[..at + 64];
    assert n[..|n| - 64] == m[..at] && n[|n| - 64..] == m[at..at + 64];
  }
}
