/**
 The published example of SHA-256: the message "abc". Its schedule and its 64 rounds are followed step by step, so that
 every constant and every function of `Fips180` is tied to a digest that the standard's publisher gives.
 */
module Fips180Example {
  import opened Fips180

  const ABC: seq<Byte> := [0x61, 0x62, 0x63]

  const DIGEST: Words8 :=
    Words8(0xba7816bf, 0x8f01cfea, 0x414140de, 0x5dae2223, 0xb00361a3, 0x96177a9c, 0xb410ff61, 0xf20015ad)

  function AbcBlock(): seq<Byte> { Padded(ABC, 24) }

  lemma LengthBytes()
    ensures BigEndian(Bits64(24), 8) == [0, 0, 0, 0, 0, 0, 0, 24]
  {
    var n: bv64 := 24;
    assert Bits64(24) == n;
    assert HighBytes(n) == 0 && HighBytes(0) == 0 && LowByte(n) == 24 && LowByte(0) == 0;
    assert BigEndian(0, 1) == [0];
    assert BigEndian(0, 2) == [0, 0];
    assert BigEndian(0, 3) == [0, 0, 0];
    assert BigEndian(0, 4) == [0, 0, 0, 0];
    assert BigEndian(0, 5) == [0, 0, 0, 0, 0];
    assert BigEndian(0, 6) == [0, 0, 0, 0, 0, 0];
    assert BigEndian(0, 7) == [0, 0, 0, 0, 0, 0, 0];
  }

  lemma BlockBytes()
    ensures |AbcBlock()| == 64
    ensures AbcBlock()[0] == 0x61 && AbcBlock()[1] == 0x62 && AbcBlock()[2] == 0x63 && AbcBlock()[3] == 0x80
    ensures forall i :: 4 <= i < 63 ==> AbcBlock()[i] == 0
    ensures AbcBlock()[63] == 24
  {
    LengthBytes();
    assert PadZeros(3) == 52;
    hide BigEndian, PadZeros, Bits64;
    var length := BigEndian(Bits64(24), 8);
    assert AbcBlock() == ABC + END_MARK + Zeros(52) + length;
  }

  lemma WordAtZero()
    ensures WordOf(0, 0, 0, 0) == 0 && WordOf(0x61, 0x62, 0x63, 0x80) == 0x61626380 && WordOf(0, 0, 0, 24) == 24
  {
  }

  lemma FirstWords()
    ensures |AbcBlock()| == 64 && W(AbcBlock(), 0) == 0x61626380 && W(AbcBlock(), 15) == 24
    ensures forall t :: 1 <= t < 15 ==> W(AbcBlock(), t) == 0
  {
    BlockBytes();
    WordAtZero();
    hide WordOf, AbcBlock;
  }

  /** One step of the schedule. */
  function Next(a: Word, b: Word, c: Word, d: Word): Word {
    Plus(Plus(Plus(a, SmallSigma0(b)), c), SmallSigma1(d))
  }

  lemma NextWord(block: seq<Byte>, t: nat)
    requires |block| == 64 && 16 <= t < 64
    ensures W(block, t) == Next(W(block, t - 16), W(block, t - 15), W(block, t - 7), W(block, t - 2))
  {
  }

  /** The eight words of the schedule from s on. */
  predicate IsRow(block: seq<Byte>, s: nat, row: seq<Word>)
    requires |block| == 64 && s <= 56
  {
    && |row| == 8
    && W(block, s) == row[0] && W(block, s + 1) == row[1] && W(block, s + 2) == row[2] && W(block, s + 3) == row[3]
    && W(block, s + 4) == row[4] && W(block, s + 5) == row[5] && W(block, s + 6) == row[6] && W(block, s + 7) == row[7]
  }

  /** Row c of the schedule follows from the two rows before it. */
  predicate RowFollows(a: seq<Word>, b: seq<Word>, c: seq<Word>)
    requires |a| == |b| == |c| == 8
  {
    && c[0] == Next(a[0], a[1], b[1], b[6]) && c[1] == Next(a[1], a[2], b[2], b[7])
    && c[2] == Next(a[2], a[3], b[3], c[0]) && c[3] == Next(a[3], a[4], b[4], c[1])
    && c[4] == Next(a[4], a[5], b[5], c[2]) && c[5] == Next(a[5], a[6], b[6], c[3])
    && c[6] == Next(a[6], a[7], b[7], c[4]) && c[7] == Next(a[7], b[0], c[0], c[5])
  }

  lemma NextRow(block: seq<Byte>, s: nat, a: seq<Word>, b: seq<Word>, c: seq<Word>)
    requires |block| == 64 && 16 <= s <= 56 && IsRow(block, s - 16, a) && IsRow(block, s - 8, b)
    requires |c| == 8 && RowFollows(a, b, c)
    ensures IsRow(block, s, c)
  {
    hide W, Next;
    NextWord(block, s);
    NextWord(block, s + 1);
    NextWord(block, s + 2);
    NextWord(block, s + 3);
    NextWord(block, s + 4);
    NextWord(block, s + 5);
    NextWord(block, s + 6);
    NextWord(block, s + 7);
  }

  /** Eight rounds with a row of constants and a row of the schedule. */
  function EightRounds(v: Words8, k: seq<Word>, w: seq<Word>, n: nat): Words8
    requires |k| == |w| == 8 && n <= 8
  {
    if n == 0 then v else Round(EightRounds(v, k, w, n - 1), k[n - 1], w[n - 1])
  }

  lemma RowAt(block: seq<Byte>, s: nat, row: seq<Word>, i: nat)
    requires |block| == 64 && s <= 56 && IsRow(block, s, row) && i < 8
    ensures W(block, s + i) == row[i]
  {
    hide W;
  }

  lemma {:induction false} RowOfRounds(v: Words8, block: seq<Byte>, r: nat, w: seq<Word>, n: nat)
    requires |block| == 64 && r < 8 && |w| == 8 && IsRow(block, 8 * r, w) && n <= 8
    ensures Rounds(v, block, 8 * r + n) == EightRounds(Rounds(v, block, 8 * r), KRow(r), w, n)
  {
    hide W, Round, KRow, IsRow;
    if n > 0 {
      RowOfRounds(v, block, r, w, n - 1);
      var t := 8 * r + n - 1;
      assert t / 8 == r && t % 8 == n - 1;
      RowAt(block, 8 * r, w, n - 1);
    }
  }

  lemma EightSteps(v: seq<Words8>, k: seq<Word>, w: seq<Word>)
    requires |v| == 9 && |k| == |w| == 8
    requires Round(v[0], k[0], w[0]) == v[1] && Round(v[1], k[1], w[1]) == v[2]
    requires Round(v[2], k[2], w[2]) == v[3] && Round(v[3], k[3], w[3]) == v[4]
    requires Round(v[4], k[4], w[4]) == v[5] && Round(v[5], k[5], w[5]) == v[6]
    requires Round(v[6], k[6], w[6]) == v[7] && Round(v[7], k[7], w[7]) == v[8]
    ensures EightRounds(v[0], k, w, 8) == v[8]
  {
    hide Round;
    assert EightRounds(v[0], k, w, 1) == v[1];
    assert EightRounds(v[0], k, w, 2) == v[2];
    assert EightRounds(v[0], k, w, 3) == v[3];
    assert EightRounds(v[0], k, w, 4) == v[4];
    assert EightRounds(v[0], k, w, 5) == v[5];
    assert EightRounds(v[0], k, w, 6) == v[6];
    assert EightRounds(v[0], k, w, 7) == v[7];
  }

  const W0: seq<Word> :=
    [0x61626380, 0x00000000, 0x00000000, 0x00000000, 0x00000000, 0x00000000, 0x00000000, 0x00000000]
  const W1: seq<Word> :=
    [0x00000000, 0x00000000, 0x00000000, 0x00000000, 0x00000000, 0x00000000, 0x00000000, 0x00000018]
  const W2: seq<Word> :=
    [0x61626380, 0x000f0000, 0x7da86405, 0x600003c6, 0x3e9d7b78, 0x0183fc00, 0x12dcbfdb, 0xe2e2c38e]
  const W3: seq<Word> :=
    [0xc8215c1a, 0xb73679a2, 0xe5bc3909, 0x32663c5b, 0x9d209d67, 0xec8726cb, 0x702138a4, 0xd3b7973b]
  const W4: seq<Word> :=
    [0x93f5997f, 0x3b68ba73, 0xaff4ffc1, 0xf10a5c62, 0x0a8b3996, 0x72af830a, 0x9409e33e, 0x24641522]
  const W5: seq<Word> :=
    [0x9f47bf94, 0xf0a64f5a, 0x3e246a79, 0x27333ba3, 0x0c4763f2, 0x840abf27, 0x7a290d5d, 0x065c43da]
  const W6: seq<Word> :=
    [0xfb3e89cb, 0xcc7617db, 0xb9e66c34, 0xa9993667, 0x84badedd, 0xc21462bc, 0x1487472c, 0xb20f7a99]
  const W7: seq<Word> :=
    [0xef57b9cd, 0xebe6b238, 0x9fe3095e, 0x78bc8d4b, 0xa43fcf15, 0x668b2ff8, 0xeeaba2cc, 0x12b1edeb]

  const V0: Words8 :=
    Words8(0x6a09e667, 0xbb67ae85, 0x3c6ef372, 0xa54ff53a, 0x510e527f, 0x9b05688c, 0x1f83d9ab, 0x5be0cd19)
  const V1: Words8 :=
    Words8(0x85a07b5f, 0xe5030380, 0x2b4209f5, 0x04409a6a, 0x0c657a79, 0x9b27a401, 0x714260ad, 0x43ada245)
  const V2: Words8 :=
    Words8(0xb0fa238e, 0xc0645fde, 0xd932eb16, 0x87912990, 0x07590dcd, 0x0b92f20c, 0x745a48de, 0x1e578218)
  const V3: Words8 :=
    Words8(0xc5d53d8d, 0xa7a3623f, 0xc2606d6d, 0x9dc68b63, 0xaa47c347, 0x49f5114a, 0xe1257970, 0x8ada8930)
  const V4: Words8 :=
    Words8(0x73b33bf5, 0xea992a22, 0xa0060b30, 0x363482c9, 0xba591112, 0x0109ab3a, 0xade79437, 0x6112a3b7)
  const V5: Words8 :=
    Words8(0x79ea687a, 0x6dc57a8a, 0x34df1604, 0x41a65cb1, 0x1efbc0a0, 0xf0781bc8, 0xa507a53d, 0x0772a26b)
  const V6: Words8 :=
    Words8(0x4172328d, 0xa14c14b0, 0x72ab4b91, 0x26628815, 0xfecf0bc6, 0xd57b94a9, 0xb7755da1, 0xa80f11f0)
  const V7: Words8 :=
    Words8(0x38cc9913, 0x3ec45cdb, 0xf5702fdb, 0x101fd28f, 0x54cb266b, 0xe50e1b4f, 0x9f4787c3, 0x529e7d00)
  const V8: Words8 :=
    Words8(0x506e3058, 0xd39a2165, 0x04d24d6c, 0xb85e2ce9, 0x5ef50f24, 0xfb121210, 0x948d25b6, 0x961f4894)

  lemma Row2()
    ensures RowFollows(W0, W1, W2)
  {
    assert Next(0x61626380, 0x00000000, 0x00000000, 0x00000000) == 0x61626380;
    assert Next(0x00000000, 0x00000000, 0x00000000, 0x00000018) == 0x000f0000;
    assert Next(0x00000000, 0x00000000, 0x00000000, 0x61626380) == 0x7da86405;
    assert Next(0x00000000, 0x00000000, 0x00000000, 0x000f0000) == 0x600003c6;
    assert Next(0x00000000, 0x00000000, 0x00000000, 0x7da86405) == 0x3e9d7b78;
    assert Next(0x00000000, 0x00000000, 0x00000000, 0x600003c6) == 0x0183fc00;
    assert Next(0x00000000, 0x00000000, 0x00000018, 0x3e9d7b78) == 0x12dcbfdb;
    assert Next(0x00000000, 0x00000000, 0x61626380, 0x0183fc00) == 0xe2e2c38e;
    hide Next;
  }

  lemma Row3()
    ensures RowFollows(W1, W2, W3)
  {
    assert Next(0x00000000, 0x00000000, 0x000f0000, 0x12dcbfdb) == 0xc8215c1a;
    assert Next(0x00000000, 0x00000000, 0x7da86405, 0xe2e2c38e) == 0xb73679a2;
    assert Next(0x00000000, 0x00000000, 0x600003c6, 0xc8215c1a) == 0xe5bc3909;
    assert Next(0x00000000, 0x00000000, 0x3e9d7b78, 0xb73679a2) == 0x32663c5b;
    assert Next(0x00000000, 0x00000000, 0x0183fc00, 0xe5bc3909) == 0x9d209d67;
    assert Next(0x00000000, 0x00000000, 0x12dcbfdb, 0x32663c5b) == 0xec8726cb;
    assert Next(0x00000000, 0x00000018, 0xe2e2c38e, 0x9d209d67) == 0x702138a4;
    assert Next(0x00000018, 0x61626380, 0xc8215c1a, 0xec8726cb) == 0xd3b7973b;
    hide Next;
  }

  lemma Row4()
    ensures RowFollows(W2, W3, W4)
  {
    assert Next(0x61626380, 0x000f0000, 0xb73679a2, 0x702138a4) == 0x93f5997f;
    assert Next(0x000f0000, 0x7da86405, 0xe5bc3909, 0xd3b7973b) == 0x3b68ba73;
    assert Next(0x7da86405, 0x600003c6, 0x32663c5b, 0x93f5997f) == 0xaff4ffc1;
    assert Next(0x600003c6, 0x3e9d7b78, 0x9d209d67, 0x3b68ba73) == 0xf10a5c62;
    assert Next(0x3e9d7b78, 0x0183fc00, 0xec8726cb, 0xaff4ffc1) == 0x0a8b3996;
    assert Next(0x0183fc00, 0x12dcbfdb, 0x702138a4, 0xf10a5c62) == 0x72af830a;
    assert Next(0x12dcbfdb, 0xe2e2c38e, 0xd3b7973b, 0x0a8b3996) == 0x9409e33e;
    assert Next(0xe2e2c38e, 0xc8215c1a, 0x93f5997f, 0x72af830a) == 0x24641522;
    hide Next;
  }

  lemma Row5()
    ensures RowFollows(W3, W4, W5)
  {
    assert Next(0xc8215c1a, 0xb73679a2, 0x3b68ba73, 0x9409e33e) == 0x9f47bf94;
    assert Next(0xb73679a2, 0xe5bc3909, 0xaff4ffc1, 0x24641522) == 0xf0a64f5a;
    assert Next(0xe5bc3909, 0x32663c5b, 0xf10a5c62, 0x9f47bf94) == 0x3e246a79;
    assert Next(0x32663c5b, 0x9d209d67, 0x0a8b3996, 0xf0a64f5a) == 0x27333ba3;
    assert Next(0x9d209d67, 0xec8726cb, 0x72af830a, 0x3e246a79) == 0x0c4763f2;
    assert Next(0xec8726cb, 0x702138a4, 0x9409e33e, 0x27333ba3) == 0x840abf27;
    assert Next(0x702138a4, 0xd3b7973b, 0x24641522, 0x0c4763f2) == 0x7a290d5d;
    assert Next(0xd3b7973b, 0x93f5997f, 0x9f47bf94, 0x840abf27) == 0x065c43da;
    hide Next;
  }

  lemma Row6()
    ensures RowFollows(W4, W5, W6)
  {
    assert Next(0x93f5997f, 0x3b68ba73, 0xf0a64f5a, 0x7a290d5d) == 0xfb3e89cb;
    assert Next(0x3b68ba73, 0xaff4ffc1, 0x3e246a79, 0x065c43da) == 0xcc7617db;
    assert Next(0xaff4ffc1, 0xf10a5c62, 0x27333ba3, 0xfb3e89cb) == 0xb9e66c34;
    assert Next(0xf10a5c62, 0x0a8b3996, 0x0c4763f2, 0xcc7617db) == 0xa9993667;
    assert Next(0x0a8b3996, 0x72af830a, 0x840abf27, 0xb9e66c34) == 0x84badedd;
    assert Next(0x72af830a, 0x9409e33e, 0x7a290d5d, 0xa9993667) == 0xc21462bc;
    assert Next(0x9409e33e, 0x24641522, 0x065c43da, 0x84badedd) == 0x1487472c;
    assert Next(0x24641522, 0x9f47bf94, 0xfb3e89cb, 0xc21462bc) == 0xb20f7a99;
    hide Next;
  }

  lemma Row7()
    ensures RowFollows(W5, W6, W7)
  {
    assert Next(0x9f47bf94, 0xf0a64f5a, 0xcc7617db, 0x1487472c) == 0xef57b9cd;
    assert Next(0xf0a64f5a, 0x3e246a79, 0xb9e66c34, 0xb20f7a99) == 0xebe6b238;
    assert Next(0x3e246a79, 0x27333ba3, 0xa9993667, 0xef57b9cd) == 0x9fe3095e;
    assert Next(0x27333ba3, 0x0c4763f2, 0x84badedd, 0xebe6b238) == 0x78bc8d4b;
    assert Next(0x0c4763f2, 0x840abf27, 0xc21462bc, 0x9fe3095e) == 0xa43fcf15;
    assert Next(0x840abf27, 0x7a290d5d, 0x1487472c, 0x78bc8d4b) == 0x668b2ff8;
    assert Next(0x7a290d5d, 0x065c43da, 0xb20f7a99, 0xa43fcf15) == 0xeeaba2cc;
    assert Next(0x065c43da, 0xfb3e89cb, 0xef57b9cd, 0x668b2ff8) == 0x12b1edeb;
    hide Next;
  }

  const S0: seq<Words8> := [
    V0,
    Words8(0x5d6aebcd, 0x6a09e667, 0xbb67ae85, 0x3c6ef372, 0xfa2a4622, 0x510e527f, 0x9b05688c, 0x1f83d9ab),
    Words8(0x5a6ad9ad, 0x5d6aebcd, 0x6a09e667, 0xbb67ae85, 0x78ce7989, 0xfa2a4622, 0x510e527f, 0x9b05688c),
    Words8(0xc8c347a7, 0x5a6ad9ad, 0x5d6aebcd, 0x6a09e667, 0xf92939eb, 0x78ce7989, 0xfa2a4622, 0x510e527f),
    Words8(0xd550f666, 0xc8c347a7, 0x5a6ad9ad, 0x5d6aebcd, 0x24e00850, 0xf92939eb, 0x78ce7989, 0xfa2a4622),
    Words8(0x04409a6a, 0xd550f666, 0xc8c347a7, 0x5a6ad9ad, 0x43ada245, 0x24e00850, 0xf92939eb, 0x78ce7989),
    Words8(0x2b4209f5, 0x04409a6a, 0xd550f666, 0xc8c347a7, 0x714260ad, 0x43ada245, 0x24e00850, 0xf92939eb),
    Words8(0xe5030380, 0x2b4209f5, 0x04409a6a, 0xd550f666, 0x9b27a401, 0x714260ad, 0x43ada245, 0x24e00850),
    V1]

  const S1: seq<Words8> := [
    V1,
    Words8(0x8e04ecb9, 0x85a07b5f, 0xe5030380, 0x2b4209f5, 0x32ca2d8c, 0x0c657a79, 0x9b27a401, 0x714260ad),
    Words8(0x8c87346b, 0x8e04ecb9, 0x85a07b5f, 0xe5030380, 0x1cc92596, 0x32ca2d8c, 0x0c657a79, 0x9b27a401),
    Words8(0x4798a3f4, 0x8c87346b, 0x8e04ecb9, 0x85a07b5f, 0x436b23e8, 0x1cc92596, 0x32ca2d8c, 0x0c657a79),
    Words8(0xf71fc5a9, 0x4798a3f4, 0x8c87346b, 0x8e04ecb9, 0x816fd6e9, 0x436b23e8, 0x1cc92596, 0x32ca2d8c),
    Words8(0x87912990, 0xf71fc5a9, 0x4798a3f4, 0x8c87346b, 0x1e578218, 0x816fd6e9, 0x436b23e8, 0x1cc92596),
    Words8(0xd932eb16, 0x87912990, 0xf71fc5a9, 0x4798a3f4, 0x745a48de, 0x1e578218, 0x816fd6e9, 0x436b23e8),
    Words8(0xc0645fde, 0xd932eb16, 0x87912990, 0xf71fc5a9, 0x0b92f20c, 0x745a48de, 0x1e578218, 0x816fd6e9),
    V2]

  const S2: seq<Words8> := [
    V2,
    Words8(0x21da9a9b, 0xb0fa238e, 0xc0645fde, 0xd932eb16, 0x8034229c, 0x07590dcd, 0x0b92f20c, 0x745a48de),
    Words8(0xc2fbd9d1, 0x21da9a9b, 0xb0fa238e, 0xc0645fde, 0x846ee454, 0x8034229c, 0x07590dcd, 0x0b92f20c),
    Words8(0xfe777bbf, 0xc2fbd9d1, 0x21da9a9b, 0xb0fa238e, 0xcc899961, 0x846ee454, 0x8034229c, 0x07590dcd),
    Words8(0xe1f20c33, 0xfe777bbf, 0xc2fbd9d1, 0x21da9a9b, 0xb0638179, 0xcc899961, 0x846ee454, 0x8034229c),
    Words8(0x9dc68b63, 0xe1f20c33, 0xfe777bbf, 0xc2fbd9d1, 0x8ada8930, 0xb0638179, 0xcc899961, 0x846ee454),
    Words8(0xc2606d6d, 0x9dc68b63, 0xe1f20c33, 0xfe777bbf, 0xe1257970, 0x8ada8930, 0xb0638179, 0xcc899961),
    Words8(0xa7a3623f, 0xc2606d6d, 0x9dc68b63, 0xe1f20c33, 0x49f5114a, 0xe1257970, 0x8ada8930, 0xb0638179),
    V3]

  const S3: seq<Words8> := [
    V3,
    Words8(0x1c2c2838, 0xc5d53d8d, 0xa7a3623f, 0xc2606d6d, 0x2823ef91, 0xaa47c347, 0x49f5114a, 0xe1257970),
    Words8(0xcde8037d, 0x1c2c2838, 0xc5d53d8d, 0xa7a3623f, 0x14383d8e, 0x2823ef91, 0xaa47c347, 0x49f5114a),
    Words8(0xb62ec4bc, 0xcde8037d, 0x1c2c2838, 0xc5d53d8d, 0xc74c6516, 0x14383d8e, 0x2823ef91, 0xaa47c347),
    Words8(0x77d37528, 0xb62ec4bc, 0xcde8037d, 0x1c2c2838, 0xedffbff8, 0xc74c6516, 0x14383d8e, 0x2823ef91),
    Words8(0x363482c9, 0x77d37528, 0xb62ec4bc, 0xcde8037d, 0x6112a3b7, 0xedffbff8, 0xc74c6516, 0x14383d8e),
    Words8(0xa0060b30, 0x363482c9, 0x77d37528, 0xb62ec4bc, 0xade79437, 0x6112a3b7, 0xedffbff8, 0xc74c6516),
    Words8(0xea992a22, 0xa0060b30, 0x363482c9, 0x77d37528, 0x0109ab3a, 0xade79437, 0x6112a3b7, 0xedffbff8),
    V4]

  const S4: seq<Words8> := [
    V4,
    Words8(0x98e12507, 0x73b33bf5, 0xea992a22, 0xa0060b30, 0x9cd9f5f6, 0xba591112, 0x0109ab3a, 0xade79437),
    Words8(0xfe604df5, 0x98e12507, 0x73b33bf5, 0xea992a22, 0x59249dd3, 0x9cd9f5f6, 0xba591112, 0x0109ab3a),
    Words8(0xa9a7738c, 0xfe604df5, 0x98e12507, 0x73b33bf5, 0x085f3833, 0x59249dd3, 0x9cd9f5f6, 0xba591112),
    Words8(0x65a0cfe4, 0xa9a7738c, 0xfe604df5, 0x98e12507, 0xf4b002d6, 0x085f3833, 0x59249dd3, 0x9cd9f5f6),
    Words8(0x41a65cb1, 0x65a0cfe4, 0xa9a7738c, 0xfe604df5, 0x0772a26b, 0xf4b002d6, 0x085f3833, 0x59249dd3),
    Words8(0x34df1604, 0x41a65cb1, 0x65a0cfe4, 0xa9a7738c, 0xa507a53d, 0x0772a26b, 0xf4b002d6, 0x085f3833),
    Words8(0x6dc57a8a, 0x34df1604, 0x41a65cb1, 0x65a0cfe4, 0xf0781bc8, 0xa507a53d, 0x0772a26b, 0xf4b002d6),
    V5]

  const S5: seq<Words8> := [
    V5,
    Words8(0xd6670766, 0x79ea687a, 0x6dc57a8a, 0x34df1604, 0x26352d63, 0x1efbc0a0, 0xf0781bc8, 0xa507a53d),
    Words8(0xdf46652f, 0xd6670766, 0x79ea687a, 0x6dc57a8a, 0x838b2711, 0x26352d63, 0x1efbc0a0, 0xf0781bc8),
    Words8(0x17aa0dfe, 0xdf46652f, 0xd6670766, 0x79ea687a, 0xdecd4715, 0x838b2711, 0x26352d63, 0x1efbc0a0),
    Words8(0x9d4baf93, 0x17aa0dfe, 0xdf46652f, 0xd6670766, 0xfda24c2e, 0xdecd4715, 0x838b2711, 0x26352d63),
    Words8(0x26628815, 0x9d4baf93, 0x17aa0dfe, 0xdf46652f, 0xa80f11f0, 0xfda24c2e, 0xdecd4715, 0x838b2711),
    Words8(0x72ab4b91, 0x26628815, 0x9d4baf93, 0x17aa0dfe, 0xb7755da1, 0xa80f11f0, 0xfda24c2e, 0xdecd4715),
    Words8(0xa14c14b0, 0x72ab4b91, 0x26628815, 0x9d4baf93, 0xd57b94a9, 0xb7755da1, 0xa80f11f0, 0xfda24c2e),
    V6]

  const S6: seq<Words8> := [
    V6,
    Words8(0x05757ceb, 0x4172328d, 0xa14c14b0, 0x72ab4b91, 0xbd714038, 0xfecf0bc6, 0xd57b94a9, 0xb7755da1),
    Words8(0xf11bfaa8, 0x05757ceb, 0x4172328d, 0xa14c14b0, 0x6e5c390c, 0xbd714038, 0xfecf0bc6, 0xd57b94a9),
    Words8(0x7a0508a1, 0xf11bfaa8, 0x05757ceb, 0x4172328d, 0x52f1ccf7, 0x6e5c390c, 0xbd714038, 0xfecf0bc6),
    Words8(0x886e7a22, 0x7a0508a1, 0xf11bfaa8, 0x05757ceb, 0x49231c1e, 0x52f1ccf7, 0x6e5c390c, 0xbd714038),
    Words8(0x101fd28f, 0x886e7a22, 0x7a0508a1, 0xf11bfaa8, 0x529e7d00, 0x49231c1e, 0x52f1ccf7, 0x6e5c390c),
    Words8(0xf5702fdb, 0x101fd28f, 0x886e7a22, 0x7a0508a1, 0x9f4787c3, 0x529e7d00, 0x49231c1e, 0x52f1ccf7),
    Words8(0x3ec45cdb, 0xf5702fdb, 0x101fd28f, 0x886e7a22, 0xe50e1b4f, 0x9f4787c3, 0x529e7d00, 0x49231c1e),
    V7]

  const S7: seq<Words8> := [
    V7,
    Words8(0xfcd1887b, 0x38cc9913, 0x3ec45cdb, 0xf5702fdb, 0x9b5e906c, 0x54cb266b, 0xe50e1b4f, 0x9f4787c3),
    Words8(0xc062d46f, 0xfcd1887b, 0x38cc9913, 0x3ec45cdb, 0x7e44008e, 0x9b5e906c, 0x54cb266b, 0xe50e1b4f),
    Words8(0xffb70472, 0xc062d46f, 0xfcd1887b, 0x38cc9913, 0x6d83bfc6, 0x7e44008e, 0x9b5e906c, 0x54cb266b),
    Words8(0xb6ae8fff, 0xffb70472, 0xc062d46f, 0xfcd1887b, 0xb21bad3d, 0x6d83bfc6, 0x7e44008e, 0x9b5e906c),
    Words8(0xb85e2ce9, 0xb6ae8fff, 0xffb70472, 0xc062d46f, 0x961f4894, 0xb21bad3d, 0x6d83bfc6, 0x7e44008e),
    Words8(0x04d24d6c, 0xb85e2ce9, 0xb6ae8fff, 0xffb70472, 0x948d25b6, 0x961f4894, 0xb21bad3d, 0x6d83bfc6),
    Words8(0xd39a2165, 0x04d24d6c, 0xb85e2ce9, 0xb6ae8fff, 0xfb121210, 0x948d25b6, 0x961f4894, 0xb21bad3d),
    V8]

  lemma Values0()
    ensures Round(S0[0], 0x428a2f98, 0x61626380) == S0[1]
    ensures Round(S0[1], 0x71374491, 0x00000000) == S0[2]
    ensures Round(S0[2], 0xb5c0fbcf, 0x00000000) == S0[3]
    ensures Round(S0[3], 0xe9b5dba5, 0x00000000) == S0[4]
    ensures Round(S0[4], 0x3956c25b, 0x00000000) == S0[5]
    ensures Round(S0[5], 0x59f111f1, 0x00000000) == S0[6]
    ensures Round(S0[6], 0x923f82a4, 0x00000000) == S0[7]
    ensures Round(S0[7], 0xab1c5ed5, 0x00000000) == S0[8]
  {
  }

  lemma Rounds0()
    ensures EightRounds(V0, KRow(0), W0, 8) == V1
  {
    Values0();
    hide Round;
    EightSteps(S0, KRow(0), W0);
  }

  lemma Values1()
    ensures Round(S1[0], 0xd807aa98, 0x00000000) == S1[1]
    ensures Round(S1[1], 0x12835b01, 0x00000000) == S1[2]
    ensures Round(S1[2], 0x243185be, 0x00000000) == S1[3]
    ensures Round(S1[3], 0x550c7dc3, 0x00000000) == S1[4]
    ensures Round(S1[4], 0x72be5d74, 0x00000000) == S1[5]
    ensures Round(S1[5], 0x80deb1fe, 0x00000000) == S1[6]
    ensures Round(S1[6], 0x9bdc06a7, 0x00000000) == S1[7]
    ensures Round(S1[7], 0xc19bf174, 0x00000018) == S1[8]
  {
  }

  lemma Rounds1()
    ensures EightRounds(V1, KRow(1), W1, 8) == V2
  {
    Values1();
    hide Round;
    EightSteps(S1, KRow(1), W1);
  }

  lemma Values2()
    ensures Round(S2[0], 0xe49b69c1, 0x61626380) == S2[1]
    ensures Round(S2[1], 0xefbe4786, 0x000f0000) == S2[2]
    ensures Round(S2[2], 0x0fc19dc6, 0x7da86405) == S2[3]
    ensures Round(S2[3], 0x240ca1cc, 0x600003c6) == S2[4]
    ensures Round(S2[4], 0x2de92c6f, 0x3e9d7b78) == S2[5]
    ensures Round(S2[5], 0x4a7484aa, 0x0183fc00) == S2[6]
    ensures Round(S2[6], 0x5cb0a9dc, 0x12dcbfdb) == S2[7]
    ensures Round(S2[7], 0x76f988da, 0xe2e2c38e) == S2[8]
  {
  }

  lemma Rounds2()
    ensures EightRounds(V2, KRow(2), W2, 8) == V3
  {
    Values2();
    hide Round;
    EightSteps(S2, KRow(2), W2);
  }

  lemma Values3()
    ensures Round(S3[0], 0x983e5152, 0xc8215c1a) == S3[1]
    ensures Round(S3[1], 0xa831c66d, 0xb73679a2) == S3[2]
    ensures Round(S3[2], 0xb00327c8, 0xe5bc3909) == S3[3]
    ensures Round(S3[3], 0xbf597fc7, 0x32663c5b) == S3[4]
    ensures Round(S3[4], 0xc6e00bf3, 0x9d209d67) == S3[5]
    ensures Round(S3[5], 0xd5a79147, 0xec8726cb) == S3[6]
    ensures Round(S3[6], 0x06ca6351, 0x702138a4) == S3[7]
    ensures Round(S3[7], 0x14292967, 0xd3b7973b) == S3[8]
  {
  }

  lemma Rounds3()
    ensures EightRounds(V3, KRow(3), W3, 8) == V4
  {
    Values3();
    hide Round;
    EightSteps(S3, KRow(3), W3);
  }

  lemma Values4()
    ensures Round(S4[0], 0x27b70a85, 0x93f5997f) == S4[1]
    ensures Round(S4[1], 0x2e1b2138, 0x3b68ba73) == S4[2]
    ensures Round(S4[2], 0x4d2c6dfc, 0xaff4ffc1) == S4[3]
    ensures Round(S4[3], 0x53380d13, 0xf10a5c62) == S4[4]
    ensures Round(S4[4], 0x650a7354, 0x0a8b3996) == S4[5]
    ensures Round(S4[5], 0x766a0abb, 0x72af830a) == S4[6]
    ensures Round(S4[6], 0x81c2c92e, 0x9409e33e) == S4[7]
    ensures Round(S4[7], 0x92722c85, 0x24641522) == S4[8]
  {
  }

  lemma Rounds4()
    ensures EightRounds(V4, KRow(4), W4, 8) == V5
  {
    Values4();
    hide Round;
    EightSteps(S4, KRow(4), W4);
  }

  lemma Values5()
    ensures Round(S5[0], 0xa2bfe8a1, 0x9f47bf94) == S5[1]
    ensures Round(S5[1], 0xa81a664b, 0xf0a64f5a) == S5[2]
    ensures Round(S5[2], 0xc24b8b70, 0x3e246a79) == S5[3]
    ensures Round(S5[3], 0xc76c51a3, 0x27333ba3) == S5[4]
    ensures Round(S5[4], 0xd192e819, 0x0c4763f2) == S5[5]
    ensures Round(S5[5], 0xd6990624, 0x840abf27) == S5[6]
    ensures Round(S5[6], 0xf40e3585, 0x7a290d5d) == S5[7]
    ensures Round(S5[7], 0x106aa070, 0x065c43da) == S5[8]
  {
  }

  lemma Rounds5()
    ensures EightRounds(V5, KRow(5), W5, 8) == V6
  {
    Values5();
    hide Round;
    EightSteps(S5, KRow(5), W5);
  }

  lemma Values6()
    ensures Round(S6[0], 0x19a4c116, 0xfb3e89cb) == S6[1]
    ensures Round(S6[1], 0x1e376c08, 0xcc7617db) == S6[2]
    ensures Round(S6[2], 0x2748774c, 0xb9e66c34) == S6[3]
    ensures Round(S6[3], 0x34b0bcb5, 0xa9993667) == S6[4]
    ensures Round(S6[4], 0x391c0cb3, 0x84badedd) == S6[5]
    ensures Round(S6[5], 0x4ed8aa4a, 0xc21462bc) == S6[6]
    ensures Round(S6[6], 0x5b9cca4f, 0x1487472c) == S6[7]
    ensures Round(S6[7], 0x682e6ff3, 0xb20f7a99) == S6[8]
  {
  }

  lemma Rounds6()
    ensures EightRounds(V6, KRow(6), W6, 8) == V7
  {
    Values6();
    hide Round;
    EightSteps(S6, KRow(6), W6);
  }

  lemma Values7()
    ensures Round(S7[0], 0x748f82ee, 0xef57b9cd) == S7[1]
    ensures Round(S7[1], 0x78a5636f, 0xebe6b238) == S7[2]
    ensures Round(S7[2], 0x84c87814, 0x9fe3095e) == S7[3]
    ensures Round(S7[3], 0x8cc70208, 0x78bc8d4b) == S7[4]
    ensures Round(S7[4], 0x90befffa, 0xa43fcf15) == S7[5]
    ensures Round(S7[5], 0xa4506ceb, 0x668b2ff8) == S7[6]
    ensures Round(S7[6], 0xbef9a3f7, 0xeeaba2cc) == S7[7]
    ensures Round(S7[7], 0xc67178f2, 0x12b1edeb) == S7[8]
  {
  }

  lemma Rounds7()
    ensures EightRounds(V7, KRow(7), W7, 8) == V8
  {
    Values7();
    hide Round;
    EightSteps(S7, KRow(7), W7);
  }

  lemma FinalSum()
    ensures Add8(H0, V8) == DIGEST && V0 == H0
  {
  }

  lemma FirstRows()
    ensures |AbcBlock()| == 64 && IsRow(AbcBlock(), 0, W0) && IsRow(AbcBlock(), 8, W1)
  {
    FirstWords();
    hide W, AbcBlock;
  }

  lemma AllRows()
    ensures |AbcBlock()| == 64
    ensures IsRow(AbcBlock(), 0, W0) && IsRow(AbcBlock(), 8, W1) && IsRow(AbcBlock(), 16, W2)
    ensures IsRow(AbcBlock(), 24, W3) && IsRow(AbcBlock(), 32, W4) && IsRow(AbcBlock(), 40, W5)
    ensures IsRow(AbcBlock(), 48, W6) && IsRow(AbcBlock(), 56, W7)
  {
    hide AbcBlock, IsRow, RowFollows;
    FirstRows();
    Row2();
    NextRow(AbcBlock(), 16, W0, W1, W2);
    Row3();
    NextRow(AbcBlock(), 24, W1, W2, W3);
    Row4();
    NextRow(AbcBlock(), 32, W2, W3, W4);
    Row5();
    NextRow(AbcBlock(), 40, W3, W4, W5);
    Row6();
    NextRow(AbcBlock(), 48, W4, W5, W6);
    Row7();
    NextRow(AbcBlock(), 56, W5, W6, W7);
  }

  /** The digest of "abc". */
  lemma AbcDigest()
    ensures Sha256(ABC) == DIGEST
  {
    hide Rounds, Add8, AbcBlock, IsRow, EightRounds, KRow;
    AllRows();
    var b := AbcBlock();
    FinalSum();
    NoRounds(b);
    Rounds0();
    RowOfRounds(H0, b, 0, W0, 8);
    Rounds1();
    RowOfRounds(H0, b, 1, W1, 8);
    Rounds2();
    RowOfRounds(H0, b, 2, W2, 8);
    Rounds3();
    RowOfRounds(H0, b, 3, W3, 8);
    Rounds4();
    RowOfRounds(H0, b, 4, W4, 8);
    Rounds5();
    RowOfRounds(H0, b, 5, W5, 8);
    Rounds6();
    RowOfRounds(H0, b, 6, W6, 8);
    Rounds7();
    RowOfRounds(H0, b, 7, W7, 8);
    OneBlock(b);
    AbcPadded();
  }

  lemma NoRounds(block: seq<Byte>)
    requires |block| == 64
    ensures Rounds(H0, block, 0) == H0
  {
  }

  lemma AbcPadded()
    ensures |AbcBlock()| % 64 == 0 && Sha256(ABC) == Chain(AbcBlock())
  {
  }

  lemma OneBlock(block: seq<Byte>)
    requires |block| == 64
    ensures Chain(block) == Add8(H0, Rounds(H0, block, 64))
  {
    hide Rounds, Add8;
    assert block[..0] == [] && block[0..] == block;
  }
}
