/** The standard's one-block example, worked through: the digest of "abc". */
module Sha256Example {
  import opened Sha256Standard
  import opened BlockStream
  import opened StreamingSha256

  type Row = r: seq<Word> | |r| == 8 witness seq(8, i => 0 as Word)

  // ----- The message schedule, eight words at a time -----

  /** Words `t` to `t + 7` of the schedule. */
  predicate RowIs(b: Block, t: nat, r: Row)
    requires t <= 56
  {
    && Schedule(b, t) == r[0] && Schedule(b, t + 1) == r[1] && Schedule(b, t + 2) == r[2]
    && Schedule(b, t + 3) == r[3] && Schedule(b, t + 4) == r[4] && Schedule(b, t + 5) == r[5]
    && Schedule(b, t + 6) == r[6] && Schedule(b, t + 7) == r[7]
  }

  /** Row `s` follows rows `q` and `r`. */
  predicate Follows(q: Row, r: Row, s: Row) {
    && s[0] == NextWord(r[6], r[1], q[1], q[0])
    && s[1] == NextWord(r[7], r[2], q[2], q[1])
    && s[2] == NextWord(s[0], r[3], q[3], q[2])
    && s[3] == NextWord(s[1], r[4], q[4], q[3])
    && s[4] == NextWord(s[2], r[5], q[5], q[4])
    && s[5] == NextWord(s[3], r[6], q[6], q[5])
    && s[6] == NextWord(s[4], r[7], q[7], q[6])
    && s[7] == NextWord(s[5], s[0], r[0], q[7])
  }

  lemma WordIs(b: Block, t: nat, w2: Word, w7: Word, w15: Word, w16: Word)
    requires 16 <= t < 64 && Schedule(b, t - 2) == w2 && Schedule(b, t - 7) == w7
    requires Schedule(b, t - 15) == w15 && Schedule(b, t - 16) == w16
    ensures Schedule(b, t) == NextWord(w2, w7, w15, w16)
  {
  }

  lemma NextRowIs(b: Block, t: nat, q: Row, r: Row, s: Row)
    requires 16 <= t <= 56 && RowIs(b, t - 16, q) && RowIs(b, t - 8, r) && Follows(q, r, s)
    ensures RowIs(b, t, s)
  {
    WordIs(b, t, r[6], r[1], q[1], q[0]);
    WordIs(b, t + 1, r[7], r[2], q[2], q[1]);
    WordIs(b, t + 2, s[0], r[3], q[3], q[2]);
    WordIs(b, t + 3, s[1], r[4], q[4], q[3]);
    WordIs(b, t + 4, s[2], r[5], q[5], q[4]);
    WordIs(b, t + 5, s[3], r[6], q[6], q[5]);
    WordIs(b, t + 6, s[4], r[7], q[7], q[6]);
    WordIs(b, t + 7, s[5], s[0], r[0], q[7]);
  }

  // ----- The rounds, four at a time -----

  function FirstFour(v: Hash, k: Row, w: Row): Hash {
    var v1 := Round(Round(v, k[0], w[0]), k[1], w[1]);
    Round(Round(v1, k[2], w[2]), k[3], w[3])
  }

  function LastFour(v: Hash, k: Row, w: Row): Hash {
    var v1 := Round(Round(v, k[4], w[4]), k[5], w[5]);
    Round(Round(v1, k[6], w[6]), k[7], w[7])
  }

  lemma FourMore(b: Block, t: nat, v: Hash,
                 k0: Word, w0: Word, k1: Word, w1: Word, k2: Word, w2: Word, k3: Word, w3: Word)
    requires t <= 60 && Rounds(K(), InitialHash(), b, t) == v
    requires K()[t] == k0 && K()[t + 1] == k1 && K()[t + 2] == k2 && K()[t + 3] == k3
    requires Schedule(b, t) == w0 && Schedule(b, t + 1) == w1 && Schedule(b, t + 2) == w2 && Schedule(b, t + 3) == w3
    ensures Rounds(K(), InitialHash(), b, t + 4) == Round(Round(Round(Round(v, k0, w0), k1, w1), k2, w2), k3, w3)
  {
    assert Rounds(K(), InitialHash(), b, t + 1) == Round(v, k0, w0);
    assert Rounds(K(), InitialHash(), b, t + 2) == Round(Round(v, k0, w0), k1, w1);
    assert Rounds(K(), InitialHash(), b, t + 3) == Round(Round(Round(v, k0, w0), k1, w1), k2, w2);
  }

  /** Constants `t` to `t + 7`. */
  predicate ConstantsAre(t: nat, k: Row)
    requires t <= 56
  {
    && K()[t] == k[0] && K()[t + 1] == k[1] && K()[t + 2] == k[2] && K()[t + 3] == k[3]
    && K()[t + 4] == k[4] && K()[t + 5] == k[5] && K()[t + 6] == k[6] && K()[t + 7] == k[7]
  }

  lemma FirstFourOfRow(b: Block, t: nat, v: Hash, k: Row, w: Row)
    requires t <= 56 && RowIs(b, t, w) && ConstantsAre(t, k) && Rounds(K(), InitialHash(), b, t) == v
    ensures Rounds(K(), InitialHash(), b, t + 4) == FirstFour(v, k, w)
  {
    FourMore(b, t, v, k[0], w[0], k[1], w[1], k[2], w[2], k[3], w[3]);
  }

  lemma LastFourOfRow(b: Block, t: nat, v: Hash, k: Row, w: Row)
    requires t <= 56 && RowIs(b, t, w) && ConstantsAre(t, k) && Rounds(K(), InitialHash(), b, t + 4) == v
    ensures Rounds(K(), InitialHash(), b, t + 8) == LastFour(v, k, w)
  {
    FourMore(b, t + 4, v, k[4], w[4], k[5], w[5], k[6], w[6], k[7], w[7]);
  }

  lemma NoRounds(b: Block, t: nat)
    requires t == 0
    ensures Rounds(K(), InitialHash(), b, t) == InitialHash()
  {
  }

  // ----- The example -----

  /** The message, its 1 bit, zeros, and its length of 24 bits. */
  function AbcBlock(): Block { [0x61, 0x62, 0x63, 0x80] + Zeros(52) + [0, 0, 0, 0, 0, 0, 0, 24] }

  function Words0(): Row {
    [0x61626380, 0x00000000, 0x00000000, 0x00000000, 0x00000000, 0x00000000, 0x00000000, 0x00000000]
  }

  function Words1(): Row {
    [0x00000000, 0x00000000, 0x00000000, 0x00000000, 0x00000000, 0x00000000, 0x00000000, 0x00000018]
  }

  function Words2(): Row {
    [0x61626380, 0x000f0000, 0x7da86405, 0x600003c6, 0x3e9d7b78, 0x0183fc00, 0x12dcbfdb, 0xe2e2c38e]
  }

  function Words3(): Row {
    [0xc8215c1a, 0xb73679a2, 0xe5bc3909, 0x32663c5b, 0x9d209d67, 0xec8726cb, 0x702138a4, 0xd3b7973b]
  }

  function Words4(): Row {
    [0x93f5997f, 0x3b68ba73, 0xaff4ffc1, 0xf10a5c62, 0x0a8b3996, 0x72af830a, 0x9409e33e, 0x24641522]
  }

  function Words5(): Row {
    [0x9f47bf94, 0xf0a64f5a, 0x3e246a79, 0x27333ba3, 0x0c4763f2, 0x840abf27, 0x7a290d5d, 0x065c43da]
  }

  function Words6(): Row {
    [0xfb3e89cb, 0xcc7617db, 0xb9e66c34, 0xa9993667, 0x84badedd, 0xc21462bc, 0x1487472c, 0xb20f7a99]
  }

  function Words7(): Row {
    [0xef57b9cd, 0xebe6b238, 0x9fe3095e, 0x78bc8d4b, 0xa43fcf15, 0x668b2ff8, 0xeeaba2cc, 0x12b1edeb]
  }

  lemma FirstRows(b: Block)
    requires b == AbcBlock()
    ensures RowIs(b, 0, Words0()) && RowIs(b, 8, Words1())
  {
    forall t: nat | t < 16 ensures Schedule(b, t) == (if t == 0 then 0x61626380 else if t == 15 then 24 else 0) {
      FirstWords(b, t);
    }
  }

  lemma FirstWords(b: Block, t: nat)
    requires b == AbcBlock() && t < 16
    ensures Schedule(b, t) == if t == 0 then 0x61626380 else if t == 15 then 24 else 0
  {
    assert BigEndianWord(0x61, 0x62, 0x63, 0x80) == 0x61626380;
    assert BigEndianWord(0, 0, 0, 0) == 0 && BigEndianWord(0, 0, 0, 24) == 24;
    if t > 0 {
      assert b[4 * t] == 0 && b[4 * t + 1] == 0 && b[4 * t + 2] == 0 && b[4 * t + 3] == if t == 15 then 24 else 0;
    }
  }

  lemma FollowsTo2()
    ensures Follows(Words0(), Words1(), Words2())
  {
  }

  lemma FollowsTo3()
    ensures Follows(Words1(), Words2(), Words3())
  {
  }

  lemma FollowsTo4()
    ensures Follows(Words2(), Words3(), Words4())
  {
  }

  lemma FollowsTo5()
    ensures Follows(Words3(), Words4(), Words5())
  {
  }

  lemma FollowsTo6()
    ensures Follows(Words4(), Words5(), Words6())
  {
  }

  lemma FollowsTo7()
    ensures Follows(Words5(), Words6(), Words7())
  {
  }

  lemma RowsTo2(b: Block)
    requires b == AbcBlock()
    ensures RowIs(b, 8, Words1()) && RowIs(b, 16, Words2())
  {
    FirstRows(b);
    FollowsTo2();
    NextRowIs(b, 16, Words0(), Words1(), Words2());
  }

  lemma RowsTo3(b: Block)
    requires b == AbcBlock()
    ensures RowIs(b, 16, Words2()) && RowIs(b, 24, Words3())
  {
    RowsTo2(b);
    FollowsTo3();
    NextRowIs(b, 24, Words1(), Words2(), Words3());
  }

  lemma RowsTo4(b: Block)
    requires b == AbcBlock()
    ensures RowIs(b, 24, Words3()) && RowIs(b, 32, Words4())
  {
    RowsTo3(b);
    FollowsTo4();
    NextRowIs(b, 32, Words2(), Words3(), Words4());
  }

  lemma RowsTo5(b: Block)
    requires b == AbcBlock()
    ensures RowIs(b, 32, Words4()) && RowIs(b, 40, Words5())
  {
    RowsTo4(b);
    FollowsTo5();
    NextRowIs(b, 40, Words3(), Words4(), Words5());
  }

  lemma RowsTo6(b: Block)
    requires b == AbcBlock()
    ensures RowIs(b, 40, Words5()) && RowIs(b, 48, Words6())
  {
    RowsTo5(b);
    FollowsTo6();
    NextRowIs(b, 48, Words4(), Words5(), Words6());
  }

  lemma RowsTo7(b: Block)
    requires b == AbcBlock()
    ensures RowIs(b, 48, Words6()) && RowIs(b, 56, Words7())
  {
    RowsTo6(b);
    FollowsTo7();
    NextRowIs(b, 56, Words5(), Words6(), Words7());
  }

  function State4(): Hash {
    Hash(0xd550f666, 0xc8c347a7, 0x5a6ad9ad, 0x5d6aebcd,
         0x24e00850, 0xf92939eb, 0x78ce7989, 0xfa2a4622)
  }

  function State8(): Hash {
    Hash(0x85a07b5f, 0xe5030380, 0x2b4209f5, 0x04409a6a,
         0x0c657a79, 0x9b27a401, 0x714260ad, 0x43ada245)
  }

  function State12(): Hash {
    Hash(0xf71fc5a9, 0x4798a3f4, 0x8c87346b, 0x8e04ecb9,
         0x816fd6e9, 0x436b23e8, 0x1cc92596, 0x32ca2d8c)
  }

  function State16(): Hash {
    Hash(0xb0fa238e, 0xc0645fde, 0xd932eb16, 0x87912990,
         0x07590dcd, 0x0b92f20c, 0x745a48de, 0x1e578218)
  }

  function State20(): Hash {
    Hash(0xe1f20c33, 0xfe777bbf, 0xc2fbd9d1, 0x21da9a9b,
         0xb0638179, 0xcc899961, 0x846ee454, 0x8034229c)
  }

  function State24(): Hash {
    Hash(0xc5d53d8d, 0xa7a3623f, 0xc2606d6d, 0x9dc68b63,
         0xaa47c347, 0x49f5114a, 0xe1257970, 0x8ada8930)
  }

  function State28(): Hash {
    Hash(0x77d37528, 0xb62ec4bc, 0xcde8037d, 0x1c2c2838,
         0xedffbff8, 0xc74c6516, 0x14383d8e, 0x2823ef91)
  }

  function State32(): Hash {
    Hash(0x73b33bf5, 0xea992a22, 0xa0060b30, 0x363482c9,
         0xba591112, 0x0109ab3a, 0xade79437, 0x6112a3b7)
  }

  function State36(): Hash {
    Hash(0x65a0cfe4, 0xa9a7738c, 0xfe604df5, 0x98e12507,
         0xf4b002d6, 0x085f3833, 0x59249dd3, 0x9cd9f5f6)
  }

  function State40(): Hash {
    Hash(0x79ea687a, 0x6dc57a8a, 0x34df1604, 0x41a65cb1,
         0x1efbc0a0, 0xf0781bc8, 0xa507a53d, 0x0772a26b)
  }

  function State44(): Hash {
    Hash(0x9d4baf93, 0x17aa0dfe, 0xdf46652f, 0xd6670766,
         0xfda24c2e, 0xdecd4715, 0x838b2711, 0x26352d63)
  }

  function State48(): Hash {
    Hash(0x4172328d, 0xa14c14b0, 0x72ab4b91, 0x26628815,
         0xfecf0bc6, 0xd57b94a9, 0xb7755da1, 0xa80f11f0)
  }

  function State52(): Hash {
    Hash(0x886e7a22, 0x7a0508a1, 0xf11bfaa8, 0x05757ceb,
         0x49231c1e, 0x52f1ccf7, 0x6e5c390c, 0xbd714038)
  }

  function State56(): Hash {
    Hash(0x38cc9913, 0x3ec45cdb, 0xf5702fdb, 0x101fd28f,
         0x54cb266b, 0xe50e1b4f, 0x9f4787c3, 0x529e7d00)
  }

  function State60(): Hash {
    Hash(0xb6ae8fff, 0xffb70472, 0xc062d46f, 0xfcd1887b,
         0xb21bad3d, 0x6d83bfc6, 0x7e44008e, 0x9b5e906c)
  }

  function State64(): Hash {
    Hash(0x506e3058, 0xd39a2165, 0x04d24d6c, 0xb85e2ce9,
         0x5ef50f24, 0xfb121210, 0x948d25b6, 0x961f4894)
  }

  lemma Reaches4()
    ensures FirstFour(InitialHash(), KRow0(), Words0()) == State4()
  {
  }

  lemma Reaches8()
    ensures LastFour(State4(), KRow0(), Words0()) == State8()
  {
  }

  lemma Reaches12()
    ensures FirstFour(State8(), KRow1(), Words1()) == State12()
  {
  }

  lemma Reaches16()
    ensures LastFour(State12(), KRow1(), Words1()) == State16()
  {
  }

  lemma Reaches20()
    ensures FirstFour(State16(), KRow2(), Words2()) == State20()
  {
  }

  lemma Reaches24()
    ensures LastFour(State20(), KRow2(), Words2()) == State24()
  {
  }

  lemma Reaches28()
    ensures FirstFour(State24(), KRow3(), Words3()) == State28()
  {
  }

  lemma Reaches32()
    ensures LastFour(State28(), KRow3(), Words3()) == State32()
  {
  }

  lemma Reaches36()
    ensures FirstFour(State32(), KRow4(), Words4()) == State36()
  {
  }

  lemma Reaches40()
    ensures LastFour(State36(), KRow4(), Words4()) == State40()
  {
  }

  lemma Reaches44()
    ensures FirstFour(State40(), KRow5(), Words5()) == State44()
  {
  }

  lemma Reaches48()
    ensures LastFour(State44(), KRow5(), Words5()) == State48()
  {
  }

  lemma Reaches52()
    ensures FirstFour(State48(), KRow6(), Words6()) == State52()
  {
  }

  lemma Reaches56()
    ensures LastFour(State52(), KRow6(), Words6()) == State56()
  {
  }

  lemma Reaches60()
    ensures FirstFour(State56(), KRow7(), Words7()) == State60()
  {
  }

  lemma Reaches64()
    ensures LastFour(State60(), KRow7(), Words7()) == State64()
  {
  }

  lemma Constants0()
    ensures ConstantsAre(0, KRow0())
  {
  }

  lemma Constants1()
    ensures ConstantsAre(8, KRow1())
  {
  }

  lemma Constants2()
    ensures ConstantsAre(16, KRow2())
  {
  }

  lemma Constants3()
    ensures ConstantsAre(24, KRow3())
  {
  }

  lemma Constants4()
    ensures ConstantsAre(32, KRow4())
  {
  }

  lemma Constants5()
    ensures ConstantsAre(40, KRow5())
  {
  }

  lemma Constants6()
    ensures ConstantsAre(48, KRow6())
  {
  }

  lemma Constants7()
    ensures ConstantsAre(56, KRow7())
  {
  }

  lemma RoundsTo4(b: Block)
    requires RowIs(b, 0, Words0())
    ensures Rounds(K(), InitialHash(), b, 4) == State4()
  {
    NoRounds(b, 0);
    Constants0();
    Reaches4();
    FirstFourOfRow(b, 0, InitialHash(), KRow0(), Words0());
  }

  lemma RoundsTo8(b: Block)
    requires b == AbcBlock()
    ensures Rounds(K(), InitialHash(), b, 8) == State8()
  {
    FirstRows(b);
    RoundsTo4(b);
    Constants0();
    Reaches8();
    LastFourOfRow(b, 0, State4(), KRow0(), Words0());
  }

  lemma RoundsTo16(b: Block)
    requires b == AbcBlock()
    ensures Rounds(K(), InitialHash(), b, 16) == State16()
  {
    FirstRows(b);
    RoundsTo8(b);
    Constants1();
    Reaches12();
    FirstFourOfRow(b, 8, State8(), KRow1(), Words1());
    Reaches16();
    LastFourOfRow(b, 8, State12(), KRow1(), Words1());
  }

  lemma RoundsTo24(b: Block)
    requires b == AbcBlock()
    ensures Rounds(K(), InitialHash(), b, 24) == State24()
  {
    RowsTo2(b);
    RoundsTo16(b);
    Constants2();
    Reaches20();
    FirstFourOfRow(b, 16, State16(), KRow2(), Words2());
    Reaches24();
    LastFourOfRow(b, 16, State20(), KRow2(), Words2());
  }

  lemma RoundsTo32(b: Block)
    requires b == AbcBlock()
    ensures Rounds(K(), InitialHash(), b, 32) == State32()
  {
    RowsTo3(b);
    RoundsTo24(b);
    Constants3();
    Reaches28();
    FirstFourOfRow(b, 24, State24(), KRow3(), Words3());
    Reaches32();
    LastFourOfRow(b, 24, State28(), KRow3(), Words3());
  }

  lemma RoundsTo40(b: Block)
    requires b == AbcBlock()
    ensures Rounds(K(), InitialHash(), b, 40) == State40()
  {
    RowsTo4(b);
    RoundsTo32(b);
    Constants4();
    Reaches36();
    FirstFourOfRow(b, 32, State32(), KRow4(), Words4());
    Reaches40();
    LastFourOfRow(b, 32, State36(), KRow4(), Words4());
  }

  lemma RoundsTo48(b: Block)
    requires b == AbcBlock()
    ensures Rounds(K(), InitialHash(), b, 48) == State48()
  {
    RowsTo5(b);
    RoundsTo40(b);
    Constants5();
    Reaches44();
    FirstFourOfRow(b, 40, State40(), KRow5(), Words5());
    Reaches48();
    LastFourOfRow(b, 40, State44(), KRow5(), Words5());
  }

  lemma RoundsTo56(b: Block)
    requires b == AbcBlock()
    ensures Rounds(K(), InitialHash(), b, 56) == State56()
  {
    RowsTo6(b);
    RoundsTo48(b);
    Constants6();
    Reaches52();
    FirstFourOfRow(b, 48, State48(), KRow6(), Words6());
    Reaches56();
    LastFourOfRow(b, 48, State52(), KRow6(), Words6());
  }

  lemma RoundsTo64(b: Block)
    requires b == AbcBlock()
    ensures Rounds(K(), InitialHash(), b, 64) == State64()
  {
    RowsTo7(b);
    RoundsTo56(b);
    Constants7();
    Reaches60();
    FirstFourOfRow(b, 56, State56(), KRow7(), Words7());
    Reaches64();
    LastFourOfRow(b, 56, State60(), KRow7(), Words7());
  }

  // ----- The digest -----

  lemma AbcCompressed(b: Block)
    requires b == AbcBlock()
    ensures Compress(InitialHash(), b)
      == Hash(0xba7816bf, 0x8f01cfea, 0x414140de, 0x5dae2223,
              0xb00361a3, 0x96177a9c, 0xb410ff61, 0xf20015ad)
  {
    RoundsTo64(b);
  }

  lemma DigestOfOneBlock(m: seq<Byte>, b: Block)
    requires |m| < MAX_MESSAGE && Pad(m) == b
    ensures Digest(m) == Compress(InitialHash(), b)
  {
    FoldOneOrTwo(Compress, InitialHash(), [], b);
    assert [] + b == b;
  }

  lemma BigEndian24(n: nat, k: nat)
    requires n == 24 && 0 < k
    ensures BigEndian(n, k) == seq(k - 1, i => 0 as Byte) + [24]
  {
    ZeroBigEndian(k - 1);
  }

  lemma {:induction false} ZeroBigEndian(k: nat)
    ensures BigEndian(0, k) == seq(k, i => 0 as Byte)
  {
    if k > 0 {
      ZeroBigEndian(k - 1);
    }
  }

  lemma AbcPadded(m: seq<Byte>)
    requires m == [0x61, 0x62, 0x63]
    ensures Pad(m) == AbcBlock()
  {
    assert ZeroBytes(3) == 52;
    BigEndian24(8 * |m|, 8);
  }

  /** The eight characters that print a word. */
  lemma {:induction false} HexAt(ws: seq<Word>, i: nat)
    requires i < |ws|
    ensures |HexAll(ws)| == 8 * |ws| && HexAll(ws)[8 * i..8 * i + 8] == HexWord(ws[i])
  {
    var front := ws[..|ws| - 1];
    if i < |front| {
      HexAt(front, i);
    } else if front != [] {
      HexAt(front, 0);
    }
  }

  lemma AbcHexWords0()
    ensures HexWord(0xba7816bf) == "ba7816bf" && HexWord(0x8f01cfea) == "8f01cfea"
  {
  }

  lemma AbcHexWords2()
    ensures HexWord(0x414140de) == "414140de" && HexWord(0x5dae2223) == "5dae2223"
  {
  }

  lemma AbcHexWords4()
    ensures HexWord(0xb00361a3) == "b00361a3" && HexWord(0x96177a9c) == "96177a9c"
  {
  }

  lemma AbcHexWords6()
    ensures HexWord(0xb410ff61) == "b410ff61" && HexWord(0xf20015ad) == "f20015ad"
  {
  }

  lemma AbcPrinted(h: Hash)
    requires h
      == Hash(0xba7816bf, 0x8f01cfea, 0x414140de, 0x5dae2223,
              0xb00361a3, 0x96177a9c, 0xb410ff61, 0xf20015ad)
    ensures
      var s := Hex(h);
      && |s| == 64
      && s[..8] == "ba7816bf" && s[8..16] == "8f01cfea" && s[16..24] == "414140de" && s[24..32] == "5dae2223"
      && s[32..40] == "b00361a3" && s[40..48] == "96177a9c" && s[48..56] == "b410ff61" && s[56..] == "f20015ad"
  {
    HexInEights(h);
    AbcHexWords0();
    AbcHexWords2();
    AbcHexWords4();
    AbcHexWords6();
  }

  lemma HexInEights(h: Hash)
    ensures
      var s := Hex(h);
      && |s| == 64
      && s[..8] == HexWord(h.a) && s[8..16] == HexWord(h.b) && s[16..24] == HexWord(h.c) && s[24..32] == HexWord(h.d)
      && s[32..40] == HexWord(h.e) && s[40..48] == HexWord(h.f) && s[48..56] == HexWord(h.g) && s[56..] == HexWord(h.h)
  {
    var ws := h.Words();
    HexAt(ws, 0);
    HexAt(ws, 1);
    HexAt(ws, 2);
    HexAt(ws, 3);
    HexAt(ws, 4);
    HexAt(ws, 5);
    HexAt(ws, 6);
    HexAt(ws, 7);
  }

  /** The digest of the standard's example, which the program's own check expects, eight
    * characters at a time. */
  lemma AbcDigest(m: seq<Byte>)
    requires m == [0x61, 0x62, 0x63]
    ensures
      var s := Hex(Digest(m));
      && |s| == 64
      && s[..8] == "ba7816bf" && s[8..16] == "8f01cfea" && s[16..24] == "414140de" && s[24..32] == "5dae2223"
      && s[32..40] == "b00361a3" && s[40..48] == "96177a9c" && s[48..56] == "b410ff61" && s[56..] == "f20015ad"
  {
    AbcPadded(m);
    DigestOfOneBlock(m, AbcBlock());
    AbcCompressed(AbcBlock());
    AbcPrinted(Digest(m));
  }
}
