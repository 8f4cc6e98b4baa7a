/** The definitions at work: the digest of "abc", the one-block example of the standard. */
module Sha256Example {
  import opened Base
  import opened ByteIO
  import opened Sha256Spec
  import opened Sha256Constants

  /** The message padded to one block. */
  ghost predicate AbcBlock(b: Bytes) {
    && |b| == 64 && b[..4] == [0x61, 0x62, 0x63, 0x80]
    && (forall i :: 4 <= i < 63 ==> b[i] == 0) && b[63] == 24
  }

  lemma AbcPadded()
    ensures AbcBlock(Padded([0x61, 0x62, 0x63]))
  {
    var m: Bytes := [0x61, 0x62, 0x63];
    PaddedShape(m);
    var b := Padded(m);
    assert b[..4] == b[..3] + [b[3]];
    forall i | 56 <= i < 63
      ensures b[i] == 0
    {
      HighBytes(63 - i);
      assert b[i] == b[|b| - 1 - (63 - i)];
    }
    assert b[63] == b[|b| - 1 - 0];
  }

  lemma HighBytes(i: nat)
    requires 1 <= i
    ensures 24 / Pow256(i) == 0
  {
    assert Pow256(i) == 256 * Pow256(i - 1);
    QuotientUnique(24, Pow256(i), 0, 24);
  }

  // ----- the schedule

  ghost predicate WordIs(b: Bytes, t: nat, w: Word) {
    |b| == 64 && t < 64 && Schedule(b, t) == w
  }

  lemma FirstWords(b: Bytes)
    requires AbcBlock(b)
    ensures WordIs(b, 0, 0x61626380) && WordIs(b, 15, 24)
    ensures forall t :: 1 <= t < 15 ==> WordIs(b, t, 0)
  {
    hide BytesToWord, ScheduleWord;
    WordBytes();
    assert b[0] == b[..4][0] && b[1] == b[..4][1] && b[2] == b[..4][2] && b[3] == b[..4][3];
    ZeroWords();
  }

  lemma ZeroWords()
    ensures BytesToWord(0, 0, 0, 0) == 0 && BytesToWord(0, 0, 0, 24) == 24
  {
  }

  lemma NextWord(b: Bytes, t: nat, w2: Word, w7: Word, w15: Word, w16: Word)
    requires 16 <= t < 64
    requires WordIs(b, t - 2, w2) && WordIs(b, t - 7, w7) && WordIs(b, t - 15, w15) && WordIs(b, t - 16, w16)
    ensures WordIs(b, t, ScheduleWord(w2, w7, w15, w16))
  {
    hide ScheduleWord;
  }

  lemma Words16(b: Bytes)
    requires AbcBlock(b)
    ensures WordIs(b, 16, 0x61626380) && WordIs(b, 17, 0x000f0000)
    ensures WordIs(b, 18, 0x7da86405) && WordIs(b, 19, 0x600003c6)
    ensures WordIs(b, 20, 0x3e9d7b78) && WordIs(b, 21, 0x0183fc00)
    ensures WordIs(b, 22, 0x12dcbfdb) && WordIs(b, 23, 0xe2e2c38e)
  {
    hide WordIs, AbcBlock;
    FirstWords(b);
    NextWord(b, 16, 0x00000000, 0x00000000, 0x00000000, 0x61626380);
    NextWord(b, 17, 0x00000018, 0x00000000, 0x00000000, 0x00000000);
    NextWord(b, 18, 0x61626380, 0x00000000, 0x00000000, 0x00000000);
    NextWord(b, 19, 0x000f0000, 0x00000000, 0x00000000, 0x00000000);
    NextWord(b, 20, 0x7da86405, 0x00000000, 0x00000000, 0x00000000);
    NextWord(b, 21, 0x600003c6, 0x00000000, 0x00000000, 0x00000000);
    NextWord(b, 22, 0x3e9d7b78, 0x00000018, 0x00000000, 0x00000000);
    NextWord(b, 23, 0x0183fc00, 0x61626380, 0x00000000, 0x00000000);
  }

  lemma Words24(b: Bytes)
    requires AbcBlock(b)
    ensures WordIs(b, 24, 0xc8215c1a) && WordIs(b, 25, 0xb73679a2)
    ensures WordIs(b, 26, 0xe5bc3909) && WordIs(b, 27, 0x32663c5b)
    ensures WordIs(b, 28, 0x9d209d67) && WordIs(b, 29, 0xec8726cb)
    ensures WordIs(b, 30, 0x702138a4) && WordIs(b, 31, 0xd3b7973b)
  {
    hide WordIs, AbcBlock;
    FirstWords(b);
    Words16(b);
    NextWord(b, 24, 0x12dcbfdb, 0x000f0000, 0x00000000, 0x00000000);
    NextWord(b, 25, 0xe2e2c38e, 0x7da86405, 0x00000000, 0x00000000);
    NextWord(b, 26, 0xc8215c1a, 0x600003c6, 0x00000000, 0x00000000);
    NextWord(b, 27, 0xb73679a2, 0x3e9d7b78, 0x00000000, 0x00000000);
    NextWord(b, 28, 0xe5bc3909, 0x0183fc00, 0x00000000, 0x00000000);
    NextWord(b, 29, 0x32663c5b, 0x12dcbfdb, 0x00000000, 0x00000000);
    NextWord(b, 30, 0x9d209d67, 0xe2e2c38e, 0x00000018, 0x00000000);
    NextWord(b, 31, 0xec8726cb, 0xc8215c1a, 0x61626380, 0x00000018);
  }

  lemma Words32(b: Bytes)
    requires AbcBlock(b)
    ensures WordIs(b, 32, 0x93f5997f) && WordIs(b, 33, 0x3b68ba73)
    ensures WordIs(b, 34, 0xaff4ffc1) && WordIs(b, 35, 0xf10a5c62)
    ensures WordIs(b, 36, 0x0a8b3996) && WordIs(b, 37, 0x72af830a)
    ensures WordIs(b, 38, 0x9409e33e) && WordIs(b, 39, 0x24641522)
  {
    hide WordIs, AbcBlock;
    Words16(b);
    Words24(b);
    NextWord(b, 32, 0x702138a4, 0xb73679a2, 0x000f0000, 0x61626380);
    NextWord(b, 33, 0xd3b7973b, 0xe5bc3909, 0x7da86405, 0x000f0000);
    NextWord(b, 34, 0x93f5997f, 0x32663c5b, 0x600003c6, 0x7da86405);
    NextWord(b, 35, 0x3b68ba73, 0x9d209d67, 0x3e9d7b78, 0x600003c6);
    NextWord(b, 36, 0xaff4ffc1, 0xec8726cb, 0x0183fc00, 0x3e9d7b78);
    NextWord(b, 37, 0xf10a5c62, 0x702138a4, 0x12dcbfdb, 0x0183fc00);
    NextWord(b, 38, 0x0a8b3996, 0xd3b7973b, 0xe2e2c38e, 0x12dcbfdb);
    NextWord(b, 39, 0x72af830a, 0x93f5997f, 0xc8215c1a, 0xe2e2c38e);
  }

  lemma Words40(b: Bytes)
    requires AbcBlock(b)
    ensures WordIs(b, 40, 0x9f47bf94) && WordIs(b, 41, 0xf0a64f5a)
    ensures WordIs(b, 42, 0x3e246a79) && WordIs(b, 43, 0x27333ba3)
    ensures WordIs(b, 44, 0x0c4763f2) && WordIs(b, 45, 0x840abf27)
    ensures WordIs(b, 46, 0x7a290d5d) && WordIs(b, 47, 0x065c43da)
  {
    hide WordIs, AbcBlock;
    Words24(b);
    Words32(b);
    NextWord(b, 40, 0x9409e33e, 0x3b68ba73, 0xb73679a2, 0xc8215c1a);
    NextWord(b, 41, 0x24641522, 0xaff4ffc1, 0xe5bc3909, 0xb73679a2);
    NextWord(b, 42, 0x9f47bf94, 0xf10a5c62, 0x32663c5b, 0xe5bc3909);
    NextWord(b, 43, 0xf0a64f5a, 0x0a8b3996, 0x9d209d67, 0x32663c5b);
    NextWord(b, 44, 0x3e246a79, 0x72af830a, 0xec8726cb, 0x9d209d67);
    NextWord(b, 45, 0x27333ba3, 0x9409e33e, 0x702138a4, 0xec8726cb);
    NextWord(b, 46, 0x0c4763f2, 0x24641522, 0xd3b7973b, 0x702138a4);
    NextWord(b, 47, 0x840abf27, 0x9f47bf94, 0x93f5997f, 0xd3b7973b);
  }

  lemma Words48(b: Bytes)
    requires AbcBlock(b)
    ensures WordIs(b, 48, 0xfb3e89cb) && WordIs(b, 49, 0xcc7617db)
    ensures WordIs(b, 50, 0xb9e66c34) && WordIs(b, 51, 0xa9993667)
    ensures WordIs(b, 52, 0x84badedd) && WordIs(b, 53, 0xc21462bc)
    ensures WordIs(b, 54, 0x1487472c) && WordIs(b, 55, 0xb20f7a99)
  {
    hide WordIs, AbcBlock;
    Words32(b);
    Words40(b);
    NextWord(b, 48, 0x7a290d5d, 0xf0a64f5a, 0x3b68ba73, 0x93f5997f);
    NextWord(b, 49, 0x065c43da, 0x3e246a79, 0xaff4ffc1, 0x3b68ba73);
    NextWord(b, 50, 0xfb3e89cb, 0x27333ba3, 0xf10a5c62, 0xaff4ffc1);
    NextWord(b, 51, 0xcc7617db, 0x0c4763f2, 0x0a8b3996, 0xf10a5c62);
    NextWord(b, 52, 0xb9e66c34, 0x840abf27, 0x72af830a, 0x0a8b3996);
    NextWord(b, 53, 0xa9993667, 0x7a290d5d, 0x9409e33e, 0x72af830a);
    NextWord(b, 54, 0x84badedd, 0x065c43da, 0x24641522, 0x9409e33e);
    NextWord(b, 55, 0xc21462bc, 0xfb3e89cb, 0x9f47bf94, 0x24641522);
  }

  lemma Words56(b: Bytes)
    requires AbcBlock(b)
    ensures WordIs(b, 56, 0xef57b9cd) && WordIs(b, 57, 0xebe6b238)
    ensures WordIs(b, 58, 0x9fe3095e) && WordIs(b, 59, 0x78bc8d4b)
    ensures WordIs(b, 60, 0xa43fcf15) && WordIs(b, 61, 0x668b2ff8)
    ensures WordIs(b, 62, 0xeeaba2cc) && WordIs(b, 63, 0x12b1edeb)
  {
    hide WordIs, AbcBlock;
    Words40(b);
    Words48(b);
    NextWord(b, 56, 0x1487472c, 0xcc7617db, 0xf0a64f5a, 0x9f47bf94);
    NextWord(b, 57, 0xb20f7a99, 0xb9e66c34, 0x3e246a79, 0xf0a64f5a);
    NextWord(b, 58, 0xef57b9cd, 0xa9993667, 0x27333ba3, 0x3e246a79);
    NextWord(b, 59, 0xebe6b238, 0x84badedd, 0x0c4763f2, 0x27333ba3);
    NextWord(b, 60, 0x9fe3095e, 0xc21462bc, 0x840abf27, 0x0c4763f2);
    NextWord(b, 61, 0x78bc8d4b, 0x1487472c, 0x7a290d5d, 0x840abf27);
    NextWord(b, 62, 0xa43fcf15, 0xb20f7a99, 0x065c43da, 0x7a290d5d);
    NextWord(b, 63, 0x668b2ff8, 0xef57b9cd, 0xfb3e89cb, 0x065c43da);
  }

  lemma BlockLength(b: Bytes)
    requires AbcBlock(b)
    ensures |b| == 64
  {
  }

  // ----- the rounds

  lemma NoRound(b: Bytes)
    requires |b| == 64
    ensures Rounds(INITIAL, b, 0) ==
            Words(0x6a09e667, 0xbb67ae85, 0x3c6ef372, 0xa54ff53a, 0x510e527f, 0x9b05688c, 0x1f83d9ab, 0x5be0cd19)
  {
  }

  lemma OneRound(b: Bytes, t: nat, w: Word)
    requires |b| == 64 && t < 64 && WordIs(b, t, w)
    ensures Rounds(INITIAL, b, t + 1) == Round(Rounds(INITIAL, b, t), K[t], w)
  {
    hide Schedule, Round;
  }

  lemma Rounds1(b: Bytes)
    requires AbcBlock(b)
    ensures |b| == 64
    ensures Rounds(INITIAL, b, 1) ==
            Words(0x5d6aebcd, 0x6a09e667, 0xbb67ae85, 0x3c6ef372, 0xfa2a4622, 0x510e527f, 0x9b05688c, 0x1f83d9ab)
  {
    hide WordIs, Rounds, AbcBlock, CubeRootBits;
    BlockLength(b);
    NoRound(b);
    RoundConstants0();
    FirstWords(b);
    OneRound(b, 0, 0x61626380);
  }

  lemma Rounds8(b: Bytes)
    requires AbcBlock(b)
    ensures |b| == 64
    ensures Rounds(INITIAL, b, 8) ==
            Words(0x85a07b5f, 0xe5030380, 0x2b4209f5, 0x04409a6a, 0x0c657a79, 0x9b27a401, 0x714260ad, 0x43ada245)
  {
    hide WordIs, Rounds, AbcBlock, CubeRootBits;
    BlockLength(b);
    Rounds1(b);
    RoundConstants0();
    FirstWords(b);
    OneRound(b, 1, 0x00000000);
    OneRound(b, 2, 0x00000000);
    OneRound(b, 3, 0x00000000);
    OneRound(b, 4, 0x00000000);
    OneRound(b, 5, 0x00000000);
    OneRound(b, 6, 0x00000000);
    OneRound(b, 7, 0x00000000);
  }

  lemma Rounds16(b: Bytes)
    requires AbcBlock(b)
    ensures |b| == 64
    ensures Rounds(INITIAL, b, 16) ==
            Words(0xb0fa238e, 0xc0645fde, 0xd932eb16, 0x87912990, 0x07590dcd, 0x0b92f20c, 0x745a48de, 0x1e578218)
  {
    hide WordIs, Rounds, AbcBlock, CubeRootBits;
    BlockLength(b);
    Rounds8(b);
    RoundConstants8();
    FirstWords(b);
    OneRound(b, 8, 0x00000000);
    OneRound(b, 9, 0x00000000);
    OneRound(b, 10, 0x00000000);
    OneRound(b, 11, 0x00000000);
    OneRound(b, 12, 0x00000000);
    OneRound(b, 13, 0x00000000);
    OneRound(b, 14, 0x00000000);
    OneRound(b, 15, 0x00000018);
  }

  lemma Rounds24(b: Bytes)
    requires AbcBlock(b)
    ensures |b| == 64
    ensures Rounds(INITIAL, b, 24) ==
            Words(0xc5d53d8d, 0xa7a3623f, 0xc2606d6d, 0x9dc68b63, 0xaa47c347, 0x49f5114a, 0xe1257970, 0x8ada8930)
  {
    hide WordIs, Rounds, AbcBlock, CubeRootBits;
    BlockLength(b);
    Rounds16(b);
    RoundConstants16();
    Words16(b);
    OneRound(b, 16, 0x61626380);
    OneRound(b, 17, 0x000f0000);
    OneRound(b, 18, 0x7da86405);
    OneRound(b, 19, 0x600003c6);
    OneRound(b, 20, 0x3e9d7b78);
    OneRound(b, 21, 0x0183fc00);
    OneRound(b, 22, 0x12dcbfdb);
    OneRound(b, 23, 0xe2e2c38e);
  }

  lemma Rounds32(b: Bytes)
    requires AbcBlock(b)
    ensures |b| == 64
    ensures Rounds(INITIAL, b, 32) ==
            Words(0x73b33bf5, 0xea992a22, 0xa0060b30, 0x363482c9, 0xba591112, 0x0109ab3a, 0xade79437, 0x6112a3b7)
  {
    hide WordIs, Rounds, AbcBlock, CubeRootBits;
    BlockLength(b);
    Rounds24(b);
    RoundConstants24();
    Words24(b);
    OneRound(b, 24, 0xc8215c1a);
    OneRound(b, 25, 0xb73679a2);
    OneRound(b, 26, 0xe5bc3909);
    OneRound(b, 27, 0x32663c5b);
    OneRound(b, 28, 0x9d209d67);
    OneRound(b, 29, 0xec8726cb);
    OneRound(b, 30, 0x702138a4);
    OneRound(b, 31, 0xd3b7973b);
  }

  lemma Rounds40(b: Bytes)
    requires AbcBlock(b)
    ensures |b| == 64
    ensures Rounds(INITIAL, b, 40) ==
            Words(0x79ea687a, 0x6dc57a8a, 0x34df1604, 0x41a65cb1, 0x1efbc0a0, 0xf0781bc8, 0xa507a53d, 0x0772a26b)
  {
    hide WordIs, Rounds, AbcBlock, CubeRootBits;
    BlockLength(b);
    Rounds32(b);
    RoundConstants32();
    Words32(b);
    OneRound(b, 32, 0x93f5997f);
    OneRound(b, 33, 0x3b68ba73);
    OneRound(b, 34, 0xaff4ffc1);
    OneRound(b, 35, 0xf10a5c62);
    OneRound(b, 36, 0x0a8b3996);
    OneRound(b, 37, 0x72af830a);
    OneRound(b, 38, 0x9409e33e);
    OneRound(b, 39, 0x24641522);
  }

  lemma Rounds48(b: Bytes)
    requires AbcBlock(b)
    ensures |b| == 64
    ensures Rounds(INITIAL, b, 48) ==
            Words(0x4172328d, 0xa14c14b0, 0x72ab4b91, 0x26628815, 0xfecf0bc6, 0xd57b94a9, 0xb7755da1, 0xa80f11f0)
  {
    hide WordIs, Rounds, AbcBlock, CubeRootBits;
    BlockLength(b);
    Rounds40(b);
    RoundConstants40();
    Words40(b);
    OneRound(b, 40, 0x9f47bf94);
    OneRound(b, 41, 0xf0a64f5a);
    OneRound(b, 42, 0x3e246a79);
    OneRound(b, 43, 0x27333ba3);
    OneRound(b, 44, 0x0c4763f2);
    OneRound(b, 45, 0x840abf27);
    OneRound(b, 46, 0x7a290d5d);
    OneRound(b, 47, 0x065c43da);
  }

  lemma Rounds56(b: Bytes)
    requires AbcBlock(b)
    ensures |b| == 64
    ensures Rounds(INITIAL, b, 56) ==
            Words(0x38cc9913, 0x3ec45cdb, 0xf5702fdb, 0x101fd28f, 0x54cb266b, 0xe50e1b4f, 0x9f4787c3, 0x529e7d00)
  {
    hide WordIs, Rounds, AbcBlock, CubeRootBits;
    BlockLength(b);
    Rounds48(b);
    RoundConstants48();
    Words48(b);
    OneRound(b, 48, 0xfb3e89cb);
    OneRound(b, 49, 0xcc7617db);
    OneRound(b, 50, 0xb9e66c34);
    OneRound(b, 51, 0xa9993667);
    OneRound(b, 52, 0x84badedd);
    OneRound(b, 53, 0xc21462bc);
    OneRound(b, 54, 0x1487472c);
    OneRound(b, 55, 0xb20f7a99);
  }

  lemma Rounds64(b: Bytes)
    requires AbcBlock(b)
    ensures |b| == 64
    ensures Rounds(INITIAL, b, 64) ==
            Words(0x506e3058, 0xd39a2165, 0x04d24d6c, 0xb85e2ce9, 0x5ef50f24, 0xfb121210, 0x948d25b6, 0x961f4894)
  {
    hide WordIs, Rounds, AbcBlock, CubeRootBits;
    BlockLength(b);
    Rounds56(b);
    RoundConstants56();
    Words56(b);
    OneRound(b, 56, 0xef57b9cd);
    OneRound(b, 57, 0xebe6b238);
    OneRound(b, 58, 0x9fe3095e);
    OneRound(b, 59, 0x78bc8d4b);
    OneRound(b, 60, 0xa43fcf15);
    OneRound(b, 61, 0x668b2ff8);
    OneRound(b, 62, 0xeeaba2cc);
    OneRound(b, 63, 0x12b1edeb);
  }

  // ----- the digest

  /** The digest of "abc". */
  lemma AbcDigest()
    ensures HashOf([0x61, 0x62, 0x63]) ==
            [0xba, 0x78, 0x16, 0xbf, 0x8f, 0x01, 0xcf, 0xea, 0x41, 0x41, 0x40, 0xde, 0x5d, 0xae, 0x22, 0x23,
             0xb0, 0x03, 0x61, 0xa3, 0x96, 0x17, 0x7a, 0x9c, 0xb4, 0x10, 0xff, 0x61, 0xf2, 0x00, 0x15, 0xad]
  {
    hide Padded, Rounds, AbcBlock;
    AbcPadded();
    var b := Padded([0x61, 0x62, 0x63]);
    Rounds64(b);
    OneBlock(b);
    DigestBytes();
  }

  lemma OneBlock(b: Bytes)
    requires |b| == 64
    ensures Fold(b) == AddWords(INITIAL, Rounds(INITIAL, b, 64))
  {
    hide Rounds, AddWords;
    assert b[..0] == [] && b[0..] == b;
  }

  lemma DigestBytes()
    ensures AddWords(
              INITIAL,
              Words(0x506e3058, 0xd39a2165, 0x04d24d6c, 0xb85e2ce9, 0x5ef50f24, 0xfb121210, 0x948d25b6, 0x961f4894)) ==
            Words(0xba7816bf, 0x8f01cfea, 0x414140de, 0x5dae2223, 0xb00361a3, 0x96177a9c, 0xb410ff61, 0xf20015ad)
    ensures Digest(
              Words(0xba7816bf, 0x8f01cfea, 0x414140de, 0x5dae2223, 0xb00361a3, 0x96177a9c, 0xb410ff61, 0xf20015ad)) ==
            [0xba, 0x78, 0x16, 0xbf, 0x8f, 0x01, 0xcf, 0xea, 0x41, 0x41, 0x40, 0xde, 0x5d, 0xae, 0x22, 0x23,
             0xb0, 0x03, 0x61, 0xa3, 0x96, 0x17, 0x7a, 0x9c, 0xb4, 0x10, 0xff, 0x61, 0xf2, 0x00, 0x15, 0xad]
  {
  }
}
