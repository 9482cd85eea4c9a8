/** The one-block example of SHA-256 that NIST publishes with FIPS 180-4: the digest of "abc", step by step. */
module HashExample {
  import opened MessageBlocks
  import opened HashWords
  import opened SecureHash

  // ---------------------------------------------------------------- eight steps at a time

  datatype Eight = Eight(w0: Word, w1: Word, w2: Word, w3: Word, w4: Word, w5: Word, w6: Word, w7: Word)

  /** Words 8r to 8r + 7 of the message schedule. */
  ghost predicate ScheduleRow(f: WordFunctions, block: Block, r: nat, w: Eight)
    requires r < 8
  {
    && W(f, block, 8 * r) == w.w0 && W(f, block, 8 * r + 1) == w.w1
    && W(f, block, 8 * r + 2) == w.w2 && W(f, block, 8 * r + 3) == w.w3
    && W(f, block, 8 * r + 4) == w.w4 && W(f, block, 8 * r + 5) == w.w5
    && W(f, block, 8 * r + 6) == w.w6 && W(f, block, 8 * r + 7) == w.w7
  }

  function NextWord(f: WordFunctions, p: Word, q: Word, r: Word, s: Word): Word {
    f.plus(f.plus(f.plus(f.smallSigma1(p), q), f.smallSigma0(r)), s)
  }

  /** Eight words that follow from the sixteen before them. */
  ghost predicate RowRecurs(f: WordFunctions, a: Eight, b: Eight, c: Eight) {
    && c.w0 == NextWord(f, b.w6, b.w1, a.w1, a.w0) && c.w1 == NextWord(f, b.w7, b.w2, a.w2, a.w1)
    && c.w2 == NextWord(f, c.w0, b.w3, a.w3, a.w2) && c.w3 == NextWord(f, c.w1, b.w4, a.w4, a.w3)
    && c.w4 == NextWord(f, c.w2, b.w5, a.w5, a.w4) && c.w5 == NextWord(f, c.w3, b.w6, a.w6, a.w5)
    && c.w6 == NextWord(f, c.w4, b.w7, a.w7, a.w6) && c.w7 == NextWord(f, c.w5, c.w0, b.w0, a.w7)
  }

  lemma WordRecurs(f: WordFunctions, block: Block, t: nat)
    requires 16 <= t < 64
    ensures W(f, block, t)
         == NextWord(f, W(f, block, t - 2), W(f, block, t - 7), W(f, block, t - 15), W(f, block, t - 16))
  {
  }

  lemma ScheduleNext(f: WordFunctions, block: Block, r: nat, a: Eight, b: Eight, c: Eight)
    requires r < 6 && ScheduleRow(f, block, r, a) && ScheduleRow(f, block, r + 1, b) && RowRecurs(f, a, b, c)
    ensures ScheduleRow(f, block, r + 2, c)
  {
    var t := 8 * r + 16;
    WordRecurs(f, block, t);
    WordRecurs(f, block, t + 1);
    WordRecurs(f, block, t + 2);
    WordRecurs(f, block, t + 3);
    WordRecurs(f, block, t + 4);
    WordRecurs(f, block, t + 5);
    WordRecurs(f, block, t + 6);
    WordRecurs(f, block, t + 7);
  }

  /** Eight rounds with these constants and words. */
  function RoundRow(f: WordFunctions, v: Vars, k: Eight, w: Eight): Vars {
    var v1 := Round(f, v, k.w0, w.w0);
    var v2 := Round(f, v1, k.w1, w.w1);
    var v3 := Round(f, v2, k.w2, w.w2);
    var v4 := Round(f, v3, k.w3, w.w3);
    var v5 := Round(f, v4, k.w4, w.w4);
    var v6 := Round(f, v5, k.w5, w.w5);
    var v7 := Round(f, v6, k.w6, w.w6);
    Round(f, v7, k.w7, w.w7)
  }

  ghost predicate ConstantRow(r: nat, k: Eight)
    requires r < 8
  {
    && K[8 * r] == k.w0 && K[8 * r + 1] == k.w1 && K[8 * r + 2] == k.w2 && K[8 * r + 3] == k.w3
    && K[8 * r + 4] == k.w4 && K[8 * r + 5] == k.w5 && K[8 * r + 6] == k.w6 && K[8 * r + 7] == k.w7
  }

  lemma RoundsNext(f: WordFunctions, v: Vars, block: Block, t: nat)
    requires t < 64
    ensures Rounds(f, v, block, t + 1) == Round(f, Rounds(f, v, block, t), K[t], W(f, block, t))
  {
  }

  lemma RoundRows(f: WordFunctions, v: Vars, block: Block, r: nat, k: Eight, w: Eight)
    requires r < 8 && ConstantRow(r, k) && ScheduleRow(f, block, r, w)
    ensures Rounds(f, v, block, 8 * r + 8) == RoundRow(f, Rounds(f, v, block, 8 * r), k, w)
  {
    var t := 8 * r;
    RoundsNext(f, v, block, t);
    RoundsNext(f, v, block, t + 1);
    RoundsNext(f, v, block, t + 2);
    RoundsNext(f, v, block, t + 3);
    RoundsNext(f, v, block, t + 4);
    RoundsNext(f, v, block, t + 5);
    RoundsNext(f, v, block, t + 6);
    RoundsNext(f, v, block, t + 7);
  }

  // ---------------------------------------------------------------- the example

  const W_0 := Eight(0x61626380, 0x00000000, 0x00000000, 0x00000000,
                     0x00000000, 0x00000000, 0x00000000, 0x00000000)

  const W_1 := Eight(0x00000000, 0x00000000, 0x00000000, 0x00000000,
                     0x00000000, 0x00000000, 0x00000000, 0x00000018)

  const W_2 := Eight(0x61626380, 0x000f0000, 0x7da86405, 0x600003c6,
                     0x3e9d7b78, 0x0183fc00, 0x12dcbfdb, 0xe2e2c38e)

  const W_3 := Eight(0xc8215c1a, 0xb73679a2, 0xe5bc3909, 0x32663c5b,
                     0x9d209d67, 0xec8726cb, 0x702138a4, 0xd3b7973b)

  const W_4 := Eight(0x93f5997f, 0x3b68ba73, 0xaff4ffc1, 0xf10a5c62,
                     0x0a8b3996, 0x72af830a, 0x9409e33e, 0x24641522)

  const W_5 := Eight(0x9f47bf94, 0xf0a64f5a, 0x3e246a79, 0x27333ba3,
                     0x0c4763f2, 0x840abf27, 0x7a290d5d, 0x065c43da)

  const W_6 := Eight(0xfb3e89cb, 0xcc7617db, 0xb9e66c34, 0xa9993667,
                     0x84badedd, 0xc21462bc, 0x1487472c, 0xb20f7a99)

  const W_7 := Eight(0xef57b9cd, 0xebe6b238, 0x9fe3095e, 0x78bc8d4b,
                     0xa43fcf15, 0x668b2ff8, 0xeeaba2cc, 0x12b1edeb)

  const K_0 := Eight(0x428a2f98, 0x71374491, 0xb5c0fbcf, 0xe9b5dba5,
                     0x3956c25b, 0x59f111f1, 0x923f82a4, 0xab1c5ed5)

  const K_1 := Eight(0xd807aa98, 0x12835b01, 0x243185be, 0x550c7dc3,
                     0x72be5d74, 0x80deb1fe, 0x9bdc06a7, 0xc19bf174)

  const K_2 := Eight(0xe49b69c1, 0xefbe4786, 0x0fc19dc6, 0x240ca1cc,
                     0x2de92c6f, 0x4a7484aa, 0x5cb0a9dc, 0x76f988da)

  const K_3 := Eight(0x983e5152, 0xa831c66d, 0xb00327c8, 0xbf597fc7,
                     0xc6e00bf3, 0xd5a79147, 0x06ca6351, 0x14292967)

  const K_4 := Eight(0x27b70a85, 0x2e1b2138, 0x4d2c6dfc, 0x53380d13,
                     0x650a7354, 0x766a0abb, 0x81c2c92e, 0x92722c85)

  const K_5 := Eight(0xa2bfe8a1, 0xa81a664b, 0xc24b8b70, 0xc76c51a3,
                     0xd192e819, 0xd6990624, 0xf40e3585, 0x106aa070)

  const K_6 := Eight(0x19a4c116, 0x1e376c08, 0x2748774c, 0x34b0bcb5,
                     0x391c0cb3, 0x4ed8aa4a, 0x5b9cca4f, 0x682e6ff3)

  const K_7 := Eight(0x748f82ee, 0x78a5636f, 0x84c87814, 0x8cc70208,
                     0x90befffa, 0xa4506ceb, 0xbef9a3f7, 0xc67178f2)

  const V_0 := Vars(0x6a09e667, 0xbb67ae85, 0x3c6ef372, 0xa54ff53a,
                    0x510e527f, 0x9b05688c, 0x1f83d9ab, 0x5be0cd19)

  const V_1 := Vars(0x85a07b5f, 0xe5030380, 0x2b4209f5, 0x04409a6a,
                    0x0c657a79, 0x9b27a401, 0x714260ad, 0x43ada245)

  const V_2 := Vars(0xb0fa238e, 0xc0645fde, 0xd932eb16, 0x87912990,
                    0x07590dcd, 0x0b92f20c, 0x745a48de, 0x1e578218)

  const V_3 := Vars(0xc5d53d8d, 0xa7a3623f, 0xc2606d6d, 0x9dc68b63,
                    0xaa47c347, 0x49f5114a, 0xe1257970, 0x8ada8930)

  const V_4 := Vars(0x73b33bf5, 0xea992a22, 0xa0060b30, 0x363482c9,
                    0xba591112, 0x0109ab3a, 0xade79437, 0x6112a3b7)

  const V_5 := Vars(0x79ea687a, 0x6dc57a8a, 0x34df1604, 0x41a65cb1,
                    0x1efbc0a0, 0xf0781bc8, 0xa507a53d, 0x0772a26b)

  const V_6 := Vars(0x4172328d, 0xa14c14b0, 0x72ab4b91, 0x26628815,
                    0xfecf0bc6, 0xd57b94a9, 0xb7755da1, 0xa80f11f0)

  const V_7 := Vars(0x38cc9913, 0x3ec45cdb, 0xf5702fdb, 0x101fd28f,
                    0x54cb266b, 0xe50e1b4f, 0x9f4787c3, 0x529e7d00)

  const V_8 := Vars(0x506e3058, 0xd39a2165, 0x04d24d6c, 0xb85e2ce9,
                    0x5ef50f24, 0xfb121210, 0x948d25b6, 0x961f4894)

  lemma Row2()
    ensures RowRecurs(STANDARD, W_0, W_1, W_2)
  {
  }

  lemma Row3()
    ensures RowRecurs(STANDARD, W_1, W_2, W_3)
  {
  }

  lemma Row4()
    ensures RowRecurs(STANDARD, W_2, W_3, W_4)
  {
  }

  lemma Row5()
    ensures RowRecurs(STANDARD, W_3, W_4, W_5)
  {
  }

  lemma Row6()
    ensures RowRecurs(STANDARD, W_4, W_5, W_6)
  {
  }

  lemma Row7()
    ensures RowRecurs(STANDARD, W_5, W_6, W_7)
  {
  }

  lemma Turn0()
    ensures RoundRow(STANDARD, V_0, K_0, W_0) == V_1
  {
  }

  lemma Turn1()
    ensures RoundRow(STANDARD, V_1, K_1, W_1) == V_2
  {
  }

  lemma Turn2()
    ensures RoundRow(STANDARD, V_2, K_2, W_2) == V_3
  {
  }

  lemma Turn3()
    ensures RoundRow(STANDARD, V_3, K_3, W_3) == V_4
  {
  }

  lemma Turn4()
    ensures RoundRow(STANDARD, V_4, K_4, W_4) == V_5
  {
  }

  lemma Turn5()
    ensures RoundRow(STANDARD, V_5, K_5, W_5) == V_6
  {
  }

  lemma Turn6()
    ensures RoundRow(STANDARD, V_6, K_6, W_6) == V_7
  {
  }

  lemma Turn7()
    ensures RoundRow(STANDARD, V_7, K_7, W_7) == V_8
  {
  }

  lemma Constants0()
    ensures ConstantRow(0, K_0)
  {
  }

  lemma Constants1()
    ensures ConstantRow(1, K_1)
  {
  }

  lemma Constants2()
    ensures ConstantRow(2, K_2)
  {
  }

  lemma Constants3()
    ensures ConstantRow(3, K_3)
  {
  }

  lemma Constants4()
    ensures ConstantRow(4, K_4)
  {
  }

  lemma Constants5()
    ensures ConstantRow(5, K_5)
  {
  }

  lemma Constants6()
    ensures ConstantRow(6, K_6)
  {
  }

  lemma Constants7()
    ensures ConstantRow(7, K_7)
  {
  }

  const ABC: seq<Byte> := [0x61, 0x62, 0x63]

  lemma Padded(block: seq<Byte>)
    requires block == Pad(ABC)
    ensures |block| == 64 && block[0] == 0x61 && block[1] == 0x62 && block[2] == 0x63 && block[3] == 0x80
    ensures (forall i | 4 <= i < 63 :: block[i] == 0) && block[63] == 24
  {
    var n := BigEndian(24, 8);
    LengthField(n);
    assert PadZeros(3) == 52;
    assert block == ABC + [0x80] + Zeros(52) + n;
  }

  lemma LengthField(n: seq<Byte>)
    requires n == BigEndian(24, 8)
    ensures (forall i | 0 <= i < 7 :: n[i] == 0) && n[7] == 24
  {
    ZeroField(7);
    assert ByteOf(24) == 24;
  }

  lemma {:induction false} ZeroField(n: nat)
    ensures forall i | 0 <= i < n :: BigEndian(0, n)[i] == 0
  {
    if n > 0 { ZeroField(n - 1); }
  }

  lemma FirstWords(block: Block)
    requires block[0] == 0x61 && block[1] == 0x62 && block[2] == 0x63 && block[3] == 0x80
    requires (forall i | 4 <= i < 63 :: block[i] == 0) && block[63] == 24
    ensures ScheduleRow(STANDARD, block, 0, W_0) && ScheduleRow(STANDARD, block, 1, W_1)
  {
    PackedWords();
  }

  lemma PackedWords()
    ensures Pack(0x61, 0x62, 0x63, 0x80) == 0x61626380 && Pack(0, 0, 0, 0) == 0 && Pack(0, 0, 0, 24) == 24
  {
  }

  /** The recurrence and the rounds hold for the numbers of the example. */
  ghost predicate Checks(f: WordFunctions) {
    && RowRecurs(f, W_0, W_1, W_2) && RowRecurs(f, W_1, W_2, W_3) && RowRecurs(f, W_2, W_3, W_4)
    && RowRecurs(f, W_3, W_4, W_5) && RowRecurs(f, W_4, W_5, W_6) && RowRecurs(f, W_5, W_6, W_7)
  }

  ghost predicate Turns(f: WordFunctions) {
    && RoundRow(f, V_0, K_0, W_0) == V_1 && RoundRow(f, V_1, K_1, W_1) == V_2
    && RoundRow(f, V_2, K_2, W_2) == V_3 && RoundRow(f, V_3, K_3, W_3) == V_4
    && RoundRow(f, V_4, K_4, W_4) == V_5 && RoundRow(f, V_5, K_5, W_5) == V_6
    && RoundRow(f, V_6, K_6, W_6) == V_7 && RoundRow(f, V_7, K_7, W_7) == V_8
  }

  lemma StandardChecks()
    ensures Checks(STANDARD)
  {
    Row2();
    Row3();
    Row4();
    Row5();
    Row6();
    Row7();
  }

  lemma StandardTurns()
    ensures Turns(STANDARD)
  {
    Turn0();
    Turn1();
    Turn2();
    Turn3();
    Turn4();
    Turn5();
    Turn6();
    Turn7();
  }

  ghost predicate Scheduled(f: WordFunctions, block: Block) {
    && ScheduleRow(f, block, 0, W_0) && ScheduleRow(f, block, 1, W_1) && ScheduleRow(f, block, 2, W_2)
    && ScheduleRow(f, block, 3, W_3) && ScheduleRow(f, block, 4, W_4) && ScheduleRow(f, block, 5, W_5)
    && ScheduleRow(f, block, 6, W_6) && ScheduleRow(f, block, 7, W_7)
  }

  lemma ScheduleOf(f: WordFunctions, block: Block)
    requires Checks(f) && ScheduleRow(f, block, 0, W_0) && ScheduleRow(f, block, 1, W_1)
    ensures Scheduled(f, block)
  {
    ScheduleNext(f, block, 0, W_0, W_1, W_2);
    ScheduleNext(f, block, 1, W_1, W_2, W_3);
    ScheduleNext(f, block, 2, W_2, W_3, W_4);
    ScheduleNext(f, block, 3, W_3, W_4, W_5);
    ScheduleNext(f, block, 4, W_4, W_5, W_6);
    ScheduleNext(f, block, 5, W_5, W_6, W_7);
  }

  lemma RoundsTo8(f: WordFunctions, block: Block, r: nat)
    requires r == 0 && RoundRow(f, V_0, K_0, W_0) == V_1 && ScheduleRow(f, block, r, W_0)
    ensures Rounds(f, V_0, block, 8 * r + 8) == V_1
  {
    Constants0();
    RoundRows(f, V_0, block, r, K_0, W_0);
  }

  lemma RoundsTo16(f: WordFunctions, block: Block)
    requires RoundRow(f, V_1, K_1, W_1) == V_2 && ScheduleRow(f, block, 1, W_1)
    requires Rounds(f, V_0, block, 8) == V_1
    ensures Rounds(f, V_0, block, 16) == V_2
  {
    Constants1();
    RoundRows(f, V_0, block, 1, K_1, W_1);
  }

  lemma RoundsTo24(f: WordFunctions, block: Block)
    requires RoundRow(f, V_2, K_2, W_2) == V_3 && ScheduleRow(f, block, 2, W_2)
    requires Rounds(f, V_0, block, 16) == V_2
    ensures Rounds(f, V_0, block, 24) == V_3
  {
    Constants2();
    RoundRows(f, V_0, block, 2, K_2, W_2);
  }

  lemma RoundsTo32(f: WordFunctions, block: Block)
    requires RoundRow(f, V_3, K_3, W_3) == V_4 && ScheduleRow(f, block, 3, W_3)
    requires Rounds(f, V_0, block, 24) == V_3
    ensures Rounds(f, V_0, block, 32) == V_4
  {
    Constants3();
    RoundRows(f, V_0, block, 3, K_3, W_3);
  }

  lemma RoundsTo40(f: WordFunctions, block: Block)
    requires RoundRow(f, V_4, K_4, W_4) == V_5 && ScheduleRow(f, block, 4, W_4)
    requires Rounds(f, V_0, block, 32) == V_4
    ensures Rounds(f, V_0, block, 40) == V_5
  {
    Constants4();
    RoundRows(f, V_0, block, 4, K_4, W_4);
  }

  lemma RoundsTo48(f: WordFunctions, block: Block)
    requires RoundRow(f, V_5, K_5, W_5) == V_6 && ScheduleRow(f, block, 5, W_5)
    requires Rounds(f, V_0, block, 40) == V_5
    ensures Rounds(f, V_0, block, 48) == V_6
  {
    Constants5();
    RoundRows(f, V_0, block, 5, K_5, W_5);
  }

  lemma RoundsTo56(f: WordFunctions, block: Block)
    requires RoundRow(f, V_6, K_6, W_6) == V_7 && ScheduleRow(f, block, 6, W_6)
    requires Rounds(f, V_0, block, 48) == V_6
    ensures Rounds(f, V_0, block, 56) == V_7
  {
    Constants6();
    RoundRows(f, V_0, block, 6, K_6, W_6);
  }

  lemma RoundsTo64(f: WordFunctions, block: Block)
    requires RoundRow(f, V_7, K_7, W_7) == V_8 && ScheduleRow(f, block, 7, W_7)
    requires Rounds(f, V_0, block, 56) == V_7
    ensures Rounds(f, V_0, block, 64) == V_8
  {
    Constants7();
    RoundRows(f, V_0, block, 7, K_7, W_7);
  }

  lemma FirstHalf(f: WordFunctions, block: Block)
    requires Turns(f) && Scheduled(f, block)
    ensures Rounds(f, V_0, block, 32) == V_4
  {
    var r := 0;
    RoundsTo8(f, block, r);
    RoundsTo16(f, block);
    RoundsTo24(f, block);
    RoundsTo32(f, block);
  }

  lemma SecondHalf(f: WordFunctions, block: Block)
    requires Turns(f) && Scheduled(f, block) && Rounds(f, V_0, block, 32) == V_4
    ensures Rounds(f, V_0, block, 64) == V_8
  {
    RoundsTo40(f, block);
    RoundsTo48(f, block);
    RoundsTo56(f, block);
    RoundsTo64(f, block);
  }

  lemma OneBlock(f: WordFunctions, m: seq<Byte>, v: Vars)
    requires |Pad(m)| == 64 && Rounds(f, H0, Pad(m), 64) == v
    ensures Digest(f, m) == UnpackAll(f, Sum(f, H0, v))
  {
    FoldOne(Compression(f), H0, Pad(m));
  }

  lemma LastSum()
    ensures Sum(STANDARD, H0, V_8) == Vars(0xba7816bf, 0x8f01cfea, 0x414140de, 0x5dae2223,
                                           0xb00361a3, 0x96177a9c, 0xb410ff61, 0xf20015ad)
  {
  }

  lemma AbcRounds()
    ensures |Pad(ABC)| == 64 && Rounds(STANDARD, H0, Pad(ABC), 64) == V_8
  {
    var block := Pad(ABC);
    Padded(block);
    FirstWords(block);
    StandardChecks();
    ScheduleOf(STANDARD, block);
    StandardTurns();
    FirstHalf(STANDARD, block);
    SecondHalf(STANDARD, block);
  }

  /** The digest of "abc", as published. */
  lemma AbcDigest()
    ensures Digest(STANDARD, ABC)
         == Unpack(0xba7816bf) + Unpack(0x8f01cfea) + Unpack(0x414140de) + Unpack(0x5dae2223)
            + Unpack(0xb00361a3) + Unpack(0x96177a9c) + Unpack(0xb410ff61) + Unpack(0xf20015ad)
  {
    AbcRounds();
    OneBlock(STANDARD, ABC, V_8);
    LastSum();
  }

}
