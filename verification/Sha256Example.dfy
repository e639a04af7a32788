/**
 * The one-block example published with the standard, the message "abc", followed through padding, schedule, rounds
 * and output. It settles every constant, rotation and order in the functions it runs through.
 */
module Sha256Example {
  import opened Arithmetic
  import opened BigEndian
  import opened Sha256

  const ABC: seq<Byte> := [97, 98, 99]

  const BLOCK: seq<Byte> := ABC + [0x80] + Zeros(52) + [0, 0, 0, 0, 0, 0, 0, 24]

  lemma AbcPadded()
    ensures |BLOCK| == 64 && Pad(ABC) == BLOCK
  {
    assert Be64(24) == [0, 0, 0, 0, 0, 0, 0, 24];
  }

  // ---- Schedule ----

  lemma WordAt(t: nat, x: U32)
    requires |BLOCK| == 64 && t < 16
    requires x == WordOf(BLOCK[4 * t], BLOCK[4 * t + 1], BLOCK[4 * t + 2], BLOCK[4 * t + 3])
    ensures W(BLOCK, t) == ToWord(x)
  {
    hide ToWord, WordOf;
  }

  lemma FirstCast()
    ensures ToWord(0x61626380) == 0x61626380
  {
  }

  lemma LengthCast()
    ensures ToWord(24) == 24
  {
  }

  lemma ZeroCast()
    ensures ToWord(0) == 0
  {
  }

  lemma FirstWords()
    ensures |BLOCK| == 64 && W(BLOCK, 0) == 0x61626380 && W(BLOCK, 15) == 0x18
    ensures forall t :: 1 <= t < 15 ==> W(BLOCK, t) == 0
  {
    hide W, ToWord;
    FirstCast();
    LengthCast();
    ZeroCast();
    AbcPadded();
    assert BLOCK[4 * 0] == 97 && BLOCK[4 * 0 + 1] == 98 && BLOCK[4 * 0 + 2] == 99 && BLOCK[4 * 0 + 3] == 128;
    WordAt(0, 0x61626380);
    assert BLOCK[4 * 15] == 0 && BLOCK[4 * 15 + 1] == 0 && BLOCK[4 * 15 + 2] == 0 && BLOCK[4 * 15 + 3] == 24;
    WordAt(15, 24);
    forall t | 1 <= t < 15 ensures W(BLOCK, t) == 0 {
      assert BLOCK[4 * t] == 0 && BLOCK[4 * t + 1] == 0 && BLOCK[4 * t + 2] == 0 && BLOCK[4 * t + 3] == 0;
      WordAt(t, 0);
    }
  }

  lemma Sums16()
    ensures Sum4(0x61626380, Small0(0x00000000), 0x00000000, Small1(0x00000000)) == 0x61626380
    ensures Sum4(0x00000000, Small0(0x00000000), 0x00000000, Small1(0x00000018)) == 0x000f0000
    ensures Sum4(0x00000000, Small0(0x00000000), 0x00000000, Small1(0x61626380)) == 0x7da86405
    ensures Sum4(0x00000000, Small0(0x00000000), 0x00000000, Small1(0x000f0000)) == 0x600003c6
    ensures Sum4(0x00000000, Small0(0x00000000), 0x00000000, Small1(0x7da86405)) == 0x3e9d7b78
    ensures Sum4(0x00000000, Small0(0x00000000), 0x00000000, Small1(0x600003c6)) == 0x0183fc00
    ensures Sum4(0x00000000, Small0(0x00000000), 0x00000018, Small1(0x3e9d7b78)) == 0x12dcbfdb
    ensures Sum4(0x00000000, Small0(0x00000000), 0x61626380, Small1(0x0183fc00)) == 0xe2e2c38e
    ensures Sum4(0x00000000, Small0(0x00000000), 0x000f0000, Small1(0x12dcbfdb)) == 0xc8215c1a
    ensures Sum4(0x00000000, Small0(0x00000000), 0x7da86405, Small1(0xe2e2c38e)) == 0xb73679a2
    ensures Sum4(0x00000000, Small0(0x00000000), 0x600003c6, Small1(0xc8215c1a)) == 0xe5bc3909
    ensures Sum4(0x00000000, Small0(0x00000000), 0x3e9d7b78, Small1(0xb73679a2)) == 0x32663c5b
    ensures Sum4(0x00000000, Small0(0x00000000), 0x0183fc00, Small1(0xe5bc3909)) == 0x9d209d67
    ensures Sum4(0x00000000, Small0(0x00000000), 0x12dcbfdb, Small1(0x32663c5b)) == 0xec8726cb
    ensures Sum4(0x00000000, Small0(0x00000018), 0xe2e2c38e, Small1(0x9d209d67)) == 0x702138a4
    ensures Sum4(0x00000018, Small0(0x61626380), 0xc8215c1a, Small1(0xec8726cb)) == 0xd3b7973b
  {
  }

  lemma Sums32()
    ensures Sum4(0x61626380, Small0(0x000f0000), 0xb73679a2, Small1(0x702138a4)) == 0x93f5997f
    ensures Sum4(0x000f0000, Small0(0x7da86405), 0xe5bc3909, Small1(0xd3b7973b)) == 0x3b68ba73
    ensures Sum4(0x7da86405, Small0(0x600003c6), 0x32663c5b, Small1(0x93f5997f)) == 0xaff4ffc1
    ensures Sum4(0x600003c6, Small0(0x3e9d7b78), 0x9d209d67, Small1(0x3b68ba73)) == 0xf10a5c62
    ensures Sum4(0x3e9d7b78, Small0(0x0183fc00), 0xec8726cb, Small1(0xaff4ffc1)) == 0x0a8b3996
    ensures Sum4(0x0183fc00, Small0(0x12dcbfdb), 0x702138a4, Small1(0xf10a5c62)) == 0x72af830a
    ensures Sum4(0x12dcbfdb, Small0(0xe2e2c38e), 0xd3b7973b, Small1(0x0a8b3996)) == 0x9409e33e
    ensures Sum4(0xe2e2c38e, Small0(0xc8215c1a), 0x93f5997f, Small1(0x72af830a)) == 0x24641522
    ensures Sum4(0xc8215c1a, Small0(0xb73679a2), 0x3b68ba73, Small1(0x9409e33e)) == 0x9f47bf94
    ensures Sum4(0xb73679a2, Small0(0xe5bc3909), 0xaff4ffc1, Small1(0x24641522)) == 0xf0a64f5a
    ensures Sum4(0xe5bc3909, Small0(0x32663c5b), 0xf10a5c62, Small1(0x9f47bf94)) == 0x3e246a79
    ensures Sum4(0x32663c5b, Small0(0x9d209d67), 0x0a8b3996, Small1(0xf0a64f5a)) == 0x27333ba3
    ensures Sum4(0x9d209d67, Small0(0xec8726cb), 0x72af830a, Small1(0x3e246a79)) == 0x0c4763f2
    ensures Sum4(0xec8726cb, Small0(0x702138a4), 0x9409e33e, Small1(0x27333ba3)) == 0x840abf27
    ensures Sum4(0x702138a4, Small0(0xd3b7973b), 0x24641522, Small1(0x0c4763f2)) == 0x7a290d5d
    ensures Sum4(0xd3b7973b, Small0(0x93f5997f), 0x9f47bf94, Small1(0x840abf27)) == 0x065c43da
  {
  }

  lemma Sums48()
    ensures Sum4(0x93f5997f, Small0(0x3b68ba73), 0xf0a64f5a, Small1(0x7a290d5d)) == 0xfb3e89cb
    ensures Sum4(0x3b68ba73, Small0(0xaff4ffc1), 0x3e246a79, Small1(0x065c43da)) == 0xcc7617db
    ensures Sum4(0xaff4ffc1, Small0(0xf10a5c62), 0x27333ba3, Small1(0xfb3e89cb)) == 0xb9e66c34
    ensures Sum4(0xf10a5c62, Small0(0x0a8b3996), 0x0c4763f2, Small1(0xcc7617db)) == 0xa9993667
    ensures Sum4(0x0a8b3996, Small0(0x72af830a), 0x840abf27, Small1(0xb9e66c34)) == 0x84badedd
    ensures Sum4(0x72af830a, Small0(0x9409e33e), 0x7a290d5d, Small1(0xa9993667)) == 0xc21462bc
    ensures Sum4(0x9409e33e, Small0(0x24641522), 0x065c43da, Small1(0x84badedd)) == 0x1487472c
    ensures Sum4(0x24641522, Small0(0x9f47bf94), 0xfb3e89cb, Small1(0xc21462bc)) == 0xb20f7a99
    ensures Sum4(0x9f47bf94, Small0(0xf0a64f5a), 0xcc7617db, Small1(0x1487472c)) == 0xef57b9cd
    ensures Sum4(0xf0a64f5a, Small0(0x3e246a79), 0xb9e66c34, Small1(0xb20f7a99)) == 0xebe6b238
    ensures Sum4(0x3e246a79, Small0(0x27333ba3), 0xa9993667, Small1(0xef57b9cd)) == 0x9fe3095e
    ensures Sum4(0x27333ba3, Small0(0x0c4763f2), 0x84badedd, Small1(0xebe6b238)) == 0x78bc8d4b
    ensures Sum4(0x0c4763f2, Small0(0x840abf27), 0xc21462bc, Small1(0x9fe3095e)) == 0xa43fcf15
    ensures Sum4(0x840abf27, Small0(0x7a290d5d), 0x1487472c, Small1(0x78bc8d4b)) == 0x668b2ff8
    ensures Sum4(0x7a290d5d, Small0(0x065c43da), 0xb20f7a99, Small1(0xa43fcf15)) == 0xeeaba2cc
    ensures Sum4(0x065c43da, Small0(0xfb3e89cb), 0xef57b9cd, Small1(0x668b2ff8)) == 0x12b1edeb
  {
  }

  predicate Known0(block: seq<Byte>)
    requires |block| == 64
  {
    && W(block, 0) == 0x61626380 && W(block, 1) == 0x00000000
    && W(block, 2) == 0x00000000 && W(block, 3) == 0x00000000
    && W(block, 4) == 0x00000000 && W(block, 5) == 0x00000000
    && W(block, 6) == 0x00000000 && W(block, 7) == 0x00000000
    && W(block, 8) == 0x00000000 && W(block, 9) == 0x00000000
    && W(block, 10) == 0x00000000 && W(block, 11) == 0x00000000
    && W(block, 12) == 0x00000000 && W(block, 13) == 0x00000000
    && W(block, 14) == 0x00000000 && W(block, 15) == 0x00000018
  }

  predicate Known16(block: seq<Byte>)
    requires |block| == 64
  {
    && W(block, 16) == 0x61626380 && W(block, 17) == 0x000f0000
    && W(block, 18) == 0x7da86405 && W(block, 19) == 0x600003c6
    && W(block, 20) == 0x3e9d7b78 && W(block, 21) == 0x0183fc00
    && W(block, 22) == 0x12dcbfdb && W(block, 23) == 0xe2e2c38e
    && W(block, 24) == 0xc8215c1a && W(block, 25) == 0xb73679a2
    && W(block, 26) == 0xe5bc3909 && W(block, 27) == 0x32663c5b
    && W(block, 28) == 0x9d209d67 && W(block, 29) == 0xec8726cb
    && W(block, 30) == 0x702138a4 && W(block, 31) == 0xd3b7973b
  }

  predicate Known32(block: seq<Byte>)
    requires |block| == 64
  {
    && W(block, 32) == 0x93f5997f && W(block, 33) == 0x3b68ba73
    && W(block, 34) == 0xaff4ffc1 && W(block, 35) == 0xf10a5c62
    && W(block, 36) == 0x0a8b3996 && W(block, 37) == 0x72af830a
    && W(block, 38) == 0x9409e33e && W(block, 39) == 0x24641522
    && W(block, 40) == 0x9f47bf94 && W(block, 41) == 0xf0a64f5a
    && W(block, 42) == 0x3e246a79 && W(block, 43) == 0x27333ba3
    && W(block, 44) == 0x0c4763f2 && W(block, 45) == 0x840abf27
    && W(block, 46) == 0x7a290d5d && W(block, 47) == 0x065c43da
  }

  predicate Known48(block: seq<Byte>)
    requires |block| == 64
  {
    && W(block, 48) == 0xfb3e89cb && W(block, 49) == 0xcc7617db
    && W(block, 50) == 0xb9e66c34 && W(block, 51) == 0xa9993667
    && W(block, 52) == 0x84badedd && W(block, 53) == 0xc21462bc
    && W(block, 54) == 0x1487472c && W(block, 55) == 0xb20f7a99
    && W(block, 56) == 0xef57b9cd && W(block, 57) == 0xebe6b238
    && W(block, 58) == 0x9fe3095e && W(block, 59) == 0x78bc8d4b
    && W(block, 60) == 0xa43fcf15 && W(block, 61) == 0x668b2ff8
    && W(block, 62) == 0xeeaba2cc && W(block, 63) == 0x12b1edeb
  }

  lemma Words0(block: seq<Byte>)
    requires block == BLOCK
    ensures |block| == 64 && Known0(block)
  {
    hide W;
    FirstWords();
  }

  lemma Words16(block: seq<Byte>)
    requires |block| == 64 && Known0(block)
    ensures Known16(block)
  {
    hide W, Sum4, Small0, Small1;
    Sums16();
    WStep(block, 16); WStep(block, 17); WStep(block, 18); WStep(block, 19);
    WStep(block, 20); WStep(block, 21); WStep(block, 22); WStep(block, 23);
    WStep(block, 24); WStep(block, 25); WStep(block, 26); WStep(block, 27);
    WStep(block, 28); WStep(block, 29); WStep(block, 30); WStep(block, 31);
  }

  lemma Words32(block: seq<Byte>)
    requires |block| == 64 && Known16(block)
    ensures Known32(block)
  {
    hide W, Sum4, Small0, Small1;
    Sums32();
    WStep(block, 32); WStep(block, 33); WStep(block, 34); WStep(block, 35);
    WStep(block, 36); WStep(block, 37); WStep(block, 38); WStep(block, 39);
    WStep(block, 40); WStep(block, 41); WStep(block, 42); WStep(block, 43);
    WStep(block, 44); WStep(block, 45); WStep(block, 46); WStep(block, 47);
  }

  lemma Words48(block: seq<Byte>)
    requires |block| == 64 && Known32(block)
    ensures Known48(block)
  {
    hide W, Sum4, Small0, Small1;
    Sums48();
    WStep(block, 48); WStep(block, 49); WStep(block, 50); WStep(block, 51);
    WStep(block, 52); WStep(block, 53); WStep(block, 54); WStep(block, 55);
    WStep(block, 56); WStep(block, 57); WStep(block, 58); WStep(block, 59);
    WStep(block, 60); WStep(block, 61); WStep(block, 62); WStep(block, 63);
  }

  // ---- Rounds ----

  lemma Rounds0()
    ensures Round(Regs(0x6a09e667, 0xbb67ae85, 0x3c6ef372, 0xa54ff53a, 0x510e527f, 0x9b05688c, 0x1f83d9ab, 0x5be0cd19),
      0x428a2f98, 0x61626380) == Regs(0x5d6aebcd, 0x6a09e667, 0xbb67ae85, 0x3c6ef372, 0xfa2a4622, 0x510e527f, 0x9b05688c, 0x1f83d9ab)
    ensures Round(Regs(0x5d6aebcd, 0x6a09e667, 0xbb67ae85, 0x3c6ef372, 0xfa2a4622, 0x510e527f, 0x9b05688c, 0x1f83d9ab),
      0x71374491, 0x00000000) == Regs(0x5a6ad9ad, 0x5d6aebcd, 0x6a09e667, 0xbb67ae85, 0x78ce7989, 0xfa2a4622, 0x510e527f, 0x9b05688c)
    ensures Round(Regs(0x5a6ad9ad, 0x5d6aebcd, 0x6a09e667, 0xbb67ae85, 0x78ce7989, 0xfa2a4622, 0x510e527f, 0x9b05688c),
      0xb5c0fbcf, 0x00000000) == Regs(0xc8c347a7, 0x5a6ad9ad, 0x5d6aebcd, 0x6a09e667, 0xf92939eb, 0x78ce7989, 0xfa2a4622, 0x510e527f)
    ensures Round(Regs(0xc8c347a7, 0x5a6ad9ad, 0x5d6aebcd, 0x6a09e667, 0xf92939eb, 0x78ce7989, 0xfa2a4622, 0x510e527f),
      0xe9b5dba5, 0x00000000) == Regs(0xd550f666, 0xc8c347a7, 0x5a6ad9ad, 0x5d6aebcd, 0x24e00850, 0xf92939eb, 0x78ce7989, 0xfa2a4622)
  {
  }

  lemma Rounds4()
    ensures Round(Regs(0xd550f666, 0xc8c347a7, 0x5a6ad9ad, 0x5d6aebcd, 0x24e00850, 0xf92939eb, 0x78ce7989, 0xfa2a4622),
      0x3956c25b, 0x00000000) == Regs(0x04409a6a, 0xd550f666, 0xc8c347a7, 0x5a6ad9ad, 0x43ada245, 0x24e00850, 0xf92939eb, 0x78ce7989)
    ensures Round(Regs(0x04409a6a, 0xd550f666, 0xc8c347a7, 0x5a6ad9ad, 0x43ada245, 0x24e00850, 0xf92939eb, 0x78ce7989),
      0x59f111f1, 0x00000000) == Regs(0x2b4209f5, 0x04409a6a, 0xd550f666, 0xc8c347a7, 0x714260ad, 0x43ada245, 0x24e00850, 0xf92939eb)
    ensures Round(Regs(0x2b4209f5, 0x04409a6a, 0xd550f666, 0xc8c347a7, 0x714260ad, 0x43ada245, 0x24e00850, 0xf92939eb),
      0x923f82a4, 0x00000000) == Regs(0xe5030380, 0x2b4209f5, 0x04409a6a, 0xd550f666, 0x9b27a401, 0x714260ad, 0x43ada245, 0x24e00850)
    ensures Round(Regs(0xe5030380, 0x2b4209f5, 0x04409a6a, 0xd550f666, 0x9b27a401, 0x714260ad, 0x43ada245, 0x24e00850),
      0xab1c5ed5, 0x00000000) == Regs(0x85a07b5f, 0xe5030380, 0x2b4209f5, 0x04409a6a, 0x0c657a79, 0x9b27a401, 0x714260ad, 0x43ada245)
  {
  }

  lemma Rounds8()
    ensures Round(Regs(0x85a07b5f, 0xe5030380, 0x2b4209f5, 0x04409a6a, 0x0c657a79, 0x9b27a401, 0x714260ad, 0x43ada245),
      0xd807aa98, 0x00000000) == Regs(0x8e04ecb9, 0x85a07b5f, 0xe5030380, 0x2b4209f5, 0x32ca2d8c, 0x0c657a79, 0x9b27a401, 0x714260ad)
    ensures Round(Regs(0x8e04ecb9, 0x85a07b5f, 0xe5030380, 0x2b4209f5, 0x32ca2d8c, 0x0c657a79, 0x9b27a401, 0x714260ad),
      0x12835b01, 0x00000000) == Regs(0x8c87346b, 0x8e04ecb9, 0x85a07b5f, 0xe5030380, 0x1cc92596, 0x32ca2d8c, 0x0c657a79, 0x9b27a401)
    ensures Round(Regs(0x8c87346b, 0x8e04ecb9, 0x85a07b5f, 0xe5030380, 0x1cc92596, 0x32ca2d8c, 0x0c657a79, 0x9b27a401),
      0x243185be, 0x00000000) == Regs(0x4798a3f4, 0x8c87346b, 0x8e04ecb9, 0x85a07b5f, 0x436b23e8, 0x1cc92596, 0x32ca2d8c, 0x0c657a79)
    ensures Round(Regs(0x4798a3f4, 0x8c87346b, 0x8e04ecb9, 0x85a07b5f, 0x436b23e8, 0x1cc92596, 0x32ca2d8c, 0x0c657a79),
      0x550c7dc3, 0x00000000) == Regs(0xf71fc5a9, 0x4798a3f4, 0x8c87346b, 0x8e04ecb9, 0x816fd6e9, 0x436b23e8, 0x1cc92596, 0x32ca2d8c)
  {
  }

  lemma Rounds12()
    ensures Round(Regs(0xf71fc5a9, 0x4798a3f4, 0x8c87346b, 0x8e04ecb9, 0x816fd6e9, 0x436b23e8, 0x1cc92596, 0x32ca2d8c),
      0x72be5d74, 0x00000000) == Regs(0x87912990, 0xf71fc5a9, 0x4798a3f4, 0x8c87346b, 0x1e578218, 0x816fd6e9, 0x436b23e8, 0x1cc92596)
    ensures Round(Regs(0x87912990, 0xf71fc5a9, 0x4798a3f4, 0x8c87346b, 0x1e578218, 0x816fd6e9, 0x436b23e8, 0x1cc92596),
      0x80deb1fe, 0x00000000) == Regs(0xd932eb16, 0x87912990, 0xf71fc5a9, 0x4798a3f4, 0x745a48de, 0x1e578218, 0x816fd6e9, 0x436b23e8)
    ensures Round(Regs(0xd932eb16, 0x87912990, 0xf71fc5a9, 0x4798a3f4, 0x745a48de, 0x1e578218, 0x816fd6e9, 0x436b23e8),
      0x9bdc06a7, 0x00000000) == Regs(0xc0645fde, 0xd932eb16, 0x87912990, 0xf71fc5a9, 0x0b92f20c, 0x745a48de, 0x1e578218, 0x816fd6e9)
    ensures Round(Regs(0xc0645fde, 0xd932eb16, 0x87912990, 0xf71fc5a9, 0x0b92f20c, 0x745a48de, 0x1e578218, 0x816fd6e9),
      0xc19bf174, 0x00000018) == Regs(0xb0fa238e, 0xc0645fde, 0xd932eb16, 0x87912990, 0x07590dcd, 0x0b92f20c, 0x745a48de, 0x1e578218)
  {
  }

  lemma Rounds16()
    ensures Round(Regs(0xb0fa238e, 0xc0645fde, 0xd932eb16, 0x87912990, 0x07590dcd, 0x0b92f20c, 0x745a48de, 0x1e578218),
      0xe49b69c1, 0x61626380) == Regs(0x21da9a9b, 0xb0fa238e, 0xc0645fde, 0xd932eb16, 0x8034229c, 0x07590dcd, 0x0b92f20c, 0x745a48de)
    ensures Round(Regs(0x21da9a9b, 0xb0fa238e, 0xc0645fde, 0xd932eb16, 0x8034229c, 0x07590dcd, 0x0b92f20c, 0x745a48de),
      0xefbe4786, 0x000f0000) == Regs(0xc2fbd9d1, 0x21da9a9b, 0xb0fa238e, 0xc0645fde, 0x846ee454, 0x8034229c, 0x07590dcd, 0x0b92f20c)
    ensures Round(Regs(0xc2fbd9d1, 0x21da9a9b, 0xb0fa238e, 0xc0645fde, 0x846ee454, 0x8034229c, 0x07590dcd, 0x0b92f20c),
      0x0fc19dc6, 0x7da86405) == Regs(0xfe777bbf, 0xc2fbd9d1, 0x21da9a9b, 0xb0fa238e, 0xcc899961, 0x846ee454, 0x8034229c, 0x07590dcd)
    ensures Round(Regs(0xfe777bbf, 0xc2fbd9d1, 0x21da9a9b, 0xb0fa238e, 0xcc899961, 0x846ee454, 0x8034229c, 0x07590dcd),
      0x240ca1cc, 0x600003c6) == Regs(0xe1f20c33, 0xfe777bbf, 0xc2fbd9d1, 0x21da9a9b, 0xb0638179, 0xcc899961, 0x846ee454, 0x8034229c)
  {
  }

  lemma Rounds20()
    ensures Round(Regs(0xe1f20c33, 0xfe777bbf, 0xc2fbd9d1, 0x21da9a9b, 0xb0638179, 0xcc899961, 0x846ee454, 0x8034229c),
      0x2de92c6f, 0x3e9d7b78) == Regs(0x9dc68b63, 0xe1f20c33, 0xfe777bbf, 0xc2fbd9d1, 0x8ada8930, 0xb0638179, 0xcc899961, 0x846ee454)
    ensures Round(Regs(0x9dc68b63, 0xe1f20c33, 0xfe777bbf, 0xc2fbd9d1, 0x8ada8930, 0xb0638179, 0xcc899961, 0x846ee454),
      0x4a7484aa, 0x0183fc00) == Regs(0xc2606d6d, 0x9dc68b63, 0xe1f20c33, 0xfe777bbf, 0xe1257970, 0x8ada8930, 0xb0638179, 0xcc899961)
    ensures Round(Regs(0xc2606d6d, 0x9dc68b63, 0xe1f20c33, 0xfe777bbf, 0xe1257970, 0x8ada8930, 0xb0638179, 0xcc899961),
      0x5cb0a9dc, 0x12dcbfdb) == Regs(0xa7a3623f, 0xc2606d6d, 0x9dc68b63, 0xe1f20c33, 0x49f5114a, 0xe1257970, 0x8ada8930, 0xb0638179)
    ensures Round(Regs(0xa7a3623f, 0xc2606d6d, 0x9dc68b63, 0xe1f20c33, 0x49f5114a, 0xe1257970, 0x8ada8930, 0xb0638179),
      0x76f988da, 0xe2e2c38e) == Regs(0xc5d53d8d, 0xa7a3623f, 0xc2606d6d, 0x9dc68b63, 0xaa47c347, 0x49f5114a, 0xe1257970, 0x8ada8930)
  {
  }

  lemma Rounds24()
    ensures Round(Regs(0xc5d53d8d, 0xa7a3623f, 0xc2606d6d, 0x9dc68b63, 0xaa47c347, 0x49f5114a, 0xe1257970, 0x8ada8930),
      0x983e5152, 0xc8215c1a) == Regs(0x1c2c2838, 0xc5d53d8d, 0xa7a3623f, 0xc2606d6d, 0x2823ef91, 0xaa47c347, 0x49f5114a, 0xe1257970)
    ensures Round(Regs(0x1c2c2838, 0xc5d53d8d, 0xa7a3623f, 0xc2606d6d, 0x2823ef91, 0xaa47c347, 0x49f5114a, 0xe1257970),
      0xa831c66d, 0xb73679a2) == Regs(0xcde8037d, 0x1c2c2838, 0xc5d53d8d, 0xa7a3623f, 0x14383d8e, 0x2823ef91, 0xaa47c347, 0x49f5114a)
    ensures Round(Regs(0xcde8037d, 0x1c2c2838, 0xc5d53d8d, 0xa7a3623f, 0x14383d8e, 0x2823ef91, 0xaa47c347, 0x49f5114a),
      0xb00327c8, 0xe5bc3909) == Regs(0xb62ec4bc, 0xcde8037d, 0x1c2c2838, 0xc5d53d8d, 0xc74c6516, 0x14383d8e, 0x2823ef91, 0xaa47c347)
    ensures Round(Regs(0xb62ec4bc, 0xcde8037d, 0x1c2c2838, 0xc5d53d8d, 0xc74c6516, 0x14383d8e, 0x2823ef91, 0xaa47c347),
      0xbf597fc7, 0x32663c5b) == Regs(0x77d37528, 0xb62ec4bc, 0xcde8037d, 0x1c2c2838, 0xedffbff8, 0xc74c6516, 0x14383d8e, 0x2823ef91)
  {
  }

  lemma Rounds28()
    ensures Round(Regs(0x77d37528, 0xb62ec4bc, 0xcde8037d, 0x1c2c2838, 0xedffbff8, 0xc74c6516, 0x14383d8e, 0x2823ef91),
      0xc6e00bf3, 0x9d209d67) == Regs(0x363482c9, 0x77d37528, 0xb62ec4bc, 0xcde8037d, 0x6112a3b7, 0xedffbff8, 0xc74c6516, 0x14383d8e)
    ensures Round(Regs(0x363482c9, 0x77d37528, 0xb62ec4bc, 0xcde8037d, 0x6112a3b7, 0xedffbff8, 0xc74c6516, 0x14383d8e),
      0xd5a79147, 0xec8726cb) == Regs(0xa0060b30, 0x363482c9, 0x77d37528, 0xb62ec4bc, 0xade79437, 0x6112a3b7, 0xedffbff8, 0xc74c6516)
    ensures Round(Regs(0xa0060b30, 0x363482c9, 0x77d37528, 0xb62ec4bc, 0xade79437, 0x6112a3b7, 0xedffbff8, 0xc74c6516),
      0x06ca6351, 0x702138a4) == Regs(0xea992a22, 0xa0060b30, 0x363482c9, 0x77d37528, 0x0109ab3a, 0xade79437, 0x6112a3b7, 0xedffbff8)
    ensures Round(Regs(0xea992a22, 0xa0060b30, 0x363482c9, 0x77d37528, 0x0109ab3a, 0xade79437, 0x6112a3b7, 0xedffbff8),
      0x14292967, 0xd3b7973b) == Regs(0x73b33bf5, 0xea992a22, 0xa0060b30, 0x363482c9, 0xba591112, 0x0109ab3a, 0xade79437, 0x6112a3b7)
  {
  }

  lemma Rounds32()
    ensures Round(Regs(0x73b33bf5, 0xea992a22, 0xa0060b30, 0x363482c9, 0xba591112, 0x0109ab3a, 0xade79437, 0x6112a3b7),
      0x27b70a85, 0x93f5997f) == Regs(0x98e12507, 0x73b33bf5, 0xea992a22, 0xa0060b30, 0x9cd9f5f6, 0xba591112, 0x0109ab3a, 0xade79437)
    ensures Round(Regs(0x98e12507, 0x73b33bf5, 0xea992a22, 0xa0060b30, 0x9cd9f5f6, 0xba591112, 0x0109ab3a, 0xade79437),
      0x2e1b2138, 0x3b68ba73) == Regs(0xfe604df5, 0x98e12507, 0x73b33bf5, 0xea992a22, 0x59249dd3, 0x9cd9f5f6, 0xba591112, 0x0109ab3a)
    ensures Round(Regs(0xfe604df5, 0x98e12507, 0x73b33bf5, 0xea992a22, 0x59249dd3, 0x9cd9f5f6, 0xba591112, 0x0109ab3a),
      0x4d2c6dfc, 0xaff4ffc1) == Regs(0xa9a7738c, 0xfe604df5, 0x98e12507, 0x73b33bf5, 0x085f3833, 0x59249dd3, 0x9cd9f5f6, 0xba591112)
    ensures Round(Regs(0xa9a7738c, 0xfe604df5, 0x98e12507, 0x73b33bf5, 0x085f3833, 0x59249dd3, 0x9cd9f5f6, 0xba591112),
      0x53380d13, 0xf10a5c62) == Regs(0x65a0cfe4, 0xa9a7738c, 0xfe604df5, 0x98e12507, 0xf4b002d6, 0x085f3833, 0x59249dd3, 0x9cd9f5f6)
  {
  }

  lemma Rounds36()
    ensures Round(Regs(0x65a0cfe4, 0xa9a7738c, 0xfe604df5, 0x98e12507, 0xf4b002d6, 0x085f3833, 0x59249dd3, 0x9cd9f5f6),
      0x650a7354, 0x0a8b3996) == Regs(0x41a65cb1, 0x65a0cfe4, 0xa9a7738c, 0xfe604df5, 0x0772a26b, 0xf4b002d6, 0x085f3833, 0x59249dd3)
    ensures Round(Regs(0x41a65cb1, 0x65a0cfe4, 0xa9a7738c, 0xfe604df5, 0x0772a26b, 0xf4b002d6, 0x085f3833, 0x59249dd3),
      0x766a0abb, 0x72af830a) == Regs(0x34df1604, 0x41a65cb1, 0x65a0cfe4, 0xa9a7738c, 0xa507a53d, 0x0772a26b, 0xf4b002d6, 0x085f3833)
    ensures Round(Regs(0x34df1604, 0x41a65cb1, 0x65a0cfe4, 0xa9a7738c, 0xa507a53d, 0x0772a26b, 0xf4b002d6, 0x085f3833),
      0x81c2c92e, 0x9409e33e) == Regs(0x6dc57a8a, 0x34df1604, 0x41a65cb1, 0x65a0cfe4, 0xf0781bc8, 0xa507a53d, 0x0772a26b, 0xf4b002d6)
    ensures Round(Regs(0x6dc57a8a, 0x34df1604, 0x41a65cb1, 0x65a0cfe4, 0xf0781bc8, 0xa507a53d, 0x0772a26b, 0xf4b002d6),
      0x92722c85, 0x24641522) == Regs(0x79ea687a, 0x6dc57a8a, 0x34df1604, 0x41a65cb1, 0x1efbc0a0, 0xf0781bc8, 0xa507a53d, 0x0772a26b)
  {
  }

  lemma Rounds40()
    ensures Round(Regs(0x79ea687a, 0x6dc57a8a, 0x34df1604, 0x41a65cb1, 0x1efbc0a0, 0xf0781bc8, 0xa507a53d, 0x0772a26b),
      0xa2bfe8a1, 0x9f47bf94) == Regs(0xd6670766, 0x79ea687a, 0x6dc57a8a, 0x34df1604, 0x26352d63, 0x1efbc0a0, 0xf0781bc8, 0xa507a53d)
    ensures Round(Regs(0xd6670766, 0x79ea687a, 0x6dc57a8a, 0x34df1604, 0x26352d63, 0x1efbc0a0, 0xf0781bc8, 0xa507a53d),
      0xa81a664b, 0xf0a64f5a) == Regs(0xdf46652f, 0xd6670766, 0x79ea687a, 0x6dc57a8a, 0x838b2711, 0x26352d63, 0x1efbc0a0, 0xf0781bc8)
    ensures Round(Regs(0xdf46652f, 0xd6670766, 0x79ea687a, 0x6dc57a8a, 0x838b2711, 0x26352d63, 0x1efbc0a0, 0xf0781bc8),
      0xc24b8b70, 0x3e246a79) == Regs(0x17aa0dfe, 0xdf46652f, 0xd6670766, 0x79ea687a, 0xdecd4715, 0x838b2711, 0x26352d63, 0x1efbc0a0)
    ensures Round(Regs(0x17aa0dfe, 0xdf46652f, 0xd6670766, 0x79ea687a, 0xdecd4715, 0x838b2711, 0x26352d63, 0x1efbc0a0),
      0xc76c51a3, 0x27333ba3) == Regs(0x9d4baf93, 0x17aa0dfe, 0xdf46652f, 0xd6670766, 0xfda24c2e, 0xdecd4715, 0x838b2711, 0x26352d63)
  {
  }

  lemma Rounds44()
    ensures Round(Regs(0x9d4baf93, 0x17aa0dfe, 0xdf46652f, 0xd6670766, 0xfda24c2e, 0xdecd4715, 0x838b2711, 0x26352d63),
      0xd192e819, 0x0c4763f2) == Regs(0x26628815, 0x9d4baf93, 0x17aa0dfe, 0xdf46652f, 0xa80f11f0, 0xfda24c2e, 0xdecd4715, 0x838b2711)
    ensures Round(Regs(0x26628815, 0x9d4baf93, 0x17aa0dfe, 0xdf46652f, 0xa80f11f0, 0xfda24c2e, 0xdecd4715, 0x838b2711),
      0xd6990624, 0x840abf27) == Regs(0x72ab4b91, 0x26628815, 0x9d4baf93, 0x17aa0dfe, 0xb7755da1, 0xa80f11f0, 0xfda24c2e, 0xdecd4715)
    ensures Round(Regs(0x72ab4b91, 0x26628815, 0x9d4baf93, 0x17aa0dfe, 0xb7755da1, 0xa80f11f0, 0xfda24c2e, 0xdecd4715),
      0xf40e3585, 0x7a290d5d) == Regs(0xa14c14b0, 0x72ab4b91, 0x26628815, 0x9d4baf93, 0xd57b94a9, 0xb7755da1, 0xa80f11f0, 0xfda24c2e)
    ensures Round(Regs(0xa14c14b0, 0x72ab4b91, 0x26628815, 0x9d4baf93, 0xd57b94a9, 0xb7755da1, 0xa80f11f0, 0xfda24c2e),
      0x106aa070, 0x065c43da) == Regs(0x4172328d, 0xa14c14b0, 0x72ab4b91, 0x26628815, 0xfecf0bc6, 0xd57b94a9, 0xb7755da1, 0xa80f11f0)
  {
  }

  lemma Rounds48()
    ensures Round(Regs(0x4172328d, 0xa14c14b0, 0x72ab4b91, 0x26628815, 0xfecf0bc6, 0xd57b94a9, 0xb7755da1, 0xa80f11f0),
      0x19a4c116, 0xfb3e89cb) == Regs(0x05757ceb, 0x4172328d, 0xa14c14b0, 0x72ab4b91, 0xbd714038, 0xfecf0bc6, 0xd57b94a9, 0xb7755da1)
    ensures Round(Regs(0x05757ceb, 0x4172328d, 0xa14c14b0, 0x72ab4b91, 0xbd714038, 0xfecf0bc6, 0xd57b94a9, 0xb7755da1),
      0x1e376c08, 0xcc7617db) == Regs(0xf11bfaa8, 0x05757ceb, 0x4172328d, 0xa14c14b0, 0x6e5c390c, 0xbd714038, 0xfecf0bc6, 0xd57b94a9)
    ensures Round(Regs(0xf11bfaa8, 0x05757ceb, 0x4172328d, 0xa14c14b0, 0x6e5c390c, 0xbd714038, 0xfecf0bc6, 0xd57b94a9),
      0x2748774c, 0xb9e66c34) == Regs(0x7a0508a1, 0xf11bfaa8, 0x05757ceb, 0x4172328d, 0x52f1ccf7, 0x6e5c390c, 0xbd714038, 0xfecf0bc6)
    ensures Round(Regs(0x7a0508a1, 0xf11bfaa8, 0x05757ceb, 0x4172328d, 0x52f1ccf7, 0x6e5c390c, 0xbd714038, 0xfecf0bc6),
      0x34b0bcb5, 0xa9993667) == Regs(0x886e7a22, 0x7a0508a1, 0xf11bfaa8, 0x05757ceb, 0x49231c1e, 0x52f1ccf7, 0x6e5c390c, 0xbd714038)
  {
  }

  lemma Rounds52()
    ensures Round(Regs(0x886e7a22, 0x7a0508a1, 0xf11bfaa8, 0x05757ceb, 0x49231c1e, 0x52f1ccf7, 0x6e5c390c, 0xbd714038),
      0x391c0cb3, 0x84badedd) == Regs(0x101fd28f, 0x886e7a22, 0x7a0508a1, 0xf11bfaa8, 0x529e7d00, 0x49231c1e, 0x52f1ccf7, 0x6e5c390c)
    ensures Round(Regs(0x101fd28f, 0x886e7a22, 0x7a0508a1, 0xf11bfaa8, 0x529e7d00, 0x49231c1e, 0x52f1ccf7, 0x6e5c390c),
      0x4ed8aa4a, 0xc21462bc) == Regs(0xf5702fdb, 0x101fd28f, 0x886e7a22, 0x7a0508a1, 0x9f4787c3, 0x529e7d00, 0x49231c1e, 0x52f1ccf7)
    ensures Round(Regs(0xf5702fdb, 0x101fd28f, 0x886e7a22, 0x7a0508a1, 0x9f4787c3, 0x529e7d00, 0x49231c1e, 0x52f1ccf7),
      0x5b9cca4f, 0x1487472c) == Regs(0x3ec45cdb, 0xf5702fdb, 0x101fd28f, 0x886e7a22, 0xe50e1b4f, 0x9f4787c3, 0x529e7d00, 0x49231c1e)
    ensures Round(Regs(0x3ec45cdb, 0xf5702fdb, 0x101fd28f, 0x886e7a22, 0xe50e1b4f, 0x9f4787c3, 0x529e7d00, 0x49231c1e),
      0x682e6ff3, 0xb20f7a99) == Regs(0x38cc9913, 0x3ec45cdb, 0xf5702fdb, 0x101fd28f, 0x54cb266b, 0xe50e1b4f, 0x9f4787c3, 0x529e7d00)
  {
  }

  lemma Rounds56()
    ensures Round(Regs(0x38cc9913, 0x3ec45cdb, 0xf5702fdb, 0x101fd28f, 0x54cb266b, 0xe50e1b4f, 0x9f4787c3, 0x529e7d00),
      0x748f82ee, 0xef57b9cd) == Regs(0xfcd1887b, 0x38cc9913, 0x3ec45cdb, 0xf5702fdb, 0x9b5e906c, 0x54cb266b, 0xe50e1b4f, 0x9f4787c3)
    ensures Round(Regs(0xfcd1887b, 0x38cc9913, 0x3ec45cdb, 0xf5702fdb, 0x9b5e906c, 0x54cb266b, 0xe50e1b4f, 0x9f4787c3),
      0x78a5636f, 0xebe6b238) == Regs(0xc062d46f, 0xfcd1887b, 0x38cc9913, 0x3ec45cdb, 0x7e44008e, 0x9b5e906c, 0x54cb266b, 0xe50e1b4f)
    ensures Round(Regs(0xc062d46f, 0xfcd1887b, 0x38cc9913, 0x3ec45cdb, 0x7e44008e, 0x9b5e906c, 0x54cb266b, 0xe50e1b4f),
      0x84c87814, 0x9fe3095e) == Regs(0xffb70472, 0xc062d46f, 0xfcd1887b, 0x38cc9913, 0x6d83bfc6, 0x7e44008e, 0x9b5e906c, 0x54cb266b)
    ensures Round(Regs(0xffb70472, 0xc062d46f, 0xfcd1887b, 0x38cc9913, 0x6d83bfc6, 0x7e44008e, 0x9b5e906c, 0x54cb266b),
      0x8cc70208, 0x78bc8d4b) == Regs(0xb6ae8fff, 0xffb70472, 0xc062d46f, 0xfcd1887b, 0xb21bad3d, 0x6d83bfc6, 0x7e44008e, 0x9b5e906c)
  {
  }

  lemma Rounds60()
    ensures Round(Regs(0xb6ae8fff, 0xffb70472, 0xc062d46f, 0xfcd1887b, 0xb21bad3d, 0x6d83bfc6, 0x7e44008e, 0x9b5e906c),
      0x90befffa, 0xa43fcf15) == Regs(0xb85e2ce9, 0xb6ae8fff, 0xffb70472, 0xc062d46f, 0x961f4894, 0xb21bad3d, 0x6d83bfc6, 0x7e44008e)
    ensures Round(Regs(0xb85e2ce9, 0xb6ae8fff, 0xffb70472, 0xc062d46f, 0x961f4894, 0xb21bad3d, 0x6d83bfc6, 0x7e44008e),
      0xa4506ceb, 0x668b2ff8) == Regs(0x04d24d6c, 0xb85e2ce9, 0xb6ae8fff, 0xffb70472, 0x948d25b6, 0x961f4894, 0xb21bad3d, 0x6d83bfc6)
    ensures Round(Regs(0x04d24d6c, 0xb85e2ce9, 0xb6ae8fff, 0xffb70472, 0x948d25b6, 0x961f4894, 0xb21bad3d, 0x6d83bfc6),
      0xbef9a3f7, 0xeeaba2cc) == Regs(0xd39a2165, 0x04d24d6c, 0xb85e2ce9, 0xb6ae8fff, 0xfb121210, 0x948d25b6, 0x961f4894, 0xb21bad3d)
    ensures Round(Regs(0xd39a2165, 0x04d24d6c, 0xb85e2ce9, 0xb6ae8fff, 0xfb121210, 0x948d25b6, 0x961f4894, 0xb21bad3d),
      0xc67178f2, 0x12b1edeb) == Regs(0x506e3058, 0xd39a2165, 0x04d24d6c, 0xb85e2ce9, 0x5ef50f24, 0xfb121210, 0x948d25b6, 0x961f4894)
  {
  }

  lemma RoundOn(ks: seq<Word>, block: seq<Byte>, t: nat, k: Word, w: Word)
    requires |block| == 64 && t < |ks| && ks[t] == k && W(block, t) == w
    ensures Rounds(H256, ks, block, t + 1) == Round(Rounds(H256, ks, block, t), k, w)
  {
  }

  lemma NoRounds(ks: seq<Word>, block: seq<Byte>)
    requires |block| == 64
    ensures Rounds(H256, ks, block, 0) == Regs(0x6a09e667, 0xbb67ae85, 0x3c6ef372, 0xa54ff53a, 0x510e527f, 0x9b05688c, 0x1f83d9ab, 0x5be0cd19)
  {
  }

  lemma Through16(ks: seq<Word>, block: seq<Byte>)
    requires |block| == 64 && Known0(block) && |ks| == 64 && ks == K256
    ensures Rounds(H256, ks, block, 16)
      == Regs(0xb0fa238e, 0xc0645fde, 0xd932eb16, 0x87912990, 0x07590dcd, 0x0b92f20c, 0x745a48de, 0x1e578218)
  {
    hide Rounds, Round, W;
    NoRounds(ks, block);
    Constants0(ks);
    Rounds0();
    Rounds4();
    Rounds8();
    Rounds12();
    RoundOn(ks, block, 0, 0x428a2f98, 0x61626380); RoundOn(ks, block, 1, 0x71374491, 0x00000000);
    RoundOn(ks, block, 2, 0xb5c0fbcf, 0x00000000); RoundOn(ks, block, 3, 0xe9b5dba5, 0x00000000);
    RoundOn(ks, block, 4, 0x3956c25b, 0x00000000); RoundOn(ks, block, 5, 0x59f111f1, 0x00000000);
    RoundOn(ks, block, 6, 0x923f82a4, 0x00000000); RoundOn(ks, block, 7, 0xab1c5ed5, 0x00000000);
    RoundOn(ks, block, 8, 0xd807aa98, 0x00000000); RoundOn(ks, block, 9, 0x12835b01, 0x00000000);
    RoundOn(ks, block, 10, 0x243185be, 0x00000000); RoundOn(ks, block, 11, 0x550c7dc3, 0x00000000);
    RoundOn(ks, block, 12, 0x72be5d74, 0x00000000); RoundOn(ks, block, 13, 0x80deb1fe, 0x00000000);
    RoundOn(ks, block, 14, 0x9bdc06a7, 0x00000000); RoundOn(ks, block, 15, 0xc19bf174, 0x00000018);
  }

  lemma Through32(ks: seq<Word>, block: seq<Byte>)
    requires |block| == 64 && Known16(block) && |ks| == 64 && ks == K256
    requires Rounds(H256, ks, block, 16)
      == Regs(0xb0fa238e, 0xc0645fde, 0xd932eb16, 0x87912990, 0x07590dcd, 0x0b92f20c, 0x745a48de, 0x1e578218)
    ensures Rounds(H256, ks, block, 32)
      == Regs(0x73b33bf5, 0xea992a22, 0xa0060b30, 0x363482c9, 0xba591112, 0x0109ab3a, 0xade79437, 0x6112a3b7)
  {
    hide Rounds, Round, W;
    Constants16(ks);
    Rounds16();
    Rounds20();
    Rounds24();
    Rounds28();
    RoundOn(ks, block, 16, 0xe49b69c1, 0x61626380); RoundOn(ks, block, 17, 0xefbe4786, 0x000f0000);
    RoundOn(ks, block, 18, 0x0fc19dc6, 0x7da86405); RoundOn(ks, block, 19, 0x240ca1cc, 0x600003c6);
    RoundOn(ks, block, 20, 0x2de92c6f, 0x3e9d7b78); RoundOn(ks, block, 21, 0x4a7484aa, 0x0183fc00);
    RoundOn(ks, block, 22, 0x5cb0a9dc, 0x12dcbfdb); RoundOn(ks, block, 23, 0x76f988da, 0xe2e2c38e);
    RoundOn(ks, block, 24, 0x983e5152, 0xc8215c1a); RoundOn(ks, block, 25, 0xa831c66d, 0xb73679a2);
    RoundOn(ks, block, 26, 0xb00327c8, 0xe5bc3909); RoundOn(ks, block, 27, 0xbf597fc7, 0x32663c5b);
    RoundOn(ks, block, 28, 0xc6e00bf3, 0x9d209d67); RoundOn(ks, block, 29, 0xd5a79147, 0xec8726cb);
    RoundOn(ks, block, 30, 0x06ca6351, 0x702138a4); RoundOn(ks, block, 31, 0x14292967, 0xd3b7973b);
  }

  lemma Through48(ks: seq<Word>, block: seq<Byte>)
    requires |block| == 64 && Known32(block) && |ks| == 64 && ks == K256
    requires Rounds(H256, ks, block, 32)
      == Regs(0x73b33bf5, 0xea992a22, 0xa0060b30, 0x363482c9, 0xba591112, 0x0109ab3a, 0xade79437, 0x6112a3b7)
    ensures Rounds(H256, ks, block, 48)
      == Regs(0x4172328d, 0xa14c14b0, 0x72ab4b91, 0x26628815, 0xfecf0bc6, 0xd57b94a9, 0xb7755da1, 0xa80f11f0)
  {
    hide Rounds, Round, W;
    Constants32(ks);
    Rounds32();
    Rounds36();
    Rounds40();
    Rounds44();
    RoundOn(ks, block, 32, 0x27b70a85, 0x93f5997f); RoundOn(ks, block, 33, 0x2e1b2138, 0x3b68ba73);
    RoundOn(ks, block, 34, 0x4d2c6dfc, 0xaff4ffc1); RoundOn(ks, block, 35, 0x53380d13, 0xf10a5c62);
    RoundOn(ks, block, 36, 0x650a7354, 0x0a8b3996); RoundOn(ks, block, 37, 0x766a0abb, 0x72af830a);
    RoundOn(ks, block, 38, 0x81c2c92e, 0x9409e33e); RoundOn(ks, block, 39, 0x92722c85, 0x24641522);
    RoundOn(ks, block, 40, 0xa2bfe8a1, 0x9f47bf94); RoundOn(ks, block, 41, 0xa81a664b, 0xf0a64f5a);
    RoundOn(ks, block, 42, 0xc24b8b70, 0x3e246a79); RoundOn(ks, block, 43, 0xc76c51a3, 0x27333ba3);
    RoundOn(ks, block, 44, 0xd192e819, 0x0c4763f2); RoundOn(ks, block, 45, 0xd6990624, 0x840abf27);
    RoundOn(ks, block, 46, 0xf40e3585, 0x7a290d5d); RoundOn(ks, block, 47, 0x106aa070, 0x065c43da);
  }

  lemma Through64(ks: seq<Word>, block: seq<Byte>)
    requires |block| == 64 && Known48(block) && |ks| == 64 && ks == K256
    requires Rounds(H256, ks, block, 48)
      == Regs(0x4172328d, 0xa14c14b0, 0x72ab4b91, 0x26628815, 0xfecf0bc6, 0xd57b94a9, 0xb7755da1, 0xa80f11f0)
    ensures Rounds(H256, ks, block, 64)
      == Regs(0x506e3058, 0xd39a2165, 0x04d24d6c, 0xb85e2ce9, 0x5ef50f24, 0xfb121210, 0x948d25b6, 0x961f4894)
  {
    hide Rounds, Round, W;
    Constants48(ks);
    Rounds48();
    Rounds52();
    Rounds56();
    Rounds60();
    RoundOn(ks, block, 48, 0x19a4c116, 0xfb3e89cb); RoundOn(ks, block, 49, 0x1e376c08, 0xcc7617db);
    RoundOn(ks, block, 50, 0x2748774c, 0xb9e66c34); RoundOn(ks, block, 51, 0x34b0bcb5, 0xa9993667);
    RoundOn(ks, block, 52, 0x391c0cb3, 0x84badedd); RoundOn(ks, block, 53, 0x4ed8aa4a, 0xc21462bc);
    RoundOn(ks, block, 54, 0x5b9cca4f, 0x1487472c); RoundOn(ks, block, 55, 0x682e6ff3, 0xb20f7a99);
    RoundOn(ks, block, 56, 0x748f82ee, 0xef57b9cd); RoundOn(ks, block, 57, 0x78a5636f, 0xebe6b238);
    RoundOn(ks, block, 58, 0x84c87814, 0x9fe3095e); RoundOn(ks, block, 59, 0x8cc70208, 0x78bc8d4b);
    RoundOn(ks, block, 60, 0x90befffa, 0xa43fcf15); RoundOn(ks, block, 61, 0xa4506ceb, 0x668b2ff8);
    RoundOn(ks, block, 62, 0xbef9a3f7, 0xeeaba2cc); RoundOn(ks, block, 63, 0xc67178f2, 0x12b1edeb);
  }

  lemma Constants0(ks: seq<Word>)
    requires ks == K256
    ensures |ks| == 64
    ensures ks[0] == 0x428a2f98 && ks[1] == 0x71374491 && ks[2] == 0xb5c0fbcf && ks[3] == 0xe9b5dba5
    ensures ks[4] == 0x3956c25b && ks[5] == 0x59f111f1 && ks[6] == 0x923f82a4 && ks[7] == 0xab1c5ed5
    ensures ks[8] == 0xd807aa98 && ks[9] == 0x12835b01 && ks[10] == 0x243185be && ks[11] == 0x550c7dc3
    ensures ks[12] == 0x72be5d74 && ks[13] == 0x80deb1fe && ks[14] == 0x9bdc06a7 && ks[15] == 0xc19bf174
  {
  }

  lemma Constants16(ks: seq<Word>)
    requires ks == K256
    ensures |ks| == 64
    ensures ks[16] == 0xe49b69c1 && ks[17] == 0xefbe4786 && ks[18] == 0x0fc19dc6 && ks[19] == 0x240ca1cc
    ensures ks[20] == 0x2de92c6f && ks[21] == 0x4a7484aa && ks[22] == 0x5cb0a9dc && ks[23] == 0x76f988da
    ensures ks[24] == 0x983e5152 && ks[25] == 0xa831c66d && ks[26] == 0xb00327c8 && ks[27] == 0xbf597fc7
    ensures ks[28] == 0xc6e00bf3 && ks[29] == 0xd5a79147 && ks[30] == 0x06ca6351 && ks[31] == 0x14292967
  {
  }

  lemma Constants32(ks: seq<Word>)
    requires ks == K256
    ensures |ks| == 64
    ensures ks[32] == 0x27b70a85 && ks[33] == 0x2e1b2138 && ks[34] == 0x4d2c6dfc && ks[35] == 0x53380d13
    ensures ks[36] == 0x650a7354 && ks[37] == 0x766a0abb && ks[38] == 0x81c2c92e && ks[39] == 0x92722c85
    ensures ks[40] == 0xa2bfe8a1 && ks[41] == 0xa81a664b && ks[42] == 0xc24b8b70 && ks[43] == 0xc76c51a3
    ensures ks[44] == 0xd192e819 && ks[45] == 0xd6990624 && ks[46] == 0xf40e3585 && ks[47] == 0x106aa070
  {
  }

  lemma Constants48(ks: seq<Word>)
    requires ks == K256
    ensures |ks| == 64
    ensures ks[48] == 0x19a4c116 && ks[49] == 0x1e376c08 && ks[50] == 0x2748774c && ks[51] == 0x34b0bcb5
    ensures ks[52] == 0x391c0cb3 && ks[53] == 0x4ed8aa4a && ks[54] == 0x5b9cca4f && ks[55] == 0x682e6ff3
    ensures ks[56] == 0x748f82ee && ks[57] == 0x78a5636f && ks[58] == 0x84c87814 && ks[59] == 0x8cc70208
    ensures ks[60] == 0x90befffa && ks[61] == 0xa4506ceb && ks[62] == 0xbef9a3f7 && ks[63] == 0xc67178f2
  {
  }

  // ---- Output ----

  lemma Fed()
    ensures AddRegs(H256, Regs(0x506e3058, 0xd39a2165, 0x04d24d6c, 0xb85e2ce9, 0x5ef50f24, 0xfb121210, 0x948d25b6, 0x961f4894))
      == Regs(0xba7816bf, 0x8f01cfea, 0x414140de, 0x5dae2223, 0xb00361a3, 0x96177a9c, 0xb410ff61, 0xf20015ad)
  {
  }

  lemma Out0()
    ensures WordBytes(0xba7816bf) == [186, 120, 22, 191]
  {
    assert (0xba7816bf as bv32) as nat == 3128432319;
  }

  lemma Out1()
    ensures WordBytes(0x8f01cfea) == [143, 1, 207, 234]
  {
    assert (0x8f01cfea as bv32) as nat == 2399260650;
  }

  lemma Out2()
    ensures WordBytes(0x414140de) == [65, 65, 64, 222]
  {
    assert (0x414140de as bv32) as nat == 1094795486;
  }

  lemma Out3()
    ensures WordBytes(0x5dae2223) == [93, 174, 34, 35]
  {
    assert (0x5dae2223 as bv32) as nat == 1571693091;
  }

  lemma Out4()
    ensures WordBytes(0xb00361a3) == [176, 3, 97, 163]
  {
    assert (0xb00361a3 as bv32) as nat == 2953011619;
  }

  lemma Out5()
    ensures WordBytes(0x96177a9c) == [150, 23, 122, 156]
  {
    assert (0x96177a9c as bv32) as nat == 2518121116;
  }

  lemma Out6()
    ensures WordBytes(0xb410ff61) == [180, 16, 255, 97]
  {
    assert (0xb410ff61 as bv32) as nat == 3021012833;
  }

  lemma Out7()
    ensures WordBytes(0xf20015ad) == [242, 0, 21, 173]
  {
    assert (0xf20015ad as bv32) as nat == 4060091821;
  }

  /** The digest of "abc". */
  lemma AbcDigest()
    ensures |K256| == 64 && Digest(K256, ABC) == [
      186, 120, 22, 191, 143, 1, 207, 234, 65, 65, 64, 222, 93, 174, 34, 35,
      176, 3, 97, 163, 150, 23, 122, 156, 180, 16, 255, 97, 242, 0, 21, 173
    ]
  {
    hide Rounds, W, WordBytes, Chain, AddRegs, Pad, Known0, Known16, Known32, Known48;
    var ks, block := K256, BLOCK;
    AbcPadded();
    Constants0(ks);
    Words0(block);
    Words16(block);
    Words32(block);
    Words48(block);
    Through16(ks, block);
    Through32(ks, block);
    Through48(ks, block);
    Through64(ks, block);
    Fed();
    OneBlock(H256, ks, block);
    Out0(); Out1(); Out2(); Out3(); Out4(); Out5(); Out6(); Out7();
  }

  // ---- Blocks ----

  lemma OneBlock(r: Regs, ks: seq<Word>, p: seq<Byte>)
    requires |ks| == 64 && |p| == 64
    ensures Chain(r, ks, p) == Compress(r, ks, p)
  {
    assert p[..64] == p && p[64..] == [];
  }

  /** Hashing goes on from where the blocks before have led. */
  lemma {:induction false} ChainGoesOn(r: Regs, ks: seq<Word>, p: seq<Byte>, q: seq<Byte>)
    requires |ks| == 64 && |p| % 64 == 0 && |q| % 64 == 0
    ensures Chain(r, ks, p + q) == Chain(Chain(r, ks, p), ks, q)
    decreases |p|
  {
    hide Compress;
    if p == [] {
      assert p + q == q;
    } else {
      assert (p + q)[..64] == p[..64] && (p + q)[64..] == p[64..] + q;
      ChainGoesOn(Compress(r, ks, p[..64]), ks, p[64..], q);
    }
  }
}
