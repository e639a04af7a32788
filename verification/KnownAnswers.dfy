/** Published answers of the codecs and of the generator, which fix their constants and their order of digits. */
module KnownAnswers {
  import opened Arithmetic
  import opened BitStrings
  import opened Alphabets
  import BigEndian
  import Base91
  import Ascii85
  import BaseN
  import MersenneTwister
  import SeedWords

  // ---- Base91 ----

  /** One more byte above the pending bits, not yet enough for a group. */
  lemma Feeds(abc: string, p: Bits, y: Byte, rest: seq<Byte>) returns (q: Bits)
    requires |p| <= 5 && Base91.IsAlphabet(abc)
    ensures |q| == |p| + 8 && Val(q) == Val(p) + y * Pow(2, |p|)
    ensures Base91.EncodeFrom(abc, p, [y] + rest) == Base91.EncodeFrom(abc, q, rest)
  {
    hide Base91.IsAlphabet;
    q := p + ByteBits(y);
    ValAppend(p, ByteBits(y));
    ValOfByteBits(y);
    assert ([y] + rest)[1..] == rest;
  }

  /** One more byte that completes a group of 13 bits worth `v`, leaving the value `w` pending. */
  lemma Writes(abc: string, p: Bits, y: Byte, rest: seq<Byte>, v: nat, w: nat) returns (q: Bits)
    requires 6 <= |p| <= 13 && Base91.IsAlphabet(abc)
    requires Val(p) + y * Pow(2, |p|) == v + 8192 * w && 88 < v < 8192
    ensures |q| == |p| - 5 && Val(q) == w
    ensures Base91.EncodeFrom(abc, p, [y] + rest) == [abc[v % 91], abc[v / 91]] + Base91.EncodeFrom(abc, q, rest)
  {
    var all := p + ByteBits(y);
    q := all[13..];
    ValAppend(p, ByteBits(y));
    ValOfByteBits(y);
    hide Val, Pow, ByteBits;
    Pow8();
    ValCut(all, 13);
    DivModUnique(Val(all), 8192, w, v);
    assert ([y] + rest)[1..] == rest;
  }

  /** The four bytes of "test", over any alphabet. */
  lemma TestDigits(abc: string)
    requires Base91.IsAlphabet(abc)
    ensures Base91.Encode(abc, [116, 101, 115, 116]) == [abc[31], abc[15], abc[13], abc[10], abc[29]]
  {
    hide Val, Pow, Base91.EncodeFrom, Base91.IsAlphabet;
    SmallPowers();
    var p1 := Feeds(abc, [], 116, [101, 115, 116]);
    var p2 := Writes(abc, p1, 101, [115, 116], 1396, 3);
    var p3 := Feeds(abc, p2, 115, [116]);
    var p4 := Writes(abc, p3, 116, [], 923, 29);
    EndsWithOne(abc, p4);
    assert [116] + [101, 115, 116] == [116, 101, 115, 116];
    assert [101] + [115, 116] == [101, 115, 116];
    assert [115] + [116] == [115, 116];
    assert [116] + [] == [116];
  }

  lemma SmallPowers()
    ensures Pow(2, 0) == 1 && Pow(2, 3) == 8 && Pow(2, 8) == 256 && Pow(2, 11) == 2048 && Val([]) == 0
  {
    Pow8();
    assert Pow(2, 3) == 8;
    PowAdd(2, 3, 8);
  }

  lemma EndsWithOne(abc: string, p: Bits)
    requires |p| == 6 && Val(p) == 29 && Base91.IsAlphabet(abc)
    ensures Base91.EncodeFrom(abc, p, []) == [abc[29]]
  {
  }

  /** "test" is written "fPNKd". */
  lemma Base91Test()
    ensures Base91.IsAlphabet(BASE91) && Base91.Encode(BASE91, [116, 101, 115, 116]) == "fPNKd"
  {
    hide Base91.Encode, Distinct;
    Base91Distinct();
    TestDigits(BASE91);
    UpperSpan();
    assert BASE91[..26] == UPPER;
    assert BASE91[31] == LOWER[5] && BASE91[29] == LOWER[3];
  }

  // ---- ASCII85 and Base58 ----

  /** "Man " is written "9jqo^". */
  lemma Ascii85Man()
    ensures Ascii85.Encode([77, 97, 110, 32]) == "9jqo^"
  {
    var data := [77, 97, 110, 32];
    assert data[..4] == data && data[4..] == [];
    assert Ascii85.FiveDigits(1298230816) == [24, 73, 80, 78, 61];
    assert "9jqo^" + "" == "9jqo^";
  }

  /** 58 takes two digits, and the zero byte in front of it one more. */
  lemma Base58Carries()
    ensures BaseN.IsAlphabet(BASE58) && BaseN.Encode([0, 58], BASE58) == "121"
  {
    hide BaseN.Encode, BaseN.Value, BaseN.LeadingZeros, Distinct, IndexOf;
    Base58Distinct();
    assert BASE58[0] == '1' && BASE58[1] == '2';
    IndexOfSymbol(BASE58, 0);
    IndexOfSymbol(BASE58, 1);
    assert BaseN.FromBytes([0, 58]) == [0] + [58];
    assert BaseN.Indices("121", BASE58) == [0] + [1, 0];
    ZeroThen([58], 256);
    ZeroThen([1, 0], 58);
    TwoDigits(1, 0, 58);
    OneDigit(58, 256);
    BaseN.EncodeExactly([0, 58], BASE58, "121");
  }

  lemma ZeroThen(ds: seq<nat>, r: nat)
    requires ds != [] && ds[0] != 0
    ensures BaseN.Value([0] + ds, r) == BaseN.Value(ds, r) && BaseN.LeadingZeros([0] + ds) == 1
  {
    assert BaseN.Zeros(1) == [0];
    BaseN.ValueSkipsZeros(1, ds, r);
    BaseN.LeadingZerosOf(1, ds);
  }

  lemma OneDigit(a: nat, r: nat)
    ensures BaseN.Value([a], r) == a
  {
    assert [a][..0] == [];
  }

  lemma TwoDigits(a: nat, b: nat, r: nat)
    ensures BaseN.Value([a, b], r) == a * r + b
  {
    OneDigit(a, r);
    assert [a, b][..1] == [a];
  }

  // ---- MT19937 ----

  /** The first output for the seed 5489 is the tempered combination of words 397, 0 and 1 of its state. */
  lemma FirstOutput()
    ensures MersenneTwister.BaseWord(5489, 1) == 1301868182
    ensures MersenneTwister.Next(3183906156, 5489, 1301868182) == 2601187879
    ensures MersenneTwister.Temper(2601187879) == 3499211612
  {
  }

  /** Two rounds each of keying and finishing for the key 0x123, 0x234, 0x345, 0x456. */
  lemma KeyedRounds()
    ensures MersenneTwister.KeyWord(19650218, 2194844435, 0, 0x123) == 4287171284
    ensures MersenneTwister.KeyWord(4287171284, 874550967, 1, 0x234) == 2540085905
    ensures MersenneTwister.FinalWord(1400349479, 2540085905, 2) == 1371430253
    ensures MersenneTwister.FinalWord(1371430253, 567523720, 3) == 3559376401
  {
  }

  /** A limb and its machine word are the same number. */
  lemma WordInOrder()
    ensures SeedWords.ToWord(0x1234_5678) == 0x1234_5678
  {
    hide SeedWords.Bits;
    FourBytes();
  }

  lemma FourBytes()
    ensures SeedWords.Bits(0x12) == 0x12 && SeedWords.Bits(0x34) == 0x34
    ensures SeedWords.Bits(0x56) == 0x56 && SeedWords.Bits(0x78) == 0x78
  {
    LowBits(0x12, false, true, false, false, true, false, false, false);
    LowBits(0x34, false, false, true, false, true, true, false, false);
    LowBits(0x56, false, true, true, false, true, false, true, false);
    LowBits(0x78, false, false, false, true, true, true, true, false);
  }

  lemma LowBits(y: Byte, a: bool, b: bool, c: bool, d: bool, e: bool, f: bool, g: bool, h: bool)
    requires y == One(a) + 2 * One(b) + 4 * One(c) + 8 * One(d) + 16 * One(e) + 32 * One(f) + 64 * One(g) + 128 * One(h)
    ensures SeedWords.Bits(y) == SeedWords.Octet(a, b, c, d, e, f, g, h)
  {
    hide Val, BitsOf, Pow, SeedWords.Octet;
    var low, high := [a, b, c, d], [e, f, g, h];
    ValOfFour(a, b, c, d);
    ValOfFour(e, f, g, h);
    FourPower();
    ValAppend(low, high);
    BitsOfVal(low + high);
    assert low + high == [a, b, c, d, e, f, g, h];
  }

  lemma FourPower() ensures Pow(2, 4) == 16 {
  }

  function One(on: bool): nat { if on then 1 else 0 }

  lemma ValOfFour(a: bool, b: bool, c: bool, d: bool)
    ensures Val([a, b, c, d]) == One(a) + 2 * One(b) + 4 * One(c) + 8 * One(d)
  {
    assert [a, b, c, d][1..] == [b, c, d];
    assert [b, c, d][1..] == [c, d];
    assert [c, d][1..] == [d];
    assert [d][1..] == [];
    assert Val([d]) == One(d);
    assert Val([c, d]) == One(c) + 2 * One(d);
  }
}
