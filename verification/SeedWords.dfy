/**
 * The 32-bit words a string seed is cut into: the bytes, read as one big-endian integer,
 * in limbs from the least significant up, as CPython feeds them to MT19937.
 */
module SeedWords {
  import opened Arithmetic
  import opened BaseN
  import BigEndian
  import BitStrings
  import MersenneSeeding
  import opened MersenneTwister

  const LIMB: nat := 0x1_0000_0000

  /** Byte `p` of the integer counted from its least significant end; zero past the top. */
  function LittleByte(total: seq<Byte>, p: nat): Byte {
    if p < |total| then total[|total| - 1 - p] else 0
  }

  function Limb(total: seq<Byte>, i: nat): (w: nat)
    ensures w < LIMB
  {
    LittleByte(total, 4 * i) + 0x100 * LittleByte(total, 4 * i + 1) + 0x1_0000 * LittleByte(total, 4 * i + 2)
      + 0x100_0000 * LittleByte(total, 4 * i + 3)
  }

  function Limbs(total: seq<Byte>): (words: seq<nat>)
    ensures DigitsBelow(words, LIMB)
    ensures |words| == (|total| + 3) / 4
  {
    if |total| <= 4 then (if total == [] then [] else [Limb(total, 0)])
    else [Limb(total, 0)] + Limbs(total[..|total| - 4])
  }

  lemma {:induction false} LimbAt(total: seq<Byte>, i: nat)
    requires i < (|total| + 3) / 4
    ensures Limbs(total)[i] == Limb(total, i)
  {
    if |total| > 4 && i > 0 {
      LimbAt(total[..|total| - 4], i - 1);
    }
  }

  lemma ValueOfFront(ds: seq<nat>, r: nat)
    requires ds != []
    ensures Value(ds, r) == Value(ds[..|ds| - 1], r) * r + ds[|ds| - 1]
  {
  }

  /** The last four digits of a byte string in base 256. */
  lemma FourDigits(ds: seq<nat>)
    requires |ds| >= 4
    ensures Value(ds, 256) == Value(ds[..|ds| - 4], 256) * LIMB
      + (ds[|ds| - 4] * 0x100_0000 + ds[|ds| - 3] * 0x1_0000 + ds[|ds| - 2] * 0x100 + ds[|ds| - 1])
  {
    hide Value;
    var n := |ds|;
    ValueOfFront(ds, 256);
    ValueOfFront(ds[..n - 1], 256);
    ValueOfFront(ds[..n - 2], 256);
    ValueOfFront(ds[..n - 3], 256);
    assert ds[..n - 1][..n - 2] == ds[..n - 2] && ds[..n - 2][..n - 3] == ds[..n - 3] && ds[..n - 3][..n - 4] == ds[..n - 4];
  }

  /** Fewer than four bytes are worth the same with zeros in front. */
  lemma PaddedLimb(total: seq<Byte>)
    requires |total| <= 4
    ensures Value(FromBytes(total), 256) == Limb(total, 0)
  {
    hide Value, LittleByte;
    var ds := FromBytes(total);
    var all := Zeros(4 - |ds|) + ds;
    ValueSkipsZeros(4 - |ds|, ds, 256);
    FourDigits(all);
    NoDigits(all[..0]);
    PaddedLittle(total, all);
  }

  lemma LastFour(total: seq<Byte>)
    requires |total| >= 4
    ensures var ds := FromBytes(total); var n := |ds|;
      Limb(total, 0) == ds[n - 4] * 0x100_0000 + ds[n - 3] * 0x1_0000 + ds[n - 2] * 0x100 + ds[n - 1]
  {
  }

  lemma NoDigits(ds: seq<nat>)
    requires ds == []
    ensures Value(ds, 256) == 0 && Value(ds, LIMB) == 0
  {
  }

  lemma PaddedLittle(total: seq<Byte>, all: seq<nat>)
    requires |total| <= 4 && all == Zeros(4 - |total|) + FromBytes(total)
    ensures |all| == 4 && LittleByte(total, 0) == all[3] && LittleByte(total, 1) == all[2]
    ensures LittleByte(total, 2) == all[1] && LittleByte(total, 3) == all[0]
  {
  }

  /** The limbs, most significant first, are digits of the same integer in base 2^32. */
  lemma {:induction false} LimbsAreInteger(total: seq<Byte>)
    ensures Value(Reversed(Limbs(total)), LIMB) == Value(FromBytes(total), 256)
  {
    hide Value, Limb;
    var words, ds := Limbs(total), FromBytes(total);
    if |total| <= 4 {
      PaddedLimb(total);
      NoDigits(ds[..0]);
      if total != [] {
        assert Reversed(words)[..0] == [];
        ValueOfFront(Reversed(words), LIMB);
      }
    } else {
      ValueOfFront(Reversed(words), LIMB);
      LastFour(total);
      var front := total[..|total| - 4];
      LimbsAreInteger(front);
      FourDigits(ds);
      assert ds[..|ds| - 4] == FromBytes(front);
      assert Reversed(words)[..|words| - 1] == Reversed(Limbs(front));
    }
  }

  /** The bytes the topmost limb is made of. */
  function TopBytes(total: seq<Byte>): seq<Byte>
    requires total != []
  {
    total[..1 + (|total| - 1) % 4]
  }

  lemma {:induction false} TopLimb(total: seq<Byte>)
    requires total != []
    ensures Limbs(total)[|Limbs(total)| - 1] == 0 <==> forall i :: 0 <= i < |TopBytes(total)| ==> TopBytes(total)[i] == 0
  {
    if |total| > 4 {
      var front := total[..|total| - 4];
      TopLimb(front);
      assert (|total| - 1) % 4 == (|front| - 1) % 4;
      assert TopBytes(total) == TopBytes(front);
    } else {
      assert TopBytes(total) == total;
      forall p | 0 <= p < |total| ensures LittleByte(total, p) == total[|total| - 1 - p] {
      }
      if Limb(total, 0) == 0 {
        forall i | 0 <= i < |total| ensures total[i] == 0 {
          assert LittleByte(total, |total| - 1 - i) == total[i];
        }
      }
    }
  }

  /**
   * The words are the integer's own 32-bit limbs, as CPython takes them, exactly when there is one word only or
   * the bytes of the top word are not all zero; otherwise the source passes surplus zero words.
   */
  lemma MatchesCPython(total: seq<Byte>)
    requires total != []
    ensures Limbs(total) == CPythonLimbs(Value(FromBytes(total), 256))
      <==> |total| <= 4 || exists i :: 0 <= i < |TopBytes(total)| && TopBytes(total)[i] != 0
  {
    hide Value, Limbs;
    LimbsAreInteger(total);
    TopLimb(total);
    var limbs := Limbs(total);
    var top := Reversed(limbs);
    assert top[0] == limbs[|limbs| - 1];
    if top[0] != 0 {
      DigitsOfValue(top, LIMB);
      assert Reversed(top) == limbs;
    } else if |total| <= 4 {
      OneLimb(limbs);
    }
  }

  /** The key CPython seeds with: the integer's limbs, least significant first, and one zero word for zero. */
  function CPythonLimbs(v: nat): (words: seq<nat>)
    ensures words != [] && DigitsBelow(words, LIMB)
    ensures v > 0 ==> words[|words| - 1] != 0
  {
    if v == 0 then [0] else Reversed(Digits(v, LIMB))
  }

  lemma OneLimb(limbs: seq<nat>)
    requires |limbs| == 1 && limbs[0] == 0
    ensures Value(Reversed(limbs), LIMB) == 0 && limbs == [0]
  {
    assert Reversed(limbs)[..0] == [];
  }

  /** A seed that starts with a zero word: four zero bytes, then 64 more of any kind, give one word too many. */
  lemma SurplusWord(rest: seq<Byte>)
    requires |rest| == 64
    ensures var total := [0, 0, 0, 0] + rest;
      Limbs(total) != CPythonLimbs(Value(FromBytes(total), 256))
  {
    MatchesCPython([0, 0, 0, 0] + rest);
  }

  /** The source's word loop: four bytes at a time from the end, or-ed in at 8-bit steps. */
  method KeyWords(total: seq<Byte>) returns (words: seq<nat>)
    ensures words == Limbs(total)
  {
    var n := (|total| + 3) / 4;
    words := [];
    for i := 0 to n
      invariant |words| == i && forall j :: 0 <= j < i ==> words[j] == Limb(total, j)
    {
      var word := 0;
      for k := 0 to 4
        invariant word == LowLimb(total, i, k)
      {
        var idx := |total| - 1 - (i * 4 + k);
        var byte := if idx >= 0 then total[idx] else 0;
        OrByte(total, i, k);
        word := Or(word, Shl(byte, 8 * k));
      }
      words := words + [word];
    }
    forall j | 0 <= j < n ensures words[j] == Limbs(total)[j] {
      LimbAt(total, j);
    }
  }

  /** The lowest `k` bytes of limb `i`. */
  function LowLimb(total: seq<Byte>, i: nat, k: nat): nat
    requires k <= 4
  {
    (if k > 0 then LittleByte(total, 4 * i) else 0)
    + (if k > 1 then 0x100 * LittleByte(total, 4 * i + 1) else 0)
    + (if k > 2 then 0x1_0000 * LittleByte(total, 4 * i + 2) else 0)
    + (if k > 3 then 0x100_0000 * LittleByte(total, 4 * i + 3) else 0)
  }

  lemma BytePowers()
    ensures Pow(2, 0) == 1 && Pow(2, 8) == 0x100 && Pow(2, 16) == 0x1_0000 && Pow(2, 24) == 0x100_0000
  {
    assert Pow(2, 4) == 16;
    PowAdd(2, 4, 4);
    PowAdd(2, 8, 8);
    PowAdd(2, 16, 8);
  }

  lemma OrByte(total: seq<Byte>, i: nat, k: nat)
    requires k < 4
    ensures Or(LowLimb(total, i, k), Shl(LittleByte(total, 4 * i + k), 8 * k)) == LowLimb(total, i, k + 1)
  {
    hide Or, Pow;
    BytePowers();
    OrDisjoint(LowLimb(total, i, k), LittleByte(total, 4 * i + k), 8 * k);
  }

  // ---- Seeding the generator ----

  function Words(limbs: seq<nat>): (words: seq<Word>)
    requires DigitsBelow(limbs, LIMB)
    ensures |words| == |limbs|
  {
    seq(|limbs|, i requires 0 <= i < |limbs| => ToWord(limbs[i]))
  }

  /** The machine word whose bytes are those of the limb. */
  function ToWord(limb: nat): Word {
    var b := BigEndian.Be32(limb);
    Packed(Bits(b[0]), Bits(b[1]), Bits(b[2]), Bits(b[3]))
  }

  function Bits(b: Byte): bv8 {
    var s := BitStrings.ByteBits(b);
    Octet(s[0], s[1], s[2], s[3], s[4], s[5], s[6], s[7])
  }

  /** Eight bits, the lowest first. */
  function Octet(a: bool, b: bool, c: bool, d: bool, e: bool, f: bool, g: bool, h: bool): bv8 {
    Flag(a, 1) | Flag(b, 2) | Flag(c, 4) | Flag(d, 8) | Flag(e, 16) | Flag(f, 32) | Flag(g, 64) | Flag(h, 128)
  }

  function Flag(on: bool, w: bv8): bv8 { if on then w else 0 }

  function Packed(a: bv8, b: bv8, c: bv8, d: bv8): Word {
    (a as Word << 24) | (b as Word << 16) | (c as Word << 8) | d as Word
  }

  /** The source's `fromStringSeed` from its seed bytes on; the generator is CPython's whenever the words are. */
  method FromSeedBytes(total: seq<Byte>) returns (g: MT19937)
    requires total != []
    ensures fresh(g) && fresh(g.mt) && g.Valid() && g.drawn == 0
    ensures g.seed == SeedState(Words(Limbs(total)))
    ensures |total| <= 4 || (exists i :: 0 <= i < |TopBytes(total)| && TopBytes(total)[i] != 0) ==>
              g.seed == SeedState(Words(CPythonLimbs(Value(FromBytes(total), 256))))
  {
    hide Value, CPythonLimbs, SeedState, TopBytes;
    var words := KeyWords(total);
    g := new MT19937(Words(words));
    MatchesCPython(total);
  }

  // ---- Different bytes, different generators ----

  lemma LimbKeepsBytes(x: seq<Byte>, y: seq<Byte>, i: nat)
    requires Limb(x, i) == Limb(y, i)
    ensures LittleByte(x, 4 * i) == LittleByte(y, 4 * i) && LittleByte(x, 4 * i + 1) == LittleByte(y, 4 * i + 1)
    ensures LittleByte(x, 4 * i + 2) == LittleByte(y, 4 * i + 2) && LittleByte(x, 4 * i + 3) == LittleByte(y, 4 * i + 3)
  {
    hide LittleByte, BigEndian.WordOf;
    LimbIsWord(x, i);
    LimbIsWord(y, i);
    var p := 4 * i;
    BigEndian.BytesOfWord(LittleByte(x, p + 3), LittleByte(x, p + 2), LittleByte(x, p + 1), LittleByte(x, p));
    BigEndian.BytesOfWord(LittleByte(y, p + 3), LittleByte(y, p + 2), LittleByte(y, p + 1), LittleByte(y, p));
    FourSame(LittleByte(x, p + 3), LittleByte(x, p + 2), LittleByte(x, p + 1), LittleByte(x, p),
             LittleByte(y, p + 3), LittleByte(y, p + 2), LittleByte(y, p + 1), LittleByte(y, p));
  }

  lemma FourSame(a: Byte, b: Byte, c: Byte, d: Byte, a': Byte, b': Byte, c': Byte, d': Byte)
    requires [a, b, c, d] == [a', b', c', d']
    ensures a == a' && b == b' && c == c' && d == d'
  {
    var s, t := [a, b, c, d], [a', b', c', d'];
    assert s[0] == t[0] && s[1] == t[1] && s[2] == t[2] && s[3] == t[3];
  }

  lemma LimbIsWord(total: seq<Byte>, i: nat)
    ensures var p := 4 * i;
      Limb(total, i) == BigEndian.WordOf(LittleByte(total, p + 3), LittleByte(total, p + 2), LittleByte(total, p + 1), LittleByte(total, p))
  {
    hide LittleByte;
  }

  lemma LimbsKeepBytes(x: seq<Byte>, y: seq<Byte>)
    requires |x| == |y| && Limbs(x) == Limbs(y)
    ensures x == y
  {
    hide Limb, Limbs;
    forall q | 0 <= q < |x| ensures x[q] == y[q] {
      var p := |x| - 1 - q;
      var i := p / 4;
      LimbAt(x, i);
      LimbAt(y, i);
      LimbKeepsBytes(x, y, i);
      assert p == 4 * i + p % 4 && LittleByte(x, p) == x[q] && LittleByte(y, p) == y[q];
    }
  }

  lemma WordKeepsLimb(a: nat, b: nat)
    requires a < LIMB && b < LIMB && ToWord(a) == ToWord(b)
    ensures a == b
  {
    hide Packed, Bits, BigEndian.Be32;
    var p, q := BigEndian.Be32(a), BigEndian.Be32(b);
    PackedKeeps(Bits(p[0]), Bits(p[1]), Bits(p[2]), Bits(p[3]), Bits(q[0]), Bits(q[1]), Bits(q[2]), Bits(q[3]));
    BitsKeep(p[0], q[0]);
    BitsKeep(p[1], q[1]);
    BitsKeep(p[2], q[2]);
    BitsKeep(p[3], q[3]);
    BigEndian.Be32Injective(a, b);
  }

  lemma BitsKeep(a: Byte, b: Byte)
    requires Bits(a) == Bits(b)
    ensures a == b
  {
    hide Octet, BitStrings.ByteBits, BitStrings.Val;
    var s, t := BitStrings.ByteBits(a), BitStrings.ByteBits(b);
    OctetKeeps(s[0], s[1], s[2], s[3], s[4], s[5], s[6], s[7], t[0], t[1], t[2], t[3], t[4], t[5], t[6], t[7]);
    assert s == t;
    BitStrings.ValOfByteBits(a);
    BitStrings.ValOfByteBits(b);
  }

  lemma OctetKeeps(a: bool, b: bool, c: bool, d: bool, e: bool, f: bool, g: bool, h: bool,
      a': bool, b': bool, c': bool, d': bool, e': bool, f': bool, g': bool, h': bool)
    requires Octet(a, b, c, d, e, f, g, h) == Octet(a', b', c', d', e', f', g', h')
    ensures a == a' && b == b' && c == c' && d == d' && e == e' && f == f' && g == g' && h == h'
  {
  }

  lemma PackedKeeps(a: bv8, b: bv8, c: bv8, d: bv8, a': bv8, b': bv8, c': bv8, d': bv8)
    requires Packed(a, b, c, d) == Packed(a', b', c', d')
    ensures a == a' && b == b' && c == c' && d == d'
  {
  }

  lemma WordsKeepLimbs(a: seq<nat>, b: seq<nat>)
    requires DigitsBelow(a, LIMB) && DigitsBelow(b, LIMB) && Words(a) == Words(b)
    ensures a == b
  {
    hide ToWord;
    assert |Words(a)| == |Words(b)|;
    forall i | 0 <= i < |a| ensures a[i] == b[i] {
      assert Words(a)[i] == Words(b)[i];
      WordKeepsLimb(a[i], b[i]);
    }
  }

  /** Different seed bytes of the same length, up to 2484 of them, start different generators. */
  lemma SeedsDiffer(x: seq<Byte>, y: seq<Byte>)
    requires 0 < |x| == |y| <= 2484 && SeedState(Words(Limbs(x))) == SeedState(Words(Limbs(y)))
    ensures x == y
  {
    hide SeedState, Words, Limb;
    MersenneSeeding.SeedingKeepsKey(Words(Limbs(x)), Words(Limbs(y)));
    WordsKeepLimbs(Limbs(x), Limbs(y));
    LimbsKeepBytes(x, y);
  }
}
