/** Numbers as bit strings, least significant bit first. */
module BitStrings {
  import opened Arithmetic

  type Bits = seq<bool>

  function Val(s: Bits): nat {
    if s == [] then 0 else (if s[0] then 1 else 0) + 2 * Val(s[1..])
  }

  /** The lowest `n` bits of `x`. */
  function BitsOf(x: nat, n: nat): (s: Bits)
    ensures |s| == n
  {
    if n == 0 then [] else [x % 2 == 1] + BitsOf(x / 2, n - 1)
  }

  lemma {:induction false} ValBound(s: Bits)
    ensures Val(s) < Pow(2, |s|)
  {
    if s != [] {
      ValBound(s[1..]);
    }
  }

  lemma {:induction false} ValAppend(s: Bits, t: Bits)
    ensures Val(s + t) == Val(s) + Val(t) * Pow(2, |s|)
  {
    if s == [] {
      assert s + t == t;
    } else {
      ValAppend(s[1..], t);
      assert (s + t)[1..] == s[1..] + t;
      assert Val(t) * (2 * Pow(2, |s| - 1)) == 2 * (Val(t) * Pow(2, |s| - 1));
    }
  }

  lemma {:induction false} BitsOfVal(s: Bits)
    ensures BitsOf(Val(s), |s|) == s
  {
    if s != [] {
      BitsOfVal(s[1..]);
    }
  }

  lemma {:induction false} ValBitsOf(x: nat, n: nat)
    requires x < Pow(2, n)
    ensures Val(BitsOf(x, n)) == x
  {
    if n > 0 {
      ValBitsOf(x / 2, n - 1);
    }
  }

  /** The extra high bits of a number written wider than needed are all zero. */
  lemma {:induction false} BitsOfWider(s: Bits, n: nat)
    requires |s| <= n
    ensures BitsOf(Val(s), n) == s + seq(n - |s|, _ => false)
  {
    if s != [] {
      BitsOfWider(s[1..], n - 1);
      assert Val(s) / 2 == Val(s[1..]) && (Val(s) % 2 == 1) == s[0];
      assert [s[0]] + (s[1..] + seq(n - |s|, _ => false)) == s + seq(n - |s|, _ => false);
    } else if n > 0 {
      BitsOfWider([], n - 1);
      assert [false] + seq(n - 1, _ => false) == seq(n, _ => false);
    }
  }

  /** Cutting a bit string is division by a power of two. */
  lemma ValCut(s: Bits, k: nat)
    requires k <= |s|
    ensures Pow(2, k) > 0 && Val(s[..k]) == Val(s) % Pow(2, k) && Val(s[k..]) == Val(s) / Pow(2, k)
  {
    PowPositive(2, k);
    ValBound(s[..k]);
    ValAppend(s[..k], s[k..]);
    assert s == s[..k] + s[k..];
    DivModUnique(Val(s), Pow(2, k), Val(s[k..]), Val(s[..k]));
  }

  /** `x | y << n` where `x` is the value of an `n`-bit string and `y` fits `w` bits. */
  lemma OrAppends(s: Bits, y: nat, w: nat)
    requires y < Pow(2, w)
    ensures Or(Val(s), Shl(y, |s|)) == Val(s + BitsOf(y, w))
  {
    ValBound(s);
    OrDisjoint(Val(s), y, |s|);
    ValAppend(s, BitsOf(y, w));
    ValBitsOf(y, w);
  }

  // ---- Whole bytes ----

  function ByteBits(y: Byte): (s: Bits)
    ensures |s| == 8
  {
    BitsOf(y, 8)
  }

  /** The bytes held by the leading whole groups of eight bits. */
  function BytesIn(s: Bits): seq<Byte> {
    if |s| < 8 then [] else
      ValBound(s[..8]);
      Pow8();
      [Val(s[..8])] + BytesIn(s[8..])
  }

  lemma Pow8()
    ensures Pow(2, 6) == 64 && Pow(2, 7) == 128 && Pow(2, 8) == 256 && Pow(2, 13) == 8192 && Pow(2, 14) == 16384
  {
    assert Pow(2, 4) == 16;
    PowAdd(2, 4, 2);
    PowAdd(2, 4, 3);
    PowAdd(2, 4, 4);
    assert Pow(2, 5) == 32;
    PowAdd(2, 8, 5);
    PowAdd(2, 8, 6);
  }

  /** What is left after the whole bytes. */
  function Leftover(s: Bits): (r: Bits)
    ensures |r| <= 7
  {
    if |s| < 8 then s else Leftover(s[8..])
  }

  /** How much is left of at most two whole bytes and a part. */
  lemma LeftoverLength(s: Bits)
    requires |s| <= 23
    ensures |Leftover(s)| == if |s| < 8 then |s| else if |s| < 16 then |s| - 8 else |s| - 16
  {
    if |s| >= 8 {
      assert Leftover(s) == Leftover(s[8..]);
    }
  }

  lemma WholeBytes(s: Bits)
    requires |s| == 0 || |s| == 8 || |s| == 16
    ensures Leftover(s) == []
  {
    LeftoverLength(s);
  }

  lemma {:induction false} BytesAppend(s: Bits, t: Bits)
    ensures BytesIn(s + t) == BytesIn(s) + BytesIn(Leftover(s) + t)
    decreases |s|
  {
    hide Val;
    if |s| >= 8 {
      assert (s + t)[..8] == s[..8];
      assert (s + t)[8..] == s[8..] + t;
      BytesAppend(s[8..], t);
    }
  }

  /** Eight bits of value `y` after whole bytes are the byte `y` after those. */
  lemma BytesSnoc(s: Bits, t: Bits, y: Byte)
    requires Leftover(s) == [] && |t| == 8 && Val(t) == y
    ensures BytesIn(s + t) == BytesIn(s) + [y]
  {
    hide Leftover;
    BytesAppend(s, t);
    assert [] + t == t;
    assert t[..8] == t;
    assert BytesIn(t) == [y] + BytesIn(t[8..]);
  }

  /** Bits that do not complete a byte add none. */
  lemma BytesIgnorePartial(s: Bits, t: Bits)
    requires Leftover(s) == [] && |t| < 8
    ensures BytesIn(s + t) == BytesIn(s)
  {
    hide Leftover;
    BytesAppend(s, t);
    assert [] + t == t;
  }

  lemma ValOfByteBits(y: Byte)
    ensures Val(ByteBits(y)) == y
  {
    Pow8();
    ValBitsOf(y, 8);
  }

  /** The lowest byte of a number and what is left above it. */
  lemma CutByte(p: Bits)
    requires |p| >= 8
    ensures Val(p) % 256 == Val(p[..8]) && Val(p) / 256 == Val(p[8..])
  {
    Pow8();
    ValCut(p, 8);
  }

  lemma TakeByte(p: Bits)
    requires |p| >= 8
    ensures BytesIn(p) == [Val(p) % 256] + BytesIn(p[8..]) && Leftover(p) == Leftover(p[8..])
  {
    hide Val;
    CutByte(p);
  }

  lemma ShortBits(p: Bits)
    requires |p| <= 7
    ensures BytesIn(p) == [] && Leftover(p) == p && (p == [] ==> Val(p) == 0)
  {
  }

  lemma Assoc(s: Bits, t: Bits, u: Bits)
    ensures s + (t + u) == (s + t) + u
  {
  }
}
