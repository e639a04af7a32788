/**
 * Base91: a bit stream cut into groups of 13 or 14 bits, each written as two digits in base 91.
 * The specification works on bit strings; the methods are the codec's own loops on integers.
 */
module Base91 {
  import opened Arithmetic
  import opened BitStrings
  import opened Alphabets
  import opened Outcomes

  // ---- Specification, over any alphabet of 91 distinct characters ----

  predicate IsAlphabet(abc: string) {
    |abc| == 91 && Distinct(abc)
  }

  function TwoSymbols(abc: string, v: nat): string
    requires IsAlphabet(abc) && v < 91 * 91
  {
    [abc[v % 91], abc[v / 91]]
  }

  /** 13 bits when they are worth more than 88, otherwise 14: the value then stays below 91 * 91. */
  function Width(v: nat): (w: nat)
    ensures w == 13 || w == 14
  {
    if v % 8192 > 88 then 13 else 14
  }

  function Tail(abc: string, p: Bits): string
    requires IsAlphabet(abc) && |p| <= 13
  {
    TailFits(p);
    if p == [] then ""
    else if |p| > 7 || Val(p) > 90 then TwoSymbols(abc, Val(p))
    else [abc[Val(p)]]
  }

  /** The text that remains to be written when the bits `p` are pending and `data` is unread. */
  function EncodeFrom(abc: string, p: Bits, data: seq<Byte>): string
    requires IsAlphabet(abc) && |p| <= 13
    decreases |data|
  {
    if data == [] then Tail(abc, p)
    else
      var q := p + ByteBits(data[0]);
      if |q| <= 13 then EncodeFrom(abc, q, data[1..])
      else
        GroupFits(q);
        var w := Width(Val(q));
        TwoSymbols(abc, Val(q[..w])) + EncodeFrom(abc, q[w..], data[1..])
  }

  function Encode(abc: string, data: seq<Byte>): string
    requires IsAlphabet(abc)
  {
    EncodeFrom(abc, [], data)
  }

  /** A result with bytes already written put in front. */
  function Prefixed(out: seq<Byte>, r: Result<seq<Byte>>): Result<seq<Byte>> {
    match r
    case Err(e) => Err(e)
    case Ok(rest) => Ok(out + rest)
  }

  lemma PrefixedTwice(a: seq<Byte>, b: seq<Byte>, r: Result<seq<Byte>>)
    ensures Prefixed([], r) == r && Prefixed(a, Prefixed(b, r)) == Prefixed(a + b, r)
  {
    if r.Ok? {
      assert [] + r.value == r.value && a + (b + r.value) == (a + b) + r.value;
    }
  }

  /** Decoding with bits `p` pending, and a first digit `v` waiting for its partner when `v >= 0`. */
  function DecodeFrom(abc: string, v: int, p: Bits, text: string): Result<seq<Byte>>
    requires IsAlphabet(abc) && -1 <= v < 91 && |p| <= 7
    decreases |text|
  {
    if text == "" then
      Ok(if v < 0 then [] else [LowByte(p, v)])
    else
      var c := IndexOf(abc, text[0]);
      if c < 0 then Err(InvalidChar(text[0]))
      else if v < 0 then DecodeFrom(abc, c, p, text[1..])
      else
        var q := Grown(p, v + c * 91);
        Prefixed(BytesIn(q), DecodeFrom(abc, -1, Leftover(q), text[1..]))
  }

  /** The pending bits with a decoded group above them. */
  function Grown(p: Bits, v: nat): (q: Bits)
    ensures |q| == |p| + Width(v)
  {
    p + BitsOf(v, Width(v))
  }

  /** The byte formed by the pending bits and the low bits of a lone last digit. */
  function LowByte(p: Bits, v: nat): Byte
    requires |p| <= 7
  {
    var q := p + BitsOf(v, 8);
    ByteFits(q[..8]);
    Val(q[..8])
  }

  function Decode(abc: string, text: string): Result<seq<Byte>>
    requires IsAlphabet(abc)
  {
    DecodeFrom(abc, -1, [], text)
  }

  // ---- Bounds ----

  lemma ByteFits(s: Bits)
    requires |s| == 8
    ensures Val(s) < 256
  {
    Pow8();
    ValBound(s);
  }

  lemma ValBelow(p: Bits, n: nat)
    requires |p| <= n
    ensures Val(p) < Pow(2, n)
  {
    ValBound(p);
    PowAdd(2, |p|, n - |p|);
    PowPositive(2, n - |p|);
    MulMono(1, Pow(2, n - |p|), Pow(2, |p|));
  }

  lemma TailFits(p: Bits)
    requires |p| <= 13
    ensures Val(p) < 8192 && (|p| <= 7 ==> Val(p) < 128) && (|p| <= 6 ==> Val(p) < 64)
  {
    Pow8();
    ValBelow(p, 13);
    if |p| <= 7 { ValBelow(p, 7); }
    if |p| <= 6 { ValBelow(p, 6); }
  }

  /** A full buffer yields a group below 91 * 91, from which the same width is read back. */
  lemma GroupFits(q: Bits)
    requires |q| >= 14
    ensures var w := Width(Val(q)); Val(q[..w]) < 91 * 91 && Width(Val(q[..w])) == w
  {
    hide Val, BytesIn;
    CutGroup(q);
    var v := Val(q);
    assert (v % 16384) % 8192 == v % 8192;
  }

  /** A group takes the 14th bit exactly when it then still stays below 91 * 91 with that bit set. */
  lemma WidestGroup(q: Bits)
    requires |q| >= 14
    ensures Width(Val(q)) == 14 <==> Val(q[..13] + [true]) < 91 * 91
  {
    hide Val, BytesIn;
    Pow8();
    ValCut(q, 13);
    ValAppend(q[..13], [true]);
    assert Val([true]) == 1 by {
      SingleBit();
    }
  }

  lemma SingleBit() ensures Val([true]) == 1 {
    assert Val([true][1..]) == 0;
  }

  lemma GroupInWidth(v: nat)
    requires v < 91 * 91
    ensures v < Pow(2, Width(v))
  {
    Pow8();
  }

  // ---- Round trip ----

  /** The decoder reads a group's two digits back as the group. */
  lemma DecodesGroup(abc: string, p: Bits, v: nat, rest: string)
    requires IsAlphabet(abc) && |p| <= 7 && v < 91 * 91
    ensures DecodeFrom(abc, -1, p, TwoSymbols(abc, v) + rest)
      == Prefixed(BytesIn(Grown(p, v)), DecodeFrom(abc, -1, Leftover(Grown(p, v)), rest))
  {
    hide BytesIn, Leftover, Grown, IndexOf;
    IndexOfSymbol(abc, v % 91);
    IndexOfSymbol(abc, v / 91);
    var text := TwoSymbols(abc, v) + rest;
    assert text[1..] == [abc[v / 91]] + rest;
    assert text[1..][1..] == rest;
    assert v % 91 + v / 91 * 91 == v;
    assert DecodeFrom(abc, -1, p, text) == DecodeFrom(abc, v % 91, p, text[1..]);
  }

  /** The decoder's pending bits and the encoder's make up whole bytes: none, one or two. */
  predicate InFlight(pd: Bits, pe: Bits) {
    |pd| + |pe| == 0 || |pd| + |pe| == 8 || |pd| + |pe| == 16
  }

  /** Pending bits written into a wider field that still completes no further byte. */
  lemma WidenedTail(pd: Bits, pe: Bits, w: nat)
    requires InFlight(pd, pe) && |pe| <= w < |pe| + 8
    ensures BytesIn(pd + BitsOf(Val(pe), w)) == BytesIn(pd + pe)
  {
    hide BitsOf, Val, BytesIn, Leftover;
    var zeros := seq(w - |pe|, _ => false);
    BitsOfWider(pe, w);
    Assoc(pd, pe, zeros);
    WholeBytes(pd + pe);
    BytesIgnorePartial(pd + pe, zeros);
  }

  lemma DecodesNothing(abc: string, p: Bits)
    requires IsAlphabet(abc) && |p| <= 7
    ensures DecodeFrom(abc, -1, p, "") == Ok([])
  {
  }

  /** The last bits, when written as two digits. */
  lemma LongTailDecodes(abc: string, pe: Bits, pd: Bits)
    requires IsAlphabet(abc) && |pe| <= 13 && |pd| <= 7 && InFlight(pd, pe)
    requires |pe| > 7 || Val(pe) > 90
    ensures Val(pe) < 91 * 91
    ensures DecodeFrom(abc, -1, pd, TwoSymbols(abc, Val(pe))) == Ok(BytesIn(pd + pe))
  {
    hide BitsOf, BytesIn, Val, DecodeFrom, Leftover, IsAlphabet;
    TailFits(pe);
    var v := Val(pe);
    DecodesGroup(abc, pd, v, "");
    DecodesNothing(abc, Leftover(Grown(pd, v)));
    assert TwoSymbols(abc, v) + "" == TwoSymbols(abc, v);
    WidenedTail(pd, pe, Width(v));
    assert BytesIn(pd + pe) + [] == BytesIn(pd + pe);
  }

  /** The last bits, when a single digit holds them. */
  lemma ShortTailDecodes(abc: string, pe: Bits, pd: Bits)
    requires IsAlphabet(abc) && 0 < |pe| <= 7 && |pd| <= 7 && InFlight(pd, pe)
    requires Val(pe) <= 90
    ensures DecodeFrom(abc, -1, pd, [abc[Val(pe)]]) == Ok(BytesIn(pd + pe))
  {
    var v := Val(pe);
    IndexOfSymbol(abc, v);
    assert [abc[v]][1..] == "";
    LowByteOfTail(pd, pe);
    assert DecodeFrom(abc, -1, pd, [abc[v]]) == DecodeFrom(abc, v, pd, "");
  }

  lemma LowByteOfTail(pd: Bits, pe: Bits)
    requires |pd| + |pe| == 8 && |pd| <= 7
    ensures BytesIn(pd + pe) == [LowByte(pd, Val(pe))]
  {
    hide BitsOf, Val;
    var all := pd + pe;
    BitsOfWider(pe, 8);
    assert (pd + BitsOf(Val(pe), 8))[..8] == all[..8];
    assert BytesIn(all) == [Val(all[..8])] + BytesIn(all[8..]);
  }

  /** The last bits come back as exactly the bytes they complete. */
  lemma TailDecodes(abc: string, pe: Bits, pd: Bits)
    requires IsAlphabet(abc) && |pe| <= 13 && |pd| <= 7 && InFlight(pd, pe)
    ensures DecodeFrom(abc, -1, pd, Tail(abc, pe)) == Ok(BytesIn(pd + pe))
  {
    if pe == [] {
      assert pd + pe == [];
    } else if |pe| > 7 || Val(pe) > 90 {
      LongTailDecodes(abc, pe, pd);
    } else {
      ShortTailDecodes(abc, pe, pd);
    }
  }

  /**
   * Whatever bits are in flight, `pd` already with the decoder and `pe` still with the encoder,
   * decoding the rest of the encoding yields them as whole bytes and then the unread data.
   */
  lemma {:induction false} RoundTripFrom(abc: string, pe: Bits, pd: Bits, data: seq<Byte>)
    requires IsAlphabet(abc) && |pe| <= 13 && |pd| <= 7 && InFlight(pd, pe)
    ensures DecodeFrom(abc, -1, pd, EncodeFrom(abc, pe, data)) == Ok(BytesIn(pd + pe) + data)
    decreases |data|
  {
    hide BitsOf, Val, BytesIn, Leftover, IsAlphabet, Width, DecodeFrom;
    if data == [] {
      TailDecodes(abc, pe, pd);
      assert BytesIn(pd + pe) + data == BytesIn(pd + pe);
    } else {
      var y, rest := data[0], data[1..];
      var q := pe + ByteBits(y);
      ByteJoins(pd, pe, y);
      assert BytesIn(pd + pe) + data == BytesIn(pd + q) + rest;
      if |q| <= 13 {
        RoundTripFrom(abc, q, pd, rest);
      } else {
        GroupFits(q);
        var w := Width(Val(q));
        DecodesGroup(abc, pd, Val(q[..w]), EncodeFrom(abc, q[w..], rest));
        BitsOfVal(q[..w]);
        var got := pd + q[..w];
        LeftoverLength(got);
        RoundTripFrom(abc, q[w..], Leftover(got), rest);
        BytesAppend(got, q[w..]);
        assert pd + q == got + q[w..];
        assert Grown(pd, Val(q[..w])) == got;
        assert BytesIn(got) + (BytesIn(Leftover(got) + q[w..]) + rest) == BytesIn(pd + q) + rest;
      }
    }
  }

  lemma ByteJoins(pd: Bits, pe: Bits, y: Byte)
    requires InFlight(pd, pe)
    ensures BytesIn(pd + (pe + ByteBits(y))) == BytesIn(pd + pe) + [y]
  {
    hide BitsOf, Val, BytesIn, Leftover, Pow;
    var t := ByteBits(y);
    ValOfByteBits(y);
    Assoc(pd, pe, t);
    WholeBytes(pd + pe);
    BytesSnoc(pd + pe, t, y);
  }

  /** Decoding an encoding returns the bytes, whatever they are and however many. */
  lemma RoundTrip(abc: string, data: seq<Byte>)
    requires IsAlphabet(abc)
    ensures Decode(abc, Encode(abc, data)) == Ok(data)
  {
    hide BytesIn, DecodeFrom, EncodeFrom, IsAlphabet;
    var none: Bits := [];
    ShortBits(none);
    assert none + none == none && BytesIn(none) + data == data;
    RoundTripFrom(abc, none, none, data);
  }

  predicate HasForeign(abc: string, text: string) {
    exists i :: 0 <= i < |text| && text[i] !in abc
  }

  lemma NoneForeign(abc: string)
    ensures !HasForeign(abc, "")
  {
  }

  lemma FirstOrLater(abc: string, text: string)
    requires text != ""
    ensures HasForeign(abc, text) <==> text[0] !in abc || HasForeign(abc, text[1..])
  {
    if i :| 0 <= i < |text| && text[i] !in abc {
      assert i > 0 ==> text[1..][i - 1] == text[i];
    }
  }

  /** The decoder rejects a text exactly when it holds a character outside the alphabet. */
  lemma {:induction false} DecodeFails(abc: string, v: int, p: Bits, text: string)
    requires IsAlphabet(abc) && -1 <= v < 91 && |p| <= 7
    ensures DecodeFrom(abc, v, p, text).Err? <==> HasForeign(abc, text)
    decreases |text|
  {
    hide HasForeign, Grown, Leftover, BytesIn, Distinct;
    NoneForeign(abc);
    if text != "" {
      var c := IndexOf(abc, text[0]);
      if c >= 0 {
        if v < 0 {
          DecodeFails(abc, c, p, text[1..]);
        } else {
          DecodeFails(abc, -1, Leftover(Grown(p, v + c * 91)), text[1..]);
        }
      }
      FirstOrLater(abc, text);
    }
  }

  // ---- The codec ----

  lemma EncodeStep(abc: string, p: Bits, data: seq<Byte>)
    requires IsAlphabet(abc) && |p| <= 13 && data != []
    ensures var q := p + ByteBits(data[0]);
      if |q| <= 13 then EncodeFrom(abc, p, data) == EncodeFrom(abc, q, data[1..])
      else
        var w := Width(Val(q));
        && Val(q[..w]) < 91 * 91
        && EncodeFrom(abc, p, data) == TwoSymbols(abc, Val(q[..w])) + EncodeFrom(abc, q[w..], data[1..])
  {
    hide ByteBits, Val, Width;
    var q := p + ByteBits(data[0]);
    if |q| > 13 { GroupFits(q); }
  }

  lemma EncodeEnd(abc: string, p: Bits)
    requires IsAlphabet(abc) && |p| <= 13
    ensures EncodeFrom(abc, p, []) == Tail(abc, p)
  {
  }

  lemma SmallSymbol(v: nat)
    ensures v <= 90 ==> v % 91 == v
  {
  }

  lemma TailSymbols(abc: string, p: Bits)
    requires IsAlphabet(abc) && |p| <= 13
    ensures Val(p) < 8192 && (|p| <= 6 ==> Val(p) < 64) && (|p| <= 7 ==> Val(p) < 128)
    ensures Tail(abc, p) == if p == [] then ""
      else if |p| > 7 || Val(p) > 90 then [abc[Val(p) % 91], abc[Val(p) / 91]] else [abc[Val(p) % 91]]
  {
    hide Val;
    TailFits(p);
    SmallSymbol(Val(p));
  }

  method EncodeBytes(abc: string, data: seq<Byte>) returns (text: string)
    requires IsAlphabet(abc)
    ensures text == Encode(abc, data)
  {
    hide BitsOf, Val, Pow, Or, Shl, Distinct, EncodeFrom, Tail;
    var b, n := 0, 0;
    ghost var p: Bits := [];
    ShortBits(p);
    text := "";
    for i := 0 to |data|
      invariant n == |p| <= 13 && b == Val(p)
      invariant text + EncodeFrom(abc, p, data[i..]) == Encode(abc, data)
    {
      AbsorbByte(p, data[i]);
      EncodeStep(abc, p, data[i..]);
      assert data[i..][1..] == data[i + 1..];
      ghost var before := text;
      b := Or(b, Shl(data[i], n));
      n := n + 8;
      p := p + ByteBits(data[i]);
      if n > 13 {
        GroupFits(p);
        CutGroup(p);
        ghost var w := Width(b);
        var v := b % 8192;
        if v > 88 {
          b := b / 8192;
          n := n - 13;
        } else {
          v := b % 16384;
          b := b / 16384;
          n := n - 14;
        }
        text := text + [abc[v % 91]];
        text := text + [abc[v / 91]];
        assert text == before + TwoSymbols(abc, Val(p[..w]));
        p := p[w..];
      }
    }
    TailFits(p);
    EncodeEnd(abc, p);
    ghost var before := text;
    if n != 0 {
      text := text + [abc[b % 91]];
      if n > 7 || b > 90 {
        text := text + [abc[b / 91]];
      }
    }
    assert text == before + Tail(abc, p) by {
      TailSymbols(abc, p);
    }
  }

  /** Taking in a byte; the buffer stays far below 2^31, so the source's 32-bit operators do not wrap. */
  lemma AbsorbByte(p: Bits, y: Byte)
    requires |p| <= 13
    ensures Or(Val(p), Shl(y, |p|)) == Val(p + ByteBits(y)) < 0x20_0000
  {
    Pow8();
    OrAppends(p, y, 8);
    ValBelow(p + ByteBits(y), 21);
    PowAdd(2, 8, 13);
  }

  lemma CutGroup(p: Bits)
    requires |p| >= 14
    ensures Val(p[..13]) == Val(p) % 8192 && Val(p[13..]) == Val(p) / 8192
    ensures Val(p[..14]) == Val(p) % 16384 && Val(p[14..]) == Val(p) / 16384
  {
    Pow8();
    ValCut(p, 13);
    ValCut(p, 14);
  }

  method DecodeBytes(abc: string, text: string) returns (r: Result<seq<Byte>>)
    requires IsAlphabet(abc)
    ensures r == Decode(abc, text)
  {
    hide BitsOf, Val, Pow, Or, Shl, BytesIn, Leftover;
    var v, b, n := -1, 0, 0;
    var out: seq<Byte> := [];
    ghost var p: Bits := [];
    ShortBits(p);
    PrefixedTwice([], [], Decode(abc, text));
    for i := 0 to |text|
      invariant -1 <= v < 91 && n == |p| <= 7 && b == Val(p)
      invariant Decode(abc, text) == Prefixed(out, DecodeFrom(abc, v, p, text[i..]))
    {
      assert text[i..][1..] == text[i + 1..];
      var c := IndexOf(abc, text[i]);
      if c < 0 {
        return Err(InvalidChar(text[i]));
      }
      if v < 0 {
        v := c;
      } else {
        v := v + c * 91;
        AbsorbGroup(p, v);
        b := Or(b, Shl(v, n));
        n := n + (if v % 8192 > 88 then 13 else 14);
        ghost var start, q := out, Grown(p, v);
        ghost var later := DecodeFrom(abc, -1, Leftover(q), text[i + 1..]);
        assert Decode(abc, text) == Prefixed(start + BytesIn(q), later) by {
          PrefixedTwice(start, BytesIn(q), later);
        }
        p := q;
        while n > 7
          invariant n == |p| && b == Val(p)
          invariant start + BytesIn(q) == out + BytesIn(p) && Leftover(q) == Leftover(p)
        {
          CutByte(p);
          TakeByte(p);
          assert (out + [b % 256]) + BytesIn(p[8..]) == out + BytesIn(p);
          out := out + [b % 256];
          b := b / 256;
          n := n - 8;
          p := p[8..];
        }
        ShortBits(p);
        assert out == start + BytesIn(q);
        v := -1;
      }
    }
    assert text[|text|..] == "";
    assert out + [] == out;
    if v != -1 {
      LastByte(p, v);
      out := out + [Or(b, Shl(v, n)) % 256];
    }
    return Ok(out);
  }

  lemma AbsorbGroup(p: Bits, v: nat)
    requires |p| <= 7 && v < 91 * 91
    ensures Or(Val(p), Shl(v, |p|)) == Val(Grown(p, v)) < 0x20_0000
  {
    GroupInWidth(v);
    OrAppends(p, v, Width(v));
    Pow8();
    ValBelow(Grown(p, v), 21);
    PowAdd(2, 8, 13);
  }

  lemma LastByte(p: Bits, v: nat)
    requires |p| <= 7 && v < 91
    ensures Or(Val(p), Shl(v, |p|)) % 256 == LowByte(p, v)
  {
    Pow8();
    OrAppends(p, v, 8);
    ValCut(p + BitsOf(v, 8), 8);
  }

  // ---- The alphabet in use ----

  /** Every byte string survives encoding and decoding with the codec's own alphabet. */
  lemma StandardRoundTrip(data: seq<Byte>)
    ensures IsAlphabet(BASE91)
    ensures Decode(BASE91, Encode(BASE91, data)) == Ok(data)
  {
    Base91Distinct();
    RoundTrip(BASE91, data);
  }
}
