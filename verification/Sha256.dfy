/**
 * SHA-256: padding (section 5.1.1 of FIPS 180-4), message schedule and compression (section 6.2.2),
 * and the source's buffer arithmetic, which runs through 32-bit signed shifts.
 */
module Sha256 {
  import opened Arithmetic
  import opened BigEndian
  import opened Outcomes

  type Word = bv32

  // ---- Padded length ----

  /** JavaScript's conversion to a signed 32-bit integer. */
  function ToInt32(x: int): (y: int)
    ensures -0x8000_0000 <= y < 0x8000_0000
  {
    var m := x % 0x1_0000_0000;
    if m >= 0x8000_0000 then m - 0x1_0000_0000 else m
  }

  /** `(((len + 8) >> 6) + 1) << 6` with the operators' 32-bit conversions written out. */
  function SourcePaddedLength(len: nat): int {
    ToInt32((ToInt32(len + 8) / 64 + 1) * 64)
  }

  function PaddedLength(len: nat): nat {
    (len + 72) / 64 * 64
  }

  /** The least multiple of 64 with room for the message, the 0x80 byte and the length. */
  lemma PaddedLengthIsLeast(len: nat, m: nat)
    ensures PaddedLength(len) % 64 == 0 && PaddedLength(len) >= len + 9
    ensures m % 64 == 0 && m >= len + 9 ==> m >= PaddedLength(len)
  {
  }

  /** The source's shifts yield that length exactly for messages shorter than 2^31 - 72 bytes. */
  lemma SourceLengthExact(len: nat)
    ensures SourcePaddedLength(len) == PaddedLength(len) <==> len < 0x8000_0000 - 72
  {
    if len < 0x8000_0000 - 72 {
      assert (len + 8) / 64 + 1 == (len + 72) / 64;
    }
  }

  /** For every longer message the buffer is of negative size or too short for the message. */
  lemma SourceLengthFails(len: nat)
    requires len >= 0x8000_0000 - 72
    ensures SourcePaddedLength(len) < len
  {
    hide ToInt32;
    var x := ToInt32(len + 8);
    var blocks := x / 64 + 1;
    WholeBlocks(blocks);
    if len <= 0x8000_0000 - 64 {
      assert blocks == 0x200_0000 by {
        Unchanged(len + 8);
      }
      Wrapped();
    }
  }

  lemma WholeBlocks(blocks: int)
    ensures ToInt32(blocks * 64) <= 0x8000_0000 - 64
  {
    var q, m := blocks * 64 / 0x1_0000_0000, blocks * 64 % 0x1_0000_0000;
    assert m == 64 * (blocks - q * 0x400_0000);
  }

  lemma Unchanged(x: nat)
    requires x < 0x8000_0000
    ensures ToInt32(x) == x
  {
  }

  lemma Wrapped()
    ensures ToInt32(0x8000_0000) == -0x8000_0000
  {
  }

  // ---- Padding ----

  /** A number of up to 64 bits as eight bytes, most significant first. */
  function Be64(x: nat): (b: seq<Byte>)
    ensures |b| == 8
  {
    Be32(x / 0x1_0000_0000) + Be32(x % 0x1_0000_0000)
  }

  function Pad(data: seq<Byte>): (p: seq<Byte>)
    ensures |p| == PaddedLength(|data|) && |p| % 64 == 0
  {
    PaddedLengthIsLeast(|data|, 0);
    data + [0x80] + Zeros(PaddedLength(|data|) - |data| - 9) + Be64(8 * |data|)
  }

  /** Different messages have different padded forms, within the standard's limit of 2^64 bits. */
  lemma PadInjective(x: seq<Byte>, y: seq<Byte>)
    requires 8 * |x| < 0x1_0000_0000_0000_0000 && 8 * |y| < 0x1_0000_0000_0000_0000
    requires Pad(x) == Pad(y)
    ensures x == y
  {
    hide Be32;
    var p := Pad(x);
    assert p[|p| - 8..] == Be64(8 * |x|) && p[|p| - 8..] == Be64(8 * |y|);
    assert Be64(8 * |x|)[..4] == Be32(8 * |x| / 0x1_0000_0000) && Be64(8 * |y|)[..4] == Be32(8 * |y| / 0x1_0000_0000);
    assert Be64(8 * |x|)[4..] == Be32(8 * |x| % 0x1_0000_0000) && Be64(8 * |y|)[4..] == Be32(8 * |y| % 0x1_0000_0000);
    Be32Injective(8 * |x| / 0x1_0000_0000, 8 * |y| / 0x1_0000_0000);
    Be32Injective(8 * |x| % 0x1_0000_0000, 8 * |y| % 0x1_0000_0000);
    assert |x| == |y|;
    assert x == p[..|x|] && y == p[..|y|];
  }

  // ---- Schedule and compression ----

  /** The source's `rotr32`. */
  function Rotr(x: Word, n: Word): Word
    requires 0 < n < 32
  {
    (x >> n) | (x << (32 - n))
  }

  function Sigma0(x: Word): Word { (Rotr(x, 2) ^ Rotr(x, 13)) ^ Rotr(x, 22) }
  function Sigma1(x: Word): Word { (Rotr(x, 6) ^ Rotr(x, 11)) ^ Rotr(x, 25) }
  function Small0(x: Word): Word { (Rotr(x, 7) ^ Rotr(x, 18)) ^ (x >> 3) }
  function Small1(x: Word): Word { (Rotr(x, 17) ^ Rotr(x, 19)) ^ (x >> 10) }
  function Ch(x: Word, y: Word, z: Word): Word { (x & y) ^ (!x & z) }
  function Maj(x: Word, y: Word, z: Word): Word { ((x & y) ^ (x & z)) ^ (y & z) }

  function Sum4(a: Word, b: Word, c: Word, d: Word): Word { ((a + b) + c) + d }

  function BeWord(b: seq<Byte>, at: nat): Word
    requires at + 4 <= |b|
  {
    ToWord(WordOf(b[at], b[at + 1], b[at + 2], b[at + 3]))
  }

  function ToWord(x: U32): Word {
    x as bv32
  }

  /** Word `t` of the schedule of a 64-byte block. */
  function W(block: seq<Byte>, t: nat): Word
    requires |block| == 64
  {
    if t < 16 then BeWord(block, 4 * t)
    else Sum4(W(block, t - 16), Small0(W(block, t - 15)), W(block, t - 7), Small1(W(block, t - 2)))
  }

  /** `toUint32(x + y)`. */
  function Add32(x: Word, y: Word): Word { x + y }

  datatype Regs = Regs(a: Word, b: Word, c: Word, d: Word, e: Word, f: Word, g: Word, h: Word)

  function Temp1(e: Word, f: Word, g: Word, h: Word, k: Word, w: Word): Word {
    (((h + Sigma1(e)) + Ch(e, f, g)) + k) + w
  }

  function Temp2(a: Word, b: Word, c: Word): Word {
    Sigma0(a) + Maj(a, b, c)
  }

  function Round(r: Regs, k: Word, w: Word): Regs {
    var t1 := Temp1(r.e, r.f, r.g, r.h, k, w);
    Regs(Add32(t1, Temp2(r.a, r.b, r.c)), r.a, r.b, r.c, Add32(r.d, t1), r.e, r.f, r.g)
  }

  function Rounds(r: Regs, ks: seq<Word>, block: seq<Byte>, t: nat): Regs
    requires t <= |ks| && |block| == 64
  {
    if t == 0 then r else Round(Rounds(r, ks, block, t - 1), ks[t - 1], W(block, t - 1))
  }

  function AddRegs(x: Regs, y: Regs): Regs {
    Regs(x.a + y.a, x.b + y.b, x.c + y.c, x.d + y.d, x.e + y.e, x.f + y.f, x.g + y.g, x.h + y.h)
  }

  function Compress(r: Regs, ks: seq<Word>, block: seq<Byte>): Regs
    requires |ks| == 64 && |block| == 64
  {
    AddRegs(r, Rounds(r, ks, block, 64))
  }

  /** The chaining value after the whole 64-byte blocks of `p`. */
  function Chain(r: Regs, ks: seq<Word>, p: seq<Byte>): Regs
    requires |ks| == 64 && |p| % 64 == 0
    decreases |p|
  {
    if p == [] then r else Chain(Compress(r, ks, p[..64]), ks, p[64..])
  }

  function WordBytes(w: Word): (b: seq<Byte>)
    ensures |b| == 4
  {
    Be32(w as nat)
  }

  function RegBytes(r: Regs): seq<Byte> {
    WordBytes(r.a) + WordBytes(r.b) + WordBytes(r.c) + WordBytes(r.d)
      + WordBytes(r.e) + WordBytes(r.f) + WordBytes(r.g) + WordBytes(r.h)
  }

  const H256 := Regs(0x6a09e667, 0xbb67ae85, 0x3c6ef372, 0xa54ff53a, 0x510e527f, 0x9b05688c, 0x1f83d9ab, 0x5be0cd19)

  const K256_0: seq<Word> := [
    0x428a2f98, 0x71374491, 0xb5c0fbcf, 0xe9b5dba5, 0x3956c25b, 0x59f111f1, 0x923f82a4, 0xab1c5ed5,
    0xd807aa98, 0x12835b01, 0x243185be, 0x550c7dc3, 0x72be5d74, 0x80deb1fe, 0x9bdc06a7, 0xc19bf174
  ]
  const K256_1: seq<Word> := [
    0xe49b69c1, 0xefbe4786, 0x0fc19dc6, 0x240ca1cc, 0x2de92c6f, 0x4a7484aa, 0x5cb0a9dc, 0x76f988da,
    0x983e5152, 0xa831c66d, 0xb00327c8, 0xbf597fc7, 0xc6e00bf3, 0xd5a79147, 0x06ca6351, 0x14292967
  ]
  const K256_2: seq<Word> := [
    0x27b70a85, 0x2e1b2138, 0x4d2c6dfc, 0x53380d13, 0x650a7354, 0x766a0abb, 0x81c2c92e, 0x92722c85,
    0xa2bfe8a1, 0xa81a664b, 0xc24b8b70, 0xc76c51a3, 0xd192e819, 0xd6990624, 0xf40e3585, 0x106aa070
  ]
  const K256_3: seq<Word> := [
    0x19a4c116, 0x1e376c08, 0x2748774c, 0x34b0bcb5, 0x391c0cb3, 0x4ed8aa4a, 0x5b9cca4f, 0x682e6ff3,
    0x748f82ee, 0x78a5636f, 0x84c87814, 0x8cc70208, 0x90befffa, 0xa4506ceb, 0xbef9a3f7, 0xc67178f2
  ]
  const K256 := ((K256_0 + K256_1) + K256_2) + K256_3

  function Digest(ks: seq<Word>, data: seq<Byte>): seq<Byte>
    requires |ks| == 64
  {
    RegBytes(Chain(H256, ks, Pad(data)))
  }

  // ---- The eight registers are a window on two sequences ----

  /** The values `a` and `e` take, round by round; the first four of each are the starting registers. */
  function History(r: Regs, ks: seq<Word>, block: seq<Byte>, t: nat): (Word, Word)
    requires t <= |ks| + 3 && |block| == 64
  {
    if t == 0 then (r.d, r.h) else if t == 1 then (r.c, r.g) else if t == 2 then (r.b, r.f) else if t == 3 then (r.a, r.e)
    else
      var (a1, e1) := History(r, ks, block, t - 1);
      var (a2, e2) := History(r, ks, block, t - 2);
      var (a3, e3) := History(r, ks, block, t - 3);
      var (a4, e4) := History(r, ks, block, t - 4);
      var t1 := Temp1(e1, e2, e3, e4, ks[t - 4], W(block, t - 4));
      (Add32(t1, Temp2(a1, a2, a3)), Add32(a4, t1))
  }

  /** Shifting eight registers computes the two recurrences: after `t` rounds they hold the last four of each. */
  lemma {:induction false} RegistersAreWindow(r: Regs, ks: seq<Word>, block: seq<Byte>, t: nat)
    requires t <= |ks| && |block| == 64
    ensures var s := Rounds(r, ks, block, t);
      (s.a, s.e) == History(r, ks, block, t + 3) && (s.b, s.f) == History(r, ks, block, t + 2)
      && (s.c, s.g) == History(r, ks, block, t + 1) && (s.d, s.h) == History(r, ks, block, t)
  {
    hide Temp1, Temp2, W, Add32;
    if t > 0 {
      RegistersAreWindow(r, ks, block, t - 1);
    }
  }

  // ---- The source's loops ----

  method PadBytes(data: seq<Byte>) returns (padded: array<Byte>)
    requires |data| < 0x8000_0000 - 72
    ensures fresh(padded) && padded[..] == Pad(data)
  {
    SourceLengthExact(|data|);
    PaddedLengthIsLeast(|data|, 0);
    var bitLength := |data| * 8;
    var paddedLength := SourcePaddedLength(|data|);
    padded := new Byte[paddedLength](_ => 0);
    for i := 0 to |data|
      invariant padded[..i] == data[..i]
      invariant forall j :: i <= j < paddedLength ==> padded[j] == 0
    {
      padded[i] := data[i];
    }
    padded[|data|] := 0x80;
    SetUint32(padded, paddedLength - 8, bitLength / 0x1_0000_0000);
    SetUint32(padded, paddedLength - 4, bitLength % 0x1_0000_0000);
    PadLayout(data, padded[..]);
  }

  lemma PadLayout(data: seq<Byte>, p: seq<Byte>)
    requires |p| == PaddedLength(|data|) && |p| >= |data| + 9
    requires p[..|data|] == data && p[|data|] == 0x80
    requires forall j :: |data| < j < |p| - 8 ==> p[j] == 0
    requires p[|p| - 8..|p| - 4] == Be32(|data| * 8 / 0x1_0000_0000)
    requires p[|p| - 4..] == Be32(|data| * 8 % 0x1_0000_0000)
    ensures p == Pad(data)
  {
    hide Be32;
    assert p == data + [0x80] + p[|data| + 1..|p| - 8] + (p[|p| - 8..|p| - 4] + p[|p| - 4..]);
    assert p[|data| + 1..|p| - 8] == Zeros(PaddedLength(|data|) - |data| - 9);
  }

  method SetUint32(view: array<Byte>, at: nat, x: nat)
    requires at + 4 <= view.Length
    modifies view
    ensures view[at..at + 4] == Be32(x)
    ensures forall j :: 0 <= j < view.Length && !(at <= j < at + 4) ==> view[j] == old(view[j])
  {
    var b := Be32(x);
    view[at], view[at + 1], view[at + 2], view[at + 3] := b[0], b[1], b[2], b[3];
  }

  method Schedule(padded: array<Byte>, offset: nat) returns (w: array<Word>)
    requires offset + 64 <= padded.Length
    ensures fresh(w) && w.Length == 64
    ensures forall t :: 0 <= t < 64 ==> w[t] == W(padded[offset..offset + 64], t)
  {
    hide W, BeWord, Small0, Small1, Sum4;
    ghost var block := padded[offset..offset + 64];
    w := new Word[64](_ => 0);
    for i := 0 to 16
      invariant forall t :: 0 <= t < i ==> w[t] == W(block, t)
    {
      BeWordWithin(padded[..], offset, 4 * i);
      WStep(block, i);
      w[i] := BeWord(padded[..], offset + i * 4);
    }
    for i := 16 to 64
      invariant forall t :: 0 <= t < i ==> w[t] == W(block, t)
    {
      WStep(block, i);
      w[i] := Sum4(w[i - 16], Small0(w[i - 15]), w[i - 7], Small1(w[i - 2]));
    }
  }

  lemma WStep(block: seq<Byte>, t: nat)
    requires |block| == 64
    ensures W(block, t) == if t < 16 then BeWord(block, 4 * t)
      else Sum4(W(block, t - 16), Small0(W(block, t - 15)), W(block, t - 7), Small1(W(block, t - 2)))
  {
  }

  lemma BeWordWithin(p: seq<Byte>, offset: nat, at: nat)
    requires offset + 64 <= |p| && at + 4 <= 64
    ensures BeWord(p, offset + at) == BeWord(p[offset..offset + 64], at)
  {
  }

  method RunRounds(ks: seq<Word>, start: Regs, w: array<Word>, ghost block: seq<Byte>) returns (r: Regs)
    requires |ks| == 64 && |block| == 64 && w.Length == 64 && forall t :: 0 <= t < 64 ==> w[t] == W(block, t)
    ensures r == Rounds(start, ks, block, 64)
  {
    hide Temp1, Temp2, W, Add32;
    var a, b, c, d := start.a, start.b, start.c, start.d;
    var e, f, g, hh := start.e, start.f, start.g, start.h;
    for i := 0 to 64
      invariant Regs(a, b, c, d, e, f, g, hh) == Rounds(start, ks, block, i)
    {
      var temp1 := Temp1(e, f, g, hh, ks[i], w[i]);
      var temp2 := Temp2(a, b, c);
      hh := g;
      g := f;
      f := e;
      e := Add32(d, temp1);
      d := c;
      c := b;
      b := a;
      a := Add32(temp1, temp2);
    }
    return Regs(a, b, c, d, e, f, g, hh);
  }

  method HashBlocks(ks: seq<Word>, padded: array<Byte>) returns (h: Regs)
    requires |ks| == 64 && padded.Length % 64 == 0
    ensures h == Chain(H256, ks, padded[..])
  {
    hide AddRegs, Rounds, W;
    h := H256;
    var offset := 0;
    while offset < padded.Length
      invariant 0 <= offset <= padded.Length && offset % 64 == 0
      invariant Chain(h, ks, padded[offset..]) == Chain(H256, ks, padded[..])
    {
      var w := Schedule(padded, offset);
      ghost var block := padded[offset..offset + 64];
      assert padded[offset..][..64] == block && padded[offset..][64..] == padded[offset + 64..];
      var r := RunRounds(ks, h, w, block);
      h := AddRegs(h, r);
      offset := offset + 64;
    }
  }

  /** The digest, for exactly the messages whose padded length the source's shifts get right. */
  method Sha256Bytes(data: seq<Byte>) returns (r: Result<seq<Byte>>)
    ensures r.Ok? <==> |data| < 0x8000_0000 - 72
    ensures r.Ok? ==> |K256| == 64 && r.value == Digest(K256, data)
  {
    hide Digest;
    StandardConstants();
    r := DigestBytes(K256, data);
  }

  method DigestBytes(ks: seq<Word>, data: seq<Byte>) returns (r: Result<seq<Byte>>)
    requires |ks| == 64
    ensures r.Ok? <==> |data| < 0x8000_0000 - 72
    ensures r.Ok? ==> r.value == Digest(ks, data)
  {
    SourceLengthExact(|data|);
    if |data| >= 0x8000_0000 - 72 {
      SourceLengthFails(|data|);
    }
    if SourcePaddedLength(|data|) < |data| {
      return Err(Overflow);
    }
    var padded := PadBytes(data);
    var h := HashBlocks(ks, padded);
    return Ok(RegBytes(h));
  }

  lemma StandardConstants()
    ensures |K256| == 64
  {
  }
}
