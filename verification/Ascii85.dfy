/**
 * ASCII85: four bytes as five base-85 digits, an all-zero word as 'z', and a short last group padded
 * with zero bytes and cut to one digit more than its bytes. The decoder appends "uuuu" and drops the surplus.
 */
module Ascii85 {
  import opened Arithmetic
  import opened BigEndian
  import opened Outcomes

  // ---- Words and digits ----

  function Word(b: seq<Byte>): (w: nat)
    requires |b| == 4
    ensures w <= 0xffff_ffff
  {
    WordOf(b[0], b[1], b[2], b[3])
  }

  /** The value of five base-85 digits. */
  function Acc(d: seq<nat>): nat
    requires |d| == 5
  {
    (((d[0] * 85 + d[1]) * 85 + d[2]) * 85 + d[3]) * 85 + d[4]
  }

  /** The digits as the encoder takes them: a division by 85^3, then by 85. */
  function FiveDigits(w: nat): (d: seq<nat>)
    requires w <= 0xffff_ffff
    ensures |d| == 5 && forall i :: 0 <= i < 5 ==> d[i] < 85
    ensures Acc(d) == w
  {
    var v1, v2 := w / 614125, (w % 614125) / 85;
    assert w == v1 * 614125 + w % 614125;
    assert w % 614125 == v2 * 85 + (w % 614125) % 85;
    assert (w % 614125) % 85 == w % 85;
    [v1 / 85, v1 % 85, v2 / 85, v2 % 85, w % 85]
  }

  function DigitChar(d: nat): char
    requires d < 85
  {
    (33 + d) as char
  }

  function Chars(ds: seq<nat>): (s: string)
    requires forall i :: 0 <= i < |ds| ==> ds[i] < 85
    ensures |s| == |ds| && forall i :: 0 <= i < |s| ==> s[i] == DigitChar(ds[i])
  {
    seq(|ds|, i requires 0 <= i < |ds| => DigitChar(ds[i]))
  }

  // ---- Specification ----

  function Group(w: nat): string
    requires w <= 0xffff_ffff
  {
    if w == 0 then "z" else Chars(FiveDigits(w))
  }

  function Encode(data: seq<Byte>): string
    decreases |data|
  {
    if data == [] then ""
    else if |data| < 4 then Chars(FiveDigits(Word(data + Zeros(4 - |data|)))[..|data| + 1])
    else Group(Word(data[..4])) + Encode(data[4..])
  }

  predicate IsSpace(ch: char) {
    ch == ' ' || ch == '\t' || ch == '\n' || ch == '\r' || ch == '\U{000B}'
  }

  datatype Scanned = Scanned(bytes: seq<Byte>, current: seq<nat>)

  function After(out: seq<Byte>, r: Result<Scanned>): Result<Scanned> {
    match r
    case Err(e) => Err(e)
    case Ok(s) => Ok(Scanned(out + s.bytes, s.current))
  }

  /** Reading the stream with the digits `current` of an unfinished group in hand. */
  function Scan(current: seq<nat>, stream: string): (r: Result<Scanned>)
    requires |current| < 5
    ensures r.Ok? ==> |r.value.current| < 5
    decreases |stream|
  {
    if stream == "" then Ok(Scanned([], current))
    else
      var ch, rest := stream[0], stream[1..];
      if 33 <= ch as int <= 117 then
        var d := current + [ch as int - 33];
        if |d| < 5 then Scan(d, rest)
        else if Acc(d) > 0xffff_ffff then Err(Overflow)
        else After(Be32(Acc(d)), Scan([], rest))
      else if ch == 'z' then
        if current != [] then Err(ZInsideGroup) else After([0, 0, 0, 0], Scan([], rest))
      else if IsSpace(ch) then Scan(current, rest)
      else Err(InvalidChar(ch))
  }

  function Decode(text: string): Result<seq<Byte>> {
    match Scan([], text + "uuuu")
    case Err(e) => Err(e)
    case Ok(s) =>
      SurplusIsCovered([], text);
      Ok(s.bytes[..|s.bytes| - (4 - |s.current|)])
  }

  // ---- The surplus never exceeds what was decoded ----

  function Us(k: nat): string { seq(k, _ => 'u') }

  /** Feeding `k` fill characters to fewer than five digits. */
  lemma {:induction false} Fill(current: seq<nat>, k: nat)
    requires |current| < 5 && k <= 4
    ensures var r := Scan(current, Us(k));
      r.Ok? ==>
        if |current| + k < 5 then r.value == Scanned([], current + seq(k, _ => 84))
        else var d := current + seq(5 - |current|, _ => 84);
          Acc(d) <= 0xffff_ffff && r.value == Scanned(Be32(Acc(d)), seq(|current| + k - 5, _ => 84))
    ensures |current| + k < 5 || Acc(current + seq(5 - |current|, _ => 84)) <= 0xffff_ffff ==> Scan(current, Us(k)).Ok?
    decreases k
  {
    hide Acc, Be32;
    if k > 0 {
      assert Us(k)[1..] == Us(k - 1);
      var d := current + [84];
      if |d| < 5 {
        Fill(d, k - 1);
        assert d + seq(k - 1, _ => 84) == current + seq(k, _ => 84);
        assert d + seq(5 - |d|, _ => 84) == current + seq(5 - |current|, _ => 84);
      } else {
        assert d == current + seq(5 - |current|, _ => 84);
        Fill([], k - 1);
        var left: seq<nat> := [];
        assert left + seq(k - 1, _ => 84) == seq(|current| + k - 5, _ => 84);
      }
    }
  }

  lemma {:induction false} SurplusIsCovered(current: seq<nat>, text: string)
    requires |current| < 5
    ensures var r := Scan(current, text + "uuuu");
      r.Ok? ==> |r.value.current| <= 4 && |r.value.bytes| >= 4 - |r.value.current|
    decreases |text|
  {
    hide Acc;
    var stream := text + "uuuu";
    if text == "" {
      assert stream == Us(4);
      Fill(current, 4);
    } else {
      assert stream[1..] == text[1..] + "uuuu";
      var ch := text[0];
      if 33 <= ch as int <= 117 {
        var d := current + [ch as int - 33];
        SurplusIsCovered(if |d| < 5 then d else [], text[1..]);
      } else {
        SurplusIsCovered(current, text[1..]);
        SurplusIsCovered([], text[1..]);
      }
    }
  }

  // ---- Round trip ----

  lemma BytesOfGroup(b: seq<Byte>)
    requires |b| == 4
    ensures Be32(Word(b)) == b
  {
    BytesOfWord(b[0], b[1], b[2], b[3]);
    assert b == [b[0], b[1], b[2], b[3]];
  }

  /** Reading a run of digits that does not finish a group, and one that does. */
  lemma {:induction false} ScanDigits(current: seq<nat>, ds: seq<nat>, rest: string)
    requires |current| + |ds| <= 5 && |current| < 5
    requires forall i :: 0 <= i < |ds| ==> ds[i] < 85
    ensures |current| + |ds| < 5 ==> Scan(current, Chars(ds) + rest) == Scan(current + ds, rest)
    ensures |current| + |ds| == 5 && Acc(current + ds) <= 0xffff_ffff ==>
      Scan(current, Chars(ds) + rest) == After(Be32(Acc(current + ds)), Scan([], rest))
    decreases |ds|
  {
    hide Acc, Be32;
    if ds == [] {
      assert Chars(ds) + rest == rest && current + ds == current;
    } else {
      var stream := Chars(ds) + rest;
      assert stream[1..] == Chars(ds[1..]) + rest;
      var d := current + [ds[0]];
      assert d + ds[1..] == current + ds;
      if |d| < 5 {
        ScanDigits(d, ds[1..], rest);
      } else {
        assert current + ds == d;
        assert Chars(ds[1..]) + rest == rest;
      }
    }
  }

  lemma GroupDecodes(b: seq<Byte>, rest: string)
    requires |b| == 4
    ensures Scan([], Group(Word(b)) + rest) == After(b, Scan([], rest))
  {
    hide Word, FiveDigits, Be32, Acc;
    var w := Word(b);
    BytesOfGroup(b);
    if w == 0 {
      ZeroWord(b);
      assert ("z" + rest)[1..] == rest;
    } else {
      var none: seq<nat> := [];
      assert none + FiveDigits(w) == FiveDigits(w);
      ScanDigits([], FiveDigits(w), rest);
    }
  }

  lemma ZeroWord(b: seq<Byte>)
    requires |b| == 4 && Word(b) == 0
    ensures b == [0, 0, 0, 0]
  {
  }

  /** Two digit strings that agree up to their last one, two or three digits differ by what those are worth. */
  lemma AccGap(d: seq<nat>, e: seq<nat>)
    requires |d| == |e| == 5 && d[0] == e[0] && d[1] == e[1]
    ensures Acc(d) as int - Acc(e) as int
      == ((d[2] as int - e[2] as int) * 85 + (d[3] as int - e[3] as int)) * 85 + (d[4] as int - e[4] as int)
  {
  }

  /**
   * A padded word cut to its leading digits and filled with the digit 84 stays below 2^32
   * and keeps its leading bytes.
   */
  lemma FillKeepsLeadingBytes(data: seq<Byte>, d: seq<nat>)
    requires 1 <= |data| <= 3
    requires |d| == 5 && d[..|data| + 1] == FiveDigits(Word(data + Zeros(4 - |data|)))[..|data| + 1]
    requires forall i :: |data| < i < 5 ==> d[i] == 84
    ensures Acc(d) <= 0xffff_ffff && Be32(Acc(d))[..|data|] == data
  {
    hide Word, FiveDigits, Be32, Acc, WordOf;
    var b := data + Zeros(4 - |data|);
    var e := FiveDigits(Word(b));
    forall i | 0 <= i <= |data| ensures d[i] == e[i] {
      assert d[..|data| + 1][i] == d[i];
    }
    AccGap(d, e);
    FilledBytes(data, d, b, Acc(d) - Word(b));
  }

  /** Adding less than 256^p to a word whose lowest `p` bytes are zero changes only those. */
  lemma FilledBytes(data: seq<Byte>, d: seq<nat>, b: seq<Byte>, x: int)
    requires 1 <= |data| <= 3 && |d| == 5 && b == data + Zeros(4 - |data|) && Acc(d) == Word(b) + x
    requires 0 <= x < if |data| == 3 then 256 else if |data| == 2 then 0x1_0000 else 0x100_0000
    ensures Acc(d) <= 0xffff_ffff && Be32(Acc(d))[..|data|] == data
  {
    hide Be32, Acc;
    if |data| == 3 {
      FilledWord(d, b, [b[0], b[1], b[2], x], x);
    } else if |data| == 2 {
      FilledWord(d, b, [b[0], b[1], x / 256, x % 256], x);
    } else {
      FilledWord(d, b, [b[0], x / 0x1_0000, x / 256 % 256, x % 256], x);
    }
  }

  lemma FilledWord(d: seq<nat>, b: seq<Byte>, filled: seq<Byte>, x: int)
    requires |d| == 5 && |b| == 4 && |filled| == 4 && Acc(d) == Word(b) + x
    requires WordOf(filled[0], filled[1], filled[2], filled[3]) == WordOf(b[0], b[1], b[2], b[3]) + x
    ensures Acc(d) <= 0xffff_ffff && Be32(Acc(d)) == filled
  {
    BytesOfGroup(filled);
  }

  /** A short last group, once filled, yields its bytes and as many unused digits as it had bytes. */
  lemma TailDecodes(data: seq<Byte>)
    requires 1 <= |data| <= 3
    ensures var r := Scan([], Encode(data) + "uuuu");
      r.Ok? && |r.value.current| == |data| && |r.value.bytes| == 4 && r.value.bytes[..|data|] == data
  {
    var ds := FiveDigits(Word(data + Zeros(4 - |data|)))[..|data| + 1];
    var none: seq<nat> := [];
    assert none + ds == ds;
    assert "uuuu" == Us(4);
    ScanDigits([], ds, Us(4));
    FillKeepsLeadingBytes(data, ds + seq(5 - |ds|, _ => 84));
    Fill(ds, 4);
  }

  lemma {:induction false} RoundTripScan(data: seq<Byte>)
    ensures var r := Scan([], Encode(data) + "uuuu");
      r.Ok? && |r.value.current| <= 4 && |r.value.bytes| >= 4 - |r.value.current|
      && r.value.bytes[..|r.value.bytes| - (4 - |r.value.current|)] == data
    decreases |data|
  {
    hide Scan, Acc, Group, Chars, FiveDigits, Be32;
    if data == [] {
      assert "" + "uuuu" == Us(4);
      Fill([], 4);
    } else if |data| < 4 {
      TailDecodes(data);
    } else {
      RoundTripScan(data[4..]);
      var g, more := Group(Word(data[..4])), Encode(data[4..]);
      assert (g + more) + "uuuu" == g + (more + "uuuu");
      GroupDecodes(data[..4], more + "uuuu");
      assert data == data[..4] + data[4..];
    }
  }

  /** Decoding an encoding returns the bytes, for every length. */
  lemma RoundTrip(data: seq<Byte>)
    ensures Decode(Encode(data)) == Ok(data)
  {
    RoundTripScan(data);
  }

  // ---- White space ----

  function Stripped(text: string): string {
    if text == "" then "" else if IsSpace(text[0]) then Stripped(text[1..]) else [text[0]] + Stripped(text[1..])
  }

  lemma {:induction false} ScanSkipsSpace(current: seq<nat>, text: string)
    requires |current| < 5
    ensures Scan(current, text + "uuuu") == Scan(current, Stripped(text) + "uuuu")
    decreases |text|
  {
    hide Acc, Be32;
    if text != "" {
      assert (text + "uuuu")[1..] == text[1..] + "uuuu";
      var ch := text[0];
      if !IsSpace(ch) {
        assert (Stripped(text) + "uuuu")[1..] == Stripped(text[1..]) + "uuuu";
      }
      if 33 <= ch as int <= 117 {
        var d := current + [ch as int - 33];
        ScanSkipsSpace(if |d| < 5 then d else [], text[1..]);
      } else {
        ScanSkipsSpace(current, text[1..]);
        ScanSkipsSpace([], text[1..]);
      }
    }
  }

  /** White space anywhere in a text, inside a group or in its fill, changes nothing. */
  lemma SpaceIgnored(text: string, data: seq<Byte>)
    ensures Decode(text) == Decode(Stripped(text))
    ensures Stripped(text) == Encode(data) ==> Decode(text) == Ok(data)
  {
    ScanSkipsSpace([], text);
    RoundTrip(data);
  }

  // ---- The codec ----

  method EncodeBytes(data: seq<Byte>) returns (text: string)
    ensures text == Encode(data)
  {
    hide Word, FiveDigits, Chars, Encode, Join;
    if |data| == 0 {
      EncodeNothing();
      return "";
    }
    var padding := (4 - |data| % 4) % 4;
    var padded := if padding == 0 then data else data + Zeros(padding);
    ghost var m := PaddedGroups(|data|);
    var chunks := Chunks(padded, m);
    if padding != 0 {
      assert padded[4 * (m - 1)..4 * (m - 1) + 4] == padded[|padded| - 4..];
      var last := chunks[|chunks| - 1];
      chunks := chunks[|chunks| - 1 := (if last == "z" then "!!!!!" else last)[..5 - padding]];
    }
    JoinedIsEncode(data, padding, padded, chunks);
    text := Join(chunks);
  }

  lemma EncodeNothing()
    ensures Encode([]) == ""
  {
  }

  /** One chunk of text per padded word. */
  method Chunks(padded: seq<Byte>, ghost m: nat) returns (chunks: seq<string>)
    requires |padded| == 4 * m
    ensures |chunks| == m
    ensures forall k :: 0 <= k < m ==> chunks[k] == Group(Word(padded[4 * k..4 * k + 4]))
  {
    hide Word, FiveDigits, Chars;
    chunks := [];
    var i := 0;
    while i < |padded|
      invariant i == 4 * |chunks| <= |padded|
      invariant forall k :: 0 <= k < |chunks| ==> chunks[k] == Group(Word(padded[4 * k..4 * k + 4]))
    {
      var word := Word(padded[i..i + 4]);
      if word == 0 {
        chunks := chunks + ["z"];
      } else {
        chunks := chunks + [Chars(FiveDigits(word))];
      }
      i := i + 4;
    }
  }

  lemma PaddedGroups(n: nat) returns (m: nat)
    ensures n + (4 - n % 4) % 4 == 4 * m && (n > 0 ==> m > 0)
  {
    m := (n + 3) / 4;
  }

  function Join(chunks: seq<string>): string {
    if chunks == [] then "" else chunks[0] + Join(chunks[1..])
  }

  lemma LastChunk(data: seq<Byte>, padding: nat, padded: seq<Byte>, chunks: seq<string>)
    requires 0 < padding < 4 && |data| == 4 - padding && padded == data + Zeros(padding) && |chunks| == 1
    requires var w := Word(padded[|padded| - 4..]);
      chunks[0] == (if w == 0 then "!!!!!" else Chars(FiveDigits(w)))[..5 - padding]
    ensures Join(chunks) == Encode(data)
  {
    hide Word;
    var w := Word(padded);
    assert padded[|padded| - 4..] == padded;
    ZeroDigits();
    assert Chars(FiveDigits(w))[..5 - padding] == Chars(FiveDigits(w)[..5 - padding]);
    assert chunks[1..] == [];
  }

  lemma ZeroDigits()
    ensures Chars(FiveDigits(0)) == "!!!!!"
  {
  }

  lemma EncodeGroup(data: seq<Byte>)
    requires |data| >= 4
    ensures Encode(data) == Group(Word(data[..4])) + Encode(data[4..])
  {
  }

  /** The chunk list the encoder builds, cut at the end, spells the encoding. */
  lemma {:induction false} JoinedIsEncode(data: seq<Byte>, padding: nat, padded: seq<Byte>, chunks: seq<string>)
    requires padding < 4 && padded == data + Zeros(padding) && |padded| == 4 * |chunks|
    requires forall k :: 0 <= k < |chunks| - (if padding > 0 then 1 else 0) ==>
      chunks[k] == Group(Word(padded[4 * k..4 * k + 4]))
    requires padding > 0 ==> chunks != [] && var w := Word(padded[|padded| - 4..]);
      chunks[|chunks| - 1] == (if w == 0 then "!!!!!" else Chars(FiveDigits(w)))[..5 - padding]
    ensures Join(chunks) == Encode(data)
    decreases |chunks|
  {
    hide Word, Acc, FiveDigits, Group, Chars, Encode;
    if chunks == [] {
      EncodeNothing();
    } else if |data| < 4 {
      LastChunk(data, padding, padded, chunks);
    } else {
      var data', padded', chunks' := data[4..], padded[4..], chunks[1..];
      assert padded[..4] == data[..4] == padded[4 * 0..4 * 0 + 4];
      EncodeGroup(data);
      assert padded' == data' + Zeros(padding);
      forall k | 0 <= k < |chunks'| - (if padding > 0 then 1 else 0)
        ensures chunks'[k] == Group(Word(padded'[4 * k..4 * k + 4]))
      {
        assert padded[4 * (k + 1)..4 * (k + 1) + 4] == padded'[4 * k..4 * k + 4];
      }
      if padding > 0 {
        assert padded'[|padded'| - 4..] == padded[|padded| - 4..];
      }
      JoinedIsEncode(data', padding, padded', chunks');
    }
  }

  method DecodeBytes(text: string) returns (r: Result<seq<Byte>>)
    ensures r == Decode(text)
  {
    var joined: seq<Byte> := [];
    var current: seq<nat> := [];
    var stream := text + "uuuu";
    AfterNothing(Scan([], stream));
    for i := 0 to |stream|
      invariant |current| < 5
      invariant Scan([], stream) == After(joined, Scan(current, stream[i..]))
    {
      assert stream[i..][1..] == stream[i + 1..];
      ghost var later := Scan([], stream[i + 1..]);
      var ch := stream[i];
      var code := ch as int;
      if 33 <= code <= 117 {
        current := current + [code - 33];
        if |current| == 5 {
          var acc := 0;
          for k := 0 to 5
            invariant acc == Partial(current, k)
          {
            acc := acc * 85 + current[k];
          }
          PartialIsAcc(current);
          if acc > 0xffff_ffff { return Err(Overflow); }
          AfterTwice(joined, Be32(acc), later);
          joined := joined + Be32(acc);
          current := [];
        }
      } else if ch == 'z' {
        if |current| != 0 { return Err(ZInsideGroup); }
        AfterTwice(joined, [0, 0, 0, 0], later);
        joined := joined + [0, 0, 0, 0];
      } else if IsSpace(ch) {
      } else {
        return Err(InvalidChar(ch));
      }
    }
    assert stream[|stream|..] == "";
    AfterNothing(Ok(Scanned(joined, current)));
    assert Scan([], stream) == Ok(Scanned(joined, current));
    SurplusIsCovered([], text);
    var padding := 4 - |current|;
    if padding > 0 {
      joined := joined[..|joined| - padding];
    }
    return Ok(joined);
  }

  function Partial(d: seq<nat>, k: nat): nat
    requires k <= |d|
  {
    if k == 0 then 0 else Partial(d, k - 1) * 85 + d[k - 1]
  }

  lemma PartialIsAcc(d: seq<nat>)
    requires |d| == 5
    ensures Partial(d, 5) == Acc(d)
  {
    assert Partial(d, 1) == d[0];
    assert Partial(d, 2) == d[0] * 85 + d[1];
    assert Partial(d, 3) == Partial(d, 2) * 85 + d[2];
    assert Partial(d, 4) == Partial(d, 3) * 85 + d[3];
    assert Partial(d, 5) == Partial(d, 4) * 85 + d[4];
  }

  lemma AfterNothing(r: Result<Scanned>)
    ensures After([], r) == r
    ensures r.Ok? ==> After(r.value.bytes, Ok(Scanned([], r.value.current))) == r
  {
    if r.Ok? {
      assert [] + r.value.bytes == r.value.bytes && r.value.bytes + [] == r.value.bytes;
    }
  }

  lemma AfterTwice(a: seq<Byte>, b: seq<Byte>, r: Result<Scanned>)
    ensures After(a, After(b, r)) == After(a + b, r)
  {
    if r.Ok? {
      assert a + (b + r.value.bytes) == (a + b) + r.value.bytes;
    }
  }
}
