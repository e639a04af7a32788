/**
 * Base58 and Base62: the bytes are one number, rewritten in another radix, with the leading zero
 * digits carried over one for one. Both directions are the same radix change.
 */
module BaseN {
  import opened Arithmetic
  import opened Alphabets
  import opened Outcomes

  // ---- Radix change on digit strings, most significant digit first ----

  predicate DigitsBelow(ds: seq<nat>, r: nat) {
    forall i :: 0 <= i < |ds| ==> ds[i] < r
  }

  function Value(ds: seq<nat>, r: nat): nat {
    if ds == [] then 0 else Value(ds[..|ds| - 1], r) * r + ds[|ds| - 1]
  }

  function Digits(v: nat, r: nat): (ds: seq<nat>)
    requires r >= 2
    ensures DigitsBelow(ds, r)
    ensures ds != [] ==> ds[0] != 0
    ensures ds == [] <==> v == 0
  {
    if v == 0 then [] else
      DivFacts(v, r);
      Digits(v / r, r) + [v % r]
  }

  function LeadingZeros(ds: seq<nat>): (k: nat)
    ensures k <= |ds|
    ensures forall i :: 0 <= i < k ==> ds[i] == 0
    ensures k < |ds| ==> ds[k] != 0
  {
    if ds == [] || ds[0] != 0 then 0 else 1 + LeadingZeros(ds[1..])
  }

  function Zeros(k: nat): seq<nat> {
    seq(k, _ => 0)
  }

  function Convert(ds: seq<nat>, from: nat, to: nat): (out: seq<nat>)
    requires to >= 2
    ensures DigitsBelow(out, to)
  {
    Zeros(LeadingZeros(ds)) + Digits(Value(ds, from), to)
  }

  lemma {:induction false} ValueOfDigits(v: nat, r: nat)
    requires r >= 2
    ensures Value(Digits(v, r), r) == v
  {
    if v > 0 {
      DivFacts(v, r);
      ValueOfDigits(v / r, r);
      var ds := Digits(v, r);
      assert ds[..|ds| - 1] == Digits(v / r, r);
    }
  }

  lemma {:induction false} ValuePositive(ds: seq<nat>, r: nat)
    requires r >= 2 && ds != [] && ds[0] != 0
    ensures Value(ds, r) > 0
  {
    if |ds| > 1 {
      ValuePositive(ds[..|ds| - 1], r);
      MulMono(1, Value(ds[..|ds| - 1], r), r);
    }
  }

  lemma {:induction false} DigitsOfValue(ds: seq<nat>, r: nat)
    requires r >= 2 && DigitsBelow(ds, r) && (ds != [] ==> ds[0] != 0)
    ensures Digits(Value(ds, r), r) == ds
  {
    if ds != [] {
      var front, last := ds[..|ds| - 1], ds[|ds| - 1];
      ValuePositive(ds, r);
      DigitsOfValue(front, r);
      DivModUnique(Value(ds, r), r, Value(front, r), last);
    }
  }

  lemma {:induction false} ValueSkipsZeros(k: nat, ds: seq<nat>, r: nat)
    ensures Value(Zeros(k) + ds, r) == Value(ds, r)
    decreases k, |ds|
  {
    var all := Zeros(k) + ds;
    if ds != [] {
      assert all[..|all| - 1] == Zeros(k) + ds[..|ds| - 1];
      ValueSkipsZeros(k, ds[..|ds| - 1], r);
    } else if k > 0 {
      assert all[..|all| - 1] == Zeros(k - 1) + [];
      ValueSkipsZeros(k - 1, [], r);
    }
  }

  lemma {:induction false} LeadingZerosOf(k: nat, ds: seq<nat>)
    requires ds != [] ==> ds[0] != 0
    ensures LeadingZeros(Zeros(k) + ds) == k
  {
    var all := Zeros(k) + ds;
    assert forall i :: 0 <= i < k ==> all[i] == 0;
    assert ds != [] ==> all[k] == ds[0];
  }

  /** The radix change from `to` back to `from` undoes the one from `from` to `to`, leading zeros included. */
  lemma ConvertInverse(ds: seq<nat>, from: nat, to: nat)
    requires from >= 2 && to >= 2 && DigitsBelow(ds, from)
    ensures Convert(Convert(ds, from, to), to, from) == ds
  {
    var k := LeadingZeros(ds);
    var body := ds[k..];
    assert ds == Zeros(k) + body;
    ValueSkipsZeros(k, body, from);
    var v := Value(body, from);
    LeadingZerosOf(k, Digits(v, to));
    ValueSkipsZeros(k, Digits(v, to), to);
    ValueOfDigits(v, to);
    DigitsOfValue(body, from);
  }

  /** The radix change is decided by the value and the zeros in front. */
  lemma ConvertExactly(ds: seq<nat>, from: nat, to: nat, es: seq<nat>)
    requires to >= 2 && DigitsBelow(es, to)
    ensures es == Convert(ds, from, to) <==> Value(es, to) == Value(ds, from) && LeadingZeros(es) == LeadingZeros(ds)
  {
    hide Value, Digits;
    var k, v := LeadingZeros(ds), Value(ds, from);
    ValueSkipsZeros(k, Digits(v, to), to);
    ValueOfDigits(v, to);
    LeadingZerosOf(k, Digits(v, to));
    if Value(es, to) == v && LeadingZeros(es) == k {
      assert es == Zeros(k) + es[k..];
      ValueSkipsZeros(k, es[k..], to);
      DigitsOfValue(es[k..], to);
    }
  }

  // ---- Texts over an alphabet ----

  predicate IsAlphabet(abc: string) {
    |abc| >= 2 && Distinct(abc)
  }

  function Symbols(ds: seq<nat>, abc: string): (s: string)
    requires DigitsBelow(ds, |abc|)
    ensures |s| == |ds| && forall i :: 0 <= i < |s| ==> s[i] == abc[ds[i]]
  {
    seq(|ds|, i requires 0 <= i < |ds| => abc[ds[i]])
  }

  /** The position of the first character outside the alphabet, or the length of the text. */
  function FirstInvalid(text: string, abc: string): (k: nat)
    ensures k <= |text|
    ensures forall i :: 0 <= i < k ==> text[i] in abc
    ensures k < |text| ==> text[k] !in abc
  {
    if text == "" || text[0] !in abc then 0 else 1 + FirstInvalid(text[1..], abc)
  }

  function Indices(text: string, abc: string): (ds: seq<nat>)
    requires forall i :: 0 <= i < |text| ==> text[i] in abc
    ensures |ds| == |text| && DigitsBelow(ds, |abc|)
    ensures forall i :: 0 <= i < |text| ==> ds[i] == IndexOf(abc, text[i])
  {
    seq(|text|, i requires 0 <= i < |text| => IndexOf(abc, text[i]))
  }

  function ToBytes(ds: seq<nat>): (data: seq<Byte>)
    requires DigitsBelow(ds, 256)
    ensures |data| == |ds| && forall i :: 0 <= i < |ds| ==> data[i] == ds[i]
  {
    seq(|ds|, i requires 0 <= i < |ds| => ds[i])
  }

  function FromBytes(data: seq<Byte>): (ds: seq<nat>)
    ensures |data| == |ds| && DigitsBelow(ds, 256) && forall i :: 0 <= i < |ds| ==> data[i] == ds[i]
  {
    seq(|data|, i requires 0 <= i < |data| => data[i] as nat)
  }

  function Encode(data: seq<Byte>, abc: string): string
    requires IsAlphabet(abc)
  {
    Symbols(Convert(FromBytes(data), 256, |abc|), abc)
  }

  function Decode(text: string, abc: string): Result<seq<Byte>>
    requires IsAlphabet(abc)
  {
    var k := FirstInvalid(text, abc);
    if k < |text| then Err(InvalidChar(text[k]))
    else Ok(ToBytes(Convert(Indices(text, abc), |abc|, 256)))
  }

  /** Every byte string comes back from its encoding. */
  lemma DecodeEncode(data: seq<Byte>, abc: string)
    requires IsAlphabet(abc)
    ensures Decode(Encode(data, abc), abc) == Ok(data)
  {
    var ds := Convert(FromBytes(data), 256, |abc|);
    var text := Symbols(ds, abc);
    forall i | 0 <= i < |text| ensures text[i] in abc && IndexOf(abc, text[i]) == ds[i] {
      IndexOfSymbol(abc, ds[i]);
    }
    assert Indices(text, abc) == ds;
    ConvertInverse(FromBytes(data), 256, |abc|);
    assert ToBytes(FromBytes(data)) == data;
  }

  /** Every text over the alphabet comes back from its decoding; no other text decodes at all. */
  lemma EncodeDecode(text: string, abc: string)
    requires IsAlphabet(abc)
    ensures Decode(text, abc).Ok? <==> forall i :: 0 <= i < |text| ==> text[i] in abc
    ensures Decode(text, abc).Ok? ==> Encode(Decode(text, abc).value, abc) == text
  {
    if FirstInvalid(text, abc) == |text| {
      var ds := Indices(text, abc);
      ConvertInverse(ds, |abc|, 256);
      assert FromBytes(ToBytes(Convert(ds, |abc|, 256))) == Convert(ds, |abc|, 256);
      assert Symbols(ds, abc) == text;
    }
  }

  /** The encoding is the text over the alphabet with the value of the bytes and as many zeros in front. */
  lemma EncodeExactly(data: seq<Byte>, abc: string, text: string)
    requires IsAlphabet(abc)
    ensures text == Encode(data, abc) <==>
      ((forall i :: 0 <= i < |text| ==> text[i] in abc)
       && Value(Indices(text, abc), |abc|) == Value(FromBytes(data), 256)
       && LeadingZeros(Indices(text, abc)) == LeadingZeros(FromBytes(data)))
  {
    hide Convert, Value, LeadingZeros;
    var es := Convert(FromBytes(data), 256, |abc|);
    if text == Encode(data, abc) {
      forall i | 0 <= i < |text| ensures text[i] in abc && IndexOf(abc, text[i]) == es[i] {
        IndexOfSymbol(abc, es[i]);
      }
      assert Indices(text, abc) == es;
    }
    if forall i :: 0 <= i < |text| ==> text[i] in abc {
      ConvertExactly(FromBytes(data), 256, |abc|, Indices(text, abc));
      assert Symbols(Indices(text, abc), abc) == text;
    }
  }

  /** Base58 and Base62 are bijections between byte strings and texts over their alphabets. */
  lemma StandardAlphabets()
    ensures IsAlphabet(BASE58) && |BASE58| == 58 && IsAlphabet(BASE62) && |BASE62| == 62
  {
    Base58Distinct();
    Base62Distinct();
  }

  // ---- The codec ----

  function Reversed<T>(s: seq<T>): (r: seq<T>)
    ensures |r| == |s| && forall i :: 0 <= i < |s| ==> r[i] == s[|s| - 1 - i]
  {
    seq(|s|, i requires 0 <= i < |s| => s[|s| - 1 - i])
  }

  /** Splitting a value into digits, least significant first, until nothing is left. */
  method SplitDigits(v: nat, radix: nat) returns (digits: seq<nat>)
    requires radix >= 2
    ensures Reversed(digits) == Digits(v, radix)
  {
    var value: nat := v;
    digits := [];
    while value > 0
      invariant Digits(v, radix) == Digits(value, radix) + Reversed(digits)
    {
      DivFacts(value, radix);
      assert Reversed(digits + [value % radix]) == [value % radix] + Reversed(digits);
      digits := digits + [value % radix];
      value := value / radix;
      assert Digits(v, radix) == Digits(value, radix) + Reversed(digits);
    }
  }

  lemma NoValue(r: nat)
    ensures Value([], r) == 0
  {
  }

  lemma ValueSnoc(ds: seq<nat>, k: nat, r: nat)
    requires k < |ds|
    ensures Value(ds[..k + 1], r) == Value(ds[..k], r) * r + ds[k]
  {
    assert ds[..k + 1][..k] == ds[..k];
  }

  method CountLeading(ds: seq<nat>) returns (pad: nat)
    ensures pad == LeadingZeros(ds)
  {
    pad := 0;
    while pad < |ds| && ds[pad] == 0
      invariant pad <= |ds| && LeadingZeros(ds) == pad + LeadingZeros(ds[pad..])
    {
      assert ds[pad..][1..] == ds[pad + 1..];
      pad := pad + 1;
    }
  }

  method EncodeBytes(data: seq<Byte>, abc: string) returns (text: string)
    requires IsAlphabet(abc)
    ensures text == Encode(data, abc)
  {
    ghost var ds := FromBytes(data);
    var value := 0;
    for i := 0 to |data|
      invariant value == Value(ds[..i], 256)
    {
      ValueSnoc(ds, i, 256);
      ShiftInByte(value, data[i]);
      value := Or(Shl(value, 8), data[i]);
    }
    assert ds[..|data|] == ds;
    var digits := SplitDigits(value, |abc|);
    var pad := CountLeading(FromBytes(data));
    digits := Reversed(digits);
    text := seq(pad, _ => abc[0]) + Symbols(digits, abc);
  }

  lemma ShiftInByte(value: nat, y: Byte)
    ensures Or(Shl(value, 8), y) == value * 256 + y
  {
    assert Pow(2, 4) == 16;
    PowAdd(2, 4, 4);
    OrDisjoint(y, value, 8);
    OrCommutes(Shl(value, 8), y);
  }

  lemma {:induction false} OrCommutes(x: nat, y: nat)
    ensures Or(x, y) == Or(y, x)
    decreases x + y
  {
    if x > 0 && y > 0 {
      OrCommutes(x / 2, y / 2);
    }
  }

  method IntToBytes(v: nat) returns (data: seq<Byte>)
    ensures FromBytes(data) == Digits(v, 256)
  {
    var value := v;
    var bytes: seq<Byte> := [];
    while value > 0
      invariant Digits(v, 256) == Digits(value, 256) + Reversed(FromBytes(bytes))
    {
      assert Reversed(FromBytes(bytes + [value % 256])) == [value % 256] + Reversed(FromBytes(bytes));
      bytes := bytes + [value % 256];
      value := value / 256;
    }
    data := Reversed(bytes);
    assert FromBytes(data) == Reversed(FromBytes(bytes));
  }

  method DecodeText(text: string, abc: string) returns (r: Result<seq<Byte>>)
    requires IsAlphabet(abc)
    ensures r == Decode(text, abc)
  {
    hide Distinct, Convert, Value;
    NoValue(|abc|);
    var value := 0;
    ghost var ds: seq<nat> := [];
    for i := 0 to |text|
      invariant |ds| == i && forall j :: 0 <= j < i ==> text[j] in abc && ds[j] == IndexOf(abc, text[j])
      invariant value == Value(ds, |abc|)
    {
      var idx := IndexOf(abc, text[i]);
      if idx < 0 {
        assert FirstInvalid(text, abc) == i;
        return Err(InvalidChar(text[i]));
      }
      ds := ds + [idx];
      ValueSnoc(ds, i, |abc|);
      assert ds[..i] + [idx] == ds && ds[..i + 1] == ds;
      value := value * |abc| + idx;
    }
    assert ds == Indices(text, abc);
    var pad := CountLeadingSymbols(text, abc, ds);
    var body := IntToBytes(value);
    var out: seq<Byte> := seq(pad, _ => 0) + body;
    PaddedBytes(ds, |abc|, out, body);
    return Ok(out);
  }

  /** Counting the leading zero symbols of a text counts the leading zeros of its digits. */
  method CountLeadingSymbols(text: string, abc: string, ghost ds: seq<nat>) returns (pad: nat)
    requires IsAlphabet(abc) && |ds| == |text|
    requires forall j :: 0 <= j < |text| ==> text[j] in abc && ds[j] == IndexOf(abc, text[j])
    ensures pad == LeadingZeros(ds)
  {
    pad := 0;
    IndexOfSymbol(abc, 0);
    while pad < |text| && text[pad] == abc[0]
      invariant pad <= |text| && LeadingZeros(ds) == pad + LeadingZeros(ds[pad..])
    {
      assert ds[pad..][1..] == ds[pad + 1..];
      pad := pad + 1;
    }
  }

  lemma PaddedBytes(ds: seq<nat>, r: nat, out: seq<Byte>, body: seq<Byte>)
    requires FromBytes(body) == Digits(Value(ds, r), 256)
    requires out == seq(LeadingZeros(ds), _ => 0) + body
    ensures ToBytes(Convert(ds, r, 256)) == out
  {
    assert FromBytes(out) == Convert(ds, r, 256);
  }
}
