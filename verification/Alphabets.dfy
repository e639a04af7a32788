/** Alphabets as strings of distinct characters, and the lookup the decoders use. */
module Alphabets {
  predicate Distinct(s: string) {
    forall i, j :: 0 <= i < j < |s| ==> s[i] != s[j]
  }

  /** The position of the first occurrence of `ch`, or -1. */
  function IndexOf(s: string, ch: char): (k: int)
    ensures -1 <= k < |s|
    ensures k >= 0 ==> s[k] == ch && ch !in s[..k]
    ensures k < 0 <==> ch !in s
  {
    if s == "" then -1
    else if s[0] == ch then 0
    else
      var k := IndexOf(s[1..], ch);
      if k < 0 then -1
      else
        assert s[..k + 1] == [s[0]] + s[1..][..k];
        k + 1
  }

  lemma IndexOfSymbol(s: string, i: nat)
    requires Distinct(s) && i < |s|
    ensures IndexOf(s, s[i]) == i
  {
    var k := IndexOf(s, s[i]);
    assert s[i] in s;
    assert forall j :: 0 <= j < k ==> s[..k][j] == s[j] && s[j] != s[i];
  }

  const UPPER := "ABCDEFGHIJKLMNOPQRSTUVWXYZ"
  const LOWER := "abcdefghijklmnopqrstuvwxyz"
  const DIGITS := "0123456789"
  const BASE58 := "123456789" + "ABCDEFGHJKLMNPQRSTUVWXYZ" + "abcdefghijkmnopqrstuvwxyz"
  const BASE62 := DIGITS + UPPER + LOWER
  const BASE91 := (UPPER + LOWER + DIGITS) + "!#$%&()*+,./" + (":;<=>?@[]^_`{|}~" + ['"'])

  predicate Rising(s: string) {
    forall i, j :: 0 <= i < j < |s| ==> s[i] < s[j]
  }

  lemma {:induction false} RisingFromSteps(s: string)
    requires forall i :: 0 < i < |s| ==> s[i - 1] < s[i]
    ensures Rising(s)
  {
    if |s| > 1 {
      var front := s[..|s| - 1];
      RisingFromSteps(front);
      forall i, j | 0 <= i < j < |s| ensures s[i] < s[j] {
        assert front[i] == s[i];
        if j < |s| - 1 {
          assert front[j] == s[j];
        } else if i < |s| - 2 {
          assert front[|s| - 2] == s[|s| - 2];
        }
      }
    }
  }

  predicate Apart(a: string, b: string) {
    forall i, j :: 0 <= i < |a| && 0 <= j < |b| ==> a[i] != b[j]
  }

  lemma DistinctJoin(a: string, b: string)
    requires Distinct(a) && Distinct(b) && Apart(a, b)
    ensures Distinct(a + b)
  {
  }

  /** Strings whose characters rise within `lo..hi`: distinct, and apart from those of a disjoint range. */
  predicate Span(s: string, lo: char, hi: char) {
    Rising(s) && forall i :: 0 <= i < |s| ==> lo <= s[i] <= hi
  }

  /** Three strings over disjoint ranges join to one of distinct characters. */
  lemma ThreeSpans(a: string, b: string, c: string, a0: char, a1: char, b0: char, b1: char, c0: char, c1: char)
    requires Span(a, a0, a1) && Span(b, b0, b1) && Span(c, c0, c1)
    requires a1 < b0 || b1 < a0
    requires a1 < c0 || c1 < a0
    requires b1 < c0 || c1 < b0
    ensures Distinct(a + b + c)
    ensures forall i :: 0 <= i < |a + b + c| ==> var x := (a + b + c)[i]; a0 <= x <= a1 || b0 <= x <= b1 || c0 <= x <= c1
  {
    DistinctJoin(a, b);
    DistinctJoin(a + b, c);
  }

  lemma UpperSpan() ensures Span(UPPER, 'A', 'Z') && |UPPER| == 26 {
    RisingFromSteps(UPPER);
  }

  lemma LowerSpan() ensures Span(LOWER, 'a', 'z') && |LOWER| == 26 {
    RisingFromSteps(LOWER);
  }

  lemma DigitSpan() ensures Span(DIGITS, '0', '9') && |DIGITS| == 10 {
    RisingFromSteps(DIGITS);
  }

  lemma Base58DigitSpan()
    ensures Span("123456789", '1', '9') && |"123456789"| == 9
  {
    RisingFromSteps("123456789");
  }

  lemma Base58UpperSpan()
    ensures Span("ABCDEFGHJKLMNPQRSTUVWXYZ", 'A', 'Z') && |"ABCDEFGHJKLMNPQRSTUVWXYZ"| == 24
  {
    RisingFromSteps("ABCDEFGHJKLMNPQRSTUVWXYZ");
  }

  lemma Base58LowerSpan()
    ensures Span("abcdefghijkmnopqrstuvwxyz", 'a', 'z') && |"abcdefghijkmnopqrstuvwxyz"| == 25
  {
    RisingFromSteps("abcdefghijkmnopqrstuvwxyz");
  }

  lemma Base58Distinct()
    ensures Distinct(BASE58) && |BASE58| == 58
  {
    Base58DigitSpan();
    Base58UpperSpan();
    Base58LowerSpan();
    ThreeSpans("123456789", "ABCDEFGHJKLMNPQRSTUVWXYZ", "abcdefghijkmnopqrstuvwxyz", '1', '9', 'A', 'Z', 'a', 'z');
  }

  lemma Base62Distinct()
    ensures Distinct(BASE62) && |BASE62| == 62
  {
    UpperSpan();
    LowerSpan();
    DigitSpan();
    ThreeSpans(DIGITS, UPPER, LOWER, '0', '9', 'A', 'Z', 'a', 'z');
  }

  lemma Base91LowSymbols()
    ensures Span("!#$%&()*+,./", '!', '/') && |"!#$%&()*+,./"| == 12 && '"' !in "!#$%&()*+,./"
  {
    RisingFromSteps("!#$%&()*+,./");
  }

  lemma Base91HighSymbols()
    ensures Span(":;<=>?@[]^_`{|}~", ':', '~') && |":;<=>?@[]^_`{|}~"| == 16
    ensures forall c :: c in ":;<=>?@[]^_`{|}~" ==> !IsLetterOrDigit(c)
  {
    RisingFromSteps(":;<=>?@[]^_`{|}~");
  }

  predicate IsLetterOrDigit(c: char) {
    '0' <= c <= '9' || 'A' <= c <= 'Z' || 'a' <= c <= 'z'
  }

  /** Letters and digits, then symbols in two rising pieces, then the quote. */
  lemma JoinWithSymbols(letters: string, low: string, high: string, quote: char)
    requires Distinct(letters) && forall c :: c in letters ==> IsLetterOrDigit(c)
    requires Span(low, '!', '/') && quote !in low && '!' <= quote <= '/'
    requires Span(high, ':', '~') && forall c :: c in high ==> !IsLetterOrDigit(c)
    ensures Distinct(letters + low + (high + [quote]))
  {
    forall i, j | 0 <= i < |letters| && 0 <= j < |high| ensures letters[i] != high[j] {
      assert letters[i] in letters && high[j] in high;
    }
    forall i, j | 0 <= i < |letters| && 0 <= j < |low| ensures letters[i] != low[j] {
      assert letters[i] in letters;
    }
    forall i | 0 <= i < |letters| ensures letters[i] != quote {
      assert letters[i] in letters;
    }
    DistinctJoin(letters, low);
    DistinctJoin(high, [quote]);
    DistinctJoin(letters + low, high + [quote]);
  }

  lemma Base91Distinct()
    ensures Distinct(BASE91) && |BASE91| == 91
  {
    UpperSpan();
    LowerSpan();
    DigitSpan();
    ThreeSpans(UPPER, LOWER, DIGITS, 'A', 'Z', 'a', 'z', '0', '9');
    Base91LowSymbols();
    Base91HighSymbols();
    JoinWithSymbols(UPPER + LOWER + DIGITS, "!#$%&()*+,./", ":;<=>?@[]^_`{|}~", '"');
  }
}
