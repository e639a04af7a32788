/** Which texts ASCII85 decodes, and to what, said of the text's groups. */
module Ascii85Grammar {
  import opened Arithmetic
  import opened BigEndian
  import opened Outcomes
  import opened Ascii85

  predicate AllDigits(g: string) {
    forall i :: 0 <= i < |g| ==> '!' <= g[i] <= 'u'
  }

  function Values(g: string): (ds: seq<nat>)
    requires AllDigits(g)
    ensures |ds| == |g| && forall i :: 0 <= i < |ds| ==> ds[i] < 85
  {
    seq(|g|, i requires 0 <= i < |g| => g[i] as nat - 33)
  }

  /** A single z, or five digits worth a 32-bit number. */
  predicate Whole(g: string) {
    g == "z" || (|g| == 5 && AllDigits(g) && Acc(Values(g)) < U32_END)
  }

  function GroupBytes(g: string): (b: seq<Byte>)
    requires Whole(g)
    ensures |b| == 4
  {
    if g == "z" then [0, 0, 0, 0] else Be32(Acc(Values(g)))
  }

  /** A cut group: fewer than five digits, worth a 32-bit number once it is filled up with the highest digit. */
  predicate Cut(g: string) {
    |g| < 5 && AllDigits(g) && (g != "" ==> Whole(g + Us(5 - |g|)))
  }

  function CutBytes(g: string): seq<Byte>
    requires Cut(g)
  {
    if g == "" then [] else GroupBytes(g + Us(5 - |g|))[..|g| - 1]
  }

  function Bytes(groups: seq<string>): seq<Byte>
    requires forall g :: g in groups ==> Whole(g)
  {
    if groups == [] then [] else GroupBytes(groups[0]) + Bytes(groups[1..])
  }

  /** The text, its white space left out, is made of whole groups and one cut group. */
  predicate Spells(text: string, groups: seq<string>, rest: string) {
    Stripped(text) == Join(groups) + rest && (forall g :: g in groups ==> Whole(g)) && Cut(rest)
  }

  lemma CharsOfValues(g: string)
    requires AllDigits(g)
    ensures Chars(Values(g)) == g
  {
  }

  lemma ScanWhole(g: string, more: string)
    requires Whole(g)
    ensures Scan([], g + more) == After(GroupBytes(g), Scan([], more))
  {
    hide Be32, Acc;
    if g == "z" {
      assert (g + more)[1..] == more;
    } else {
      CharsOfValues(g);
      ScanDigits([], Values(g), more);
      assert [] + Values(g) == Values(g);
    }
  }

  lemma ScanCut(rest: string)
    requires |rest| < 5 && AllDigits(rest)
    ensures Cut(rest) <==> Scan([], rest + "uuuu").Ok?
    ensures Cut(rest) ==> var s := Scan([], rest + "uuuu").value;
      |s.bytes| >= 4 - |s.current| && s.bytes[..|s.bytes| - (4 - |s.current|)] == CutBytes(rest)
  {
    hide Be32, Acc, Scan;
    assert "uuuu" == Us(4);
    CharsOfValues(rest);
    ScanDigits([], Values(rest), Us(4));
    assert [] + Values(rest) == Values(rest);
    Fill(Values(rest), 4);
    if rest != "" {
      assert Values(rest + Us(5 - |rest|)) == Values(rest) + seq(5 - |rest|, _ => 84);
    }
  }

  /** Whole groups and a cut one decode to their bytes. */
  lemma {:induction false} ScanGroups(groups: seq<string>, rest: string)
    requires (forall g :: g in groups ==> Whole(g)) && Cut(rest)
    ensures var r := Scan([], Join(groups) + rest + "uuuu");
      r.Ok? && |r.value.bytes| >= 4 - |r.value.current|
      && r.value.bytes[..|r.value.bytes| - (4 - |r.value.current|)] == Bytes(groups) + CutBytes(rest)
  {
    hide Scan, Whole, Cut, GroupBytes, CutBytes;
    CutShort(rest);
    ScanCut(rest);
    if groups == [] {
      assert "" + rest + "uuuu" == rest + "uuuu";
    } else {
      ScanGroups(groups[1..], rest);
      var more := Join(groups[1..]) + rest + "uuuu";
      assert Join(groups) + rest + "uuuu" == groups[0] + more;
      ScanWhole(groups[0], more);
    }
  }

  lemma CutShort(g: string)
    requires Cut(g)
    ensures |g| < 5 && AllDigits(g)
  {
  }

  /** Where a group has begun, scanning goes on only over digits, until it is whole. */
  lemma {:induction false} DigitsFollow(current: seq<nat>, s: string, more: string)
    requires |current| < 5 && |current| + |s| <= 5 && (current != [] || s == "" || s[0] != 'z')
    requires (forall i :: 0 <= i < |s| ==> !IsSpace(s[i])) && Scan(current, s + more).Ok?
    ensures AllDigits(s)
    decreases |s|
  {
    hide Acc, Be32;
    if s != "" {
      assert (s + more)[1..] == s[1..] + more;
      if |current| < 4 {
        DigitsFollow(current + [s[0] as nat - 33], s[1..], more);
      }
    }
  }

  /** A text that scans begins with a z, or with five digits worth a 32-bit number, or is a cut group. */
  lemma FirstGroup(s: string) returns (g: string)
    requires s != "" && (forall i :: 0 <= i < |s| ==> !IsSpace(s[i])) && Scan([], s + "uuuu").Ok?
    ensures g <= s && if |s| < 5 && s[0] != 'z' then g == "" && Cut(s) else Whole(g)
  {
    hide Scan, Acc, Be32;
    if s[0] == 'z' {
      g := s[..1];
    } else if |s| < 5 {
      g := "";
      DigitsFollow([], s, "uuuu");
      ScanCut(s);
    } else {
      g := s[..5];
      assert s + "uuuu" == g + (s[5..] + "uuuu");
      DigitsFollow([], g, s[5..] + "uuuu");
      WholeWhenScanned(g, s[5..] + "uuuu");
    }
  }

  lemma WholeWhenScanned(g: string, more: string)
    requires |g| == 5 && AllDigits(g) && Scan([], g + more).Ok?
    ensures Whole(g)
  {
    hide Acc, Be32;
    var four := g[..4];
    CharsOfValues(four);
    ScanDigits([], Values(four), [g[4]] + more);
    assert g + more == four + ([g[4]] + more);
    assert ([g[4]] + more)[1..] == more;
    assert ([] + Values(four)) + [g[4] as nat - 33] == Values(g);
  }

  /** A text that scans is made of groups. */
  lemma {:induction false} SplitsIntoGroups(s: string) returns (groups: seq<string>, rest: string)
    requires (forall i :: 0 <= i < |s| ==> !IsSpace(s[i])) && Scan([], s + "uuuu").Ok?
    ensures s == Join(groups) + rest && (forall g :: g in groups ==> Whole(g)) && Cut(rest)
    decreases |s|
  {
    hide Scan, Whole, Cut, IsSpace;
    groups, rest := [], s;
    if s == "" {
      NothingIsCut();
    } else {
      var g := FirstGroup(s);
      if |s| < 5 && s[0] != 'z' {
        assert "" + s == s;
      } else {
        NotEmpty(g);
        var s' := s[|g|..];
        assert s + "uuuu" == g + (s' + "uuuu");
        ScanWhole(g, s' + "uuuu");
        groups, rest := SplitsIntoGroups(s');
        assert Join([g] + groups) == g + Join(groups);
        assert s == g + s';
        groups := [g] + groups;
      }
    }
  }

  lemma NothingIsCut() ensures Cut("") {
  }

  lemma NotEmpty(g: string)
    requires Whole(g)
    ensures g != ""
  {
  }

  lemma {:induction false} StrippedHasNoSpace(text: string)
    ensures forall i :: 0 <= i < |Stripped(text)| ==> !IsSpace(Stripped(text)[i])
  {
    hide IsSpace;
    if text != "" {
      StrippedHasNoSpace(text[1..]);
    }
  }

  /**
   * Decoding succeeds exactly on texts that are, but for white space, whole groups and at most one cut group at the
   * end, all worth 32-bit numbers; and it gives their bytes in turn.
   */
  lemma DecodesExactly(text: string)
    ensures Decode(text).Ok? <==> exists groups, rest :: Spells(text, groups, rest)
    ensures forall groups, rest :: Spells(text, groups, rest) ==> Decode(text) == Ok(Bytes(groups) + CutBytes(rest))
  {
    hide Scan, Whole, Cut, CutBytes, IsSpace;
    var s := Stripped(text);
    SpaceIgnored(text, []);
    StrippedHasNoSpace(text);
    if Decode(text).Ok? {
      var groups, rest := SplitsIntoGroups(s);
      assert Spells(text, groups, rest);
    }
    forall groups, rest | Spells(text, groups, rest) ensures Decode(text) == Ok(Bytes(groups) + CutBytes(rest)) {
      ScanGroups(groups, rest);
    }
  }

  lemma {:induction false} StrippedJoin(a: string, b: string)
    ensures Stripped(a + b) == Stripped(a) + Stripped(b)
  {
    hide IsSpace;
    if a == "" {
      assert a + b == b;
    } else {
      assert (a + b)[1..] == a[1..] + b;
      StrippedJoin(a[1..], b);
    }
  }

  lemma {:induction false} GroupCharacters(groups: seq<string>, ch: char)
    requires (forall g :: g in groups ==> Whole(g)) && ch in Join(groups)
    ensures '!' <= ch <= 'u' || ch == 'z'
  {
    hide Acc;
    var g := groups[0];
    assert Whole(g);
    if ch !in g {
      GroupCharacters(groups[1..], ch);
    } else {
      var i :| 0 <= i < |g| && g[i] == ch;
    }
  }

  /** Five characters are skipped wherever they stand; every other but the digits and z makes a text undecodable. */
  lemma OthersRefused(a: string, ch: char, b: string)
    requires !('!' <= ch <= 'u') && ch != 'z'
    ensures if ch in " \t\n\r\U{000B}" then Decode(a + [ch] + b) == Decode(a + b) else Decode(a + [ch] + b).Err?
  {
    hide Decode;
    var text := a + [ch] + b;
    StrippedJoin(a + [ch], b);
    StrippedJoin(a, [ch]);
    StrippedJoin(a, b);
    assert [ch][1..] == "";
    if IsSpace(ch) {
      assert Stripped(text) == Stripped(a + b);
      SpaceIgnored(text, []);
      SpaceIgnored(a + b, []);
    } else {
      DecodesExactly(text);
      forall groups, rest | Spells(text, groups, rest) ensures false {
        assert ch in Stripped(text);
        if ch in Join(groups) {
          GroupCharacters(groups, ch);
        }
      }
    }
  }
}
