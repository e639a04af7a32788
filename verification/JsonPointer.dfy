/**
 * JSON pointers (sections 3 and 4 of RFC 6901): escaping by two global replacements and unescaping by
 * two more in the opposite order, path matching on the escaped text, and local reference resolution.
 */
module JsonPointer {
  import opened Outcomes

  // ---- Global replacement ----

  /** JavaScript's `s.replaceAll(pat, put)` for a non-empty pattern: leftmost matches, without overlap. */
  function ReplaceAll(s: string, pat: string, put: string): string
    requires pat != ""
    decreases |s|
  {
    if |s| < |pat| then s
    else if s[..|pat|] == pat then put + ReplaceAll(s[|pat|..], pat, put)
    else [s[0]] + ReplaceAll(s[1..], pat, put)
  }

  function Escape(s: string): string {
    ReplaceAll(ReplaceAll(s, "~", "~0"), "/", "~1")
  }

  /** The source's `decodePointerSegment`. */
  function Unescape(s: string): string {
    ReplaceAll(ReplaceAll(s, "~1", "/"), "~0", "~")
  }

  // ---- Escaping, character by character ----

  function TildeChar(c: char): string { if c == '~' then "~0" else [c] }

  function EscapeChar(c: char): string { if c == '~' then "~0" else if c == '/' then "~1" else [c] }

  function Tildes(s: string): string {
    if s == "" then "" else TildeChar(s[0]) + Tildes(s[1..])
  }

  function Escaped(s: string): string {
    if s == "" then "" else EscapeChar(s[0]) + Escaped(s[1..])
  }

  lemma {:induction false} FirstReplacement(s: string)
    ensures ReplaceAll(s, "~", "~0") == Tildes(s)
  {
    if s != "" {
      FirstReplacement(s[1..]);
      assert s[..1] == [s[0]];
    }
  }

  lemma ReplaceOne(c: char, rest: string)
    ensures ReplaceAll([c] + rest, "/", "~1") == (if c == '/' then "~1" else [c]) + ReplaceAll(rest, "/", "~1")
  {
    var s := [c] + rest;
    assert s[..1] == [c] && s[1..] == rest;
  }

  lemma {:induction false} SecondReplacement(s: string)
    ensures ReplaceAll(Tildes(s), "/", "~1") == Escaped(s)
  {
    if s != "" {
      var rest := Tildes(s[1..]);
      SecondReplacement(s[1..]);
      if s[0] == '~' {
        assert Tildes(s) == ['~'] + (['0'] + rest);
        ReplaceOne('~', ['0'] + rest);
        ReplaceOne('0', rest);
      } else {
        ReplaceOne(s[0], rest);
      }
    }
  }

  lemma EscapeIsEscaped(s: string)
    ensures Escape(s) == Escaped(s)
  {
    FirstReplacement(s);
    SecondReplacement(s);
  }

  // ---- Unescaping ----

  lemma MatchPair(a: char, b: char, rest: string, put: string)
    ensures ReplaceAll([a, b] + rest, [a, b], put) == put + ReplaceAll(rest, [a, b], put)
  {
    var s := [a, b] + rest;
    assert s[..2] == [a, b] && s[2..] == rest;
  }

  lemma SkipChar(c: char, rest: string, pat: string, put: string)
    requires |pat| == 2 && (c != pat[0] || (rest != "" && rest[0] != pat[1]))
    ensures ReplaceAll([c] + rest, pat, put) == [c] + ReplaceAll(rest, pat, put)
  {
    var s := [c] + rest;
    assert s[1..] == rest;
    if rest != "" {
      assert s[..2] == [c, rest[0]];
    }
  }

  lemma NothingToReplace(pat: string, put: string)
    requires pat != ""
    ensures ReplaceAll("", pat, put) == ""
  {
  }

  /** Undoing the slashes first leaves the tildes still escaped: no "~1" is made up of an escaped tilde. */
  lemma {:induction false} SlashesBack(s: string)
    ensures ReplaceAll(Escaped(s), "~1", "/") == Tildes(s)
  {
    hide ReplaceAll, EscapeChar, TildeChar;
    NothingToReplace("~1", "/");
    if s != "" {
      SlashesBack(s[1..]);
      SlashBack(s[0], Escaped(s[1..]));
    }
  }

  lemma SlashBack(c: char, rest: string)
    ensures ReplaceAll(EscapeChar(c) + rest, "~1", "/") == TildeChar(c) + ReplaceAll(rest, "~1", "/")
  {
    hide ReplaceAll;
    if c == '~' {
      TildeSkipped(rest);
    } else if c == '/' {
      MatchPair('~', '1', rest, "/");
      assert EscapeChar(c) + rest == ['~', '1'] + rest;
    } else {
      SkipChar(c, rest, "~1", "/");
    }
  }

  lemma TildeSkipped(rest: string)
    ensures ReplaceAll("~0" + rest, "~1", "/") == "~0" + ReplaceAll(rest, "~1", "/")
  {
    hide ReplaceAll;
    var after := ['0'] + rest;
    assert "~0" + rest == ['~'] + after;
    SkipChar('~', after, "~1", "/");
    SkipChar('0', rest, "~1", "/");
    assert ['~'] + (['0'] + ReplaceAll(rest, "~1", "/")) == "~0" + ReplaceAll(rest, "~1", "/");
  }

  lemma {:induction false} TildesBack(s: string)
    ensures ReplaceAll(Tildes(s), "~0", "~") == s
  {
    if s != "" {
      var rest := Tildes(s[1..]);
      TildesBack(s[1..]);
      if s[0] == '~' {
        assert Tildes(s) == ['~', '0'] + rest;
        MatchPair('~', '0', rest, "~");
      } else {
        SkipChar(s[0], rest, "~0", "~");
      }
    }
  }

  /** Unescaping undoes escaping, for every string. */
  lemma UnescapeEscape(s: string)
    ensures Unescape(Escape(s)) == s
  {
    EscapeIsEscaped(s);
    SlashesBack(s);
    TildesBack(s);
  }

  /** The opposite order of replacements would not: it turns the escape of "~1" into "/". */
  lemma OrderMatters()
    ensures ReplaceAll(ReplaceAll(Escape("~1"), "~0", "~"), "~1", "/") == "/"
  {
    EscapeIsEscaped("~1");
    assert Escaped("~1") == "~0" + Escaped("1") && Escaped("1") == "1" + Escaped("");
    MatchPair('~', '0', "1", "~");
    assert Escape("~1") == ['~', '0'] + "1";
    assert ReplaceAll("1", "~0", "~") == "1";
    MatchPair('~', '1', "", "/");
    assert ['~', '1'] + "" == "~" + "1";
  }

  // ---- Pointers ----

  function Join(parts: seq<string>): string
    requires parts != []
  {
    if |parts| == 1 then Escape(parts[0]) else Escape(parts[0]) + "/" + Join(parts[1..])
  }

  /** The source's `jsonPointer`, the path parts already strings. */
  function Pointer(path: seq<string>): string {
    if path == [] then "" else "/" + Join(path)
  }

  /** JavaScript's `s.split('/')`. */
  function Split(s: string): (parts: seq<string>)
    ensures parts != []
  {
    if s == "" then [""]
    else
      var rest := Split(s[1..]);
      if s[0] == '/' then [""] + rest else [[s[0]] + rest[0]] + rest[1..]
  }

  function Unescaped(parts: seq<string>): (r: seq<string>)
    ensures |r| == |parts| && forall i :: 0 <= i < |r| ==> r[i] == Unescape(parts[i])
  {
    seq(|parts|, i requires 0 <= i < |parts| => Unescape(parts[i]))
  }

  lemma {:induction false} NoSlash(s: string)
    ensures '/' !in Escaped(s)
  {
    if s != "" {
      NoSlash(s[1..]);
    }
  }

  lemma {:induction false} SplitPlain(s: string)
    requires '/' !in s
    ensures Split(s) == [s]
  {
    if s != "" {
      SplitPlain(s[1..]);
      assert [s[0]] + s[1..] == s;
    }
  }

  lemma {:induction false} SplitAt(s: string, rest: string)
    requires '/' !in s
    ensures Split(s + "/" + rest) == [s] + Split(rest)
  {
    var all := s + "/" + rest;
    if s == "" {
      assert all[1..] == rest;
    } else {
      assert all[1..] == s[1..] + "/" + rest;
      SplitAt(s[1..], rest);
      assert [s[0]] + s[1..] == s;
    }
  }

  lemma {:induction false} SplitJoin(path: seq<string>)
    requires path != []
    ensures Unescaped(Split(Join(path))) == path
  {
    hide Escape, Unescape;
    var e := Escape(path[0]);
    EscapeIsEscaped(path[0]);
    NoSlash(path[0]);
    UnescapeEscape(path[0]);
    if |path| == 1 {
      SplitPlain(e);
    } else {
      SplitJoin(path[1..]);
      SplitAt(e, Join(path[1..]));
      assert Unescaped([e] + Split(Join(path[1..]))) == [path[0]] + Unescaped(Split(Join(path[1..])));
    }
  }

  /** Splitting a pointer and decoding each piece returns the path, whatever its parts contain. */
  lemma PointerRoundTrip(path: seq<string>)
    requires path != []
    ensures Pointer(path)[0] == '/' && Unescaped(Split(Pointer(path)[1..])) == path
  {
    SplitJoin(path);
    assert Pointer(path)[1..] == Join(path);
  }

  // ---- Matching an issue against a field ----

  /** The source's `issueMatchesPath`. */
  predicate IssueMatchesPath(issuePath: string, fieldPath: string) {
    issuePath == fieldPath || fieldPath + "/" <= issuePath
  }

  lemma {:induction false} PointerStep(path: seq<string>)
    requires path != []
    ensures Pointer(path) == "/" + Escaped(path[0]) + Pointer(path[1..])
  {
    EscapeIsEscaped(path[0]);
  }

  lemma PointerShape(path: seq<string>)
    ensures path == [] <==> Pointer(path) == ""
    ensures path != [] ==> Pointer(path)[0] == '/'
  {
  }

  lemma {:induction false} EscapedInjective(s: string, t: string)
    requires Escaped(s) == Escaped(t)
    ensures s == t
  {
    EscapeIsEscaped(s);
    EscapeIsEscaped(t);
    UnescapeEscape(s);
    UnescapeEscape(t);
  }

  /** Two slash-free strings, each ended by a slash or by nothing, agree when the texts they start do. */
  lemma {:induction false} SameSegment(a: string, x: string, b: string, y: string)
    requires '/' !in a && '/' !in b && a + x == b + y
    requires (x == "" || x[0] == '/') && (y == "" || y[0] == '/')
    ensures a == b && x == y
  {
    assert a == "" ==> a + x == x;
    assert b == "" ==> b + y == y;
    assert a != "" ==> (a + x)[0] == a[0] && (a + x)[1..] == a[1..] + x;
    assert b != "" ==> (b + y)[0] == b[0] && (b + y)[1..] == b[1..] + y;
    if a != "" && b != "" {
      SameSegment(a[1..], x, b[1..], y);
      assert a == [a[0]] + a[1..] && b == [b[0]] + b[1..];
    }
  }

  lemma {:induction false} PointerAppend(q: seq<string>, r: seq<string>)
    ensures Pointer(q + r) == Pointer(q) + Pointer(r)
  {
    hide Pointer;
    if q == [] {
      PointerShape(q);
      assert q + r == r;
    } else {
      PointerStep(q);
      PointerStep(q + r);
      assert (q + r)[1..] == q[1..] + r;
      PointerAppend(q[1..], r);
    }
  }

  lemma SegmentMatches(s: string, x: string, t: string, y: string, tail: string)
    requires "/" + Escaped(s) + x == ("/" + Escaped(t) + y) + tail
    requires (x == "" || x[0] == '/') && (y == "" || y[0] == '/') && (tail == "" || tail[0] == '/')
    ensures s == t && x == y + tail
  {
    hide Escaped;
    var a, b := Escaped(s), Escaped(t);
    assert ("/" + a + x)[1..] == a + x && (("/" + b + y) + tail)[1..] == b + (y + tail);
    NoSlash(s);
    NoSlash(t);
    SameSegment(a, x, b, y + tail);
    EscapedInjective(s, t);
  }

  /** A pointer followed by nothing or by a further segment is a prefix of another's exactly as paths are. */
  lemma {:induction false} MatchMeansPrefix(p: seq<string>, q: seq<string>, tail: string)
    requires Pointer(p) == Pointer(q) + tail && (tail == "" || tail[0] == '/')
    ensures q <= p
    decreases |q|
  {
    hide Pointer;
    PointerShape(p);
    PointerShape(q);
    if q != [] {
      PointerStep(q);
      assert Pointer(q)[0] == '/' && Pointer(p) != "";
      PointerStep(p);
      PointerShape(p[1..]);
      PointerShape(q[1..]);
      SegmentMatches(p[0], Pointer(p[1..]), q[0], Pointer(q[1..]), tail);
      MatchMeansPrefix(p[1..], q[1..], tail);
    }
  }

  /** An issue matches a field exactly when the field's path is a segment prefix of the issue's. */
  lemma MatchingIsPrefix(p: seq<string>, q: seq<string>)
    ensures IssueMatchesPath(Pointer(p), Pointer(q)) <==> q <= p
  {
    hide Pointer;
    if IssueMatchesPath(Pointer(p), Pointer(q)) {
      var tail := Pointer(p)[|Pointer(q)|..];
      assert Pointer(p) == Pointer(q) + tail;
      if Pointer(p) != Pointer(q) {
        assert tail[0] == (Pointer(q) + "/")[|Pointer(q)|];
      }
      MatchMeansPrefix(p, q, tail);
    }
    if q <= p {
      var r := p[|q|..];
      assert p == q + r;
      PointerAppend(q, r);
      PointerShape(r);
      if r == [] {
        assert Pointer(q) + "" == Pointer(q);
      } else {
        assert Pointer(p)[..|Pointer(q)| + 1] == Pointer(q) + "/";
      }
    }
  }

  // ---- Local references ----

  datatype Json = Record(members: map<string, Json>) | Other

  /** The value reached by following member names from `root`. */
  function Get(root: Json, path: seq<string>): Option<Json>
    decreases |path|
  {
    if path == [] then Some(root)
    else if root.Record? && path[0] in root.members then Get(root.members[path[0]], path[1..])
    else None
  }

  datatype Failure = Failure(path: string, keyword: string)

  function Resolved(root: Json, seen: set<string>, reference: string): Option<Json> {
    if !("#/" <= reference) || reference in seen then None
    else
      match Get(root, Unescaped(Split(reference[2..])))
      case Some(Record(m)) => Some(Record(m))
      case _ => None
  }

  class PreparationState {
    const root: Json
    var seenRefs: set<string>
    var failure: Option<Failure>

    constructor (root: Json)
      ensures this.root == root && seenRefs == {} && failure == None
    {
      this.root := root;
      seenRefs := {};
      failure := None;
    }

    /** Only the first failure is kept. */
    method Fail(path: string, keyword: string)
      modifies this`failure
      ensures failure == if old(failure) == None then Some(Failure(path, keyword)) else old(failure)
    {
      if failure == None {
        failure := Some(Failure(path, keyword));
      }
    }

    method ResolveLocalRef(reference: string, path: string) returns (r: Option<Json>)
      modifies this`failure
      ensures r == Resolved(root, seenRefs, reference)
      ensures r.Some? ==> failure == old(failure)
      ensures r.None? ==> failure.Some? && (old(failure).Some? ==> failure == old(failure))
      ensures r.None? && old(failure).None? ==>
        failure == Some(Failure(path, if "#/" <= reference && reference in seenRefs then "$ref-cycle" else "$ref"))
    {
      if !("#/" <= reference) {
        Fail(path, "$ref");
        return None;
      }
      if reference in seenRefs {
        Fail(path, "$ref-cycle");
        return None;
      }
      var current := root;
      var raw := Split(reference[2..]);
      ghost var whole := Unescaped(raw);
      for i := 0 to |raw|
        invariant failure == old(failure)
        invariant Get(current, whole[i..]) == Get(root, whole)
      {
        assert whole[i..][0] == Unescape(raw[i]) && whole[i..][1..] == whole[i + 1..];
        if !current.Record? {
          Fail(path, "$ref");
          return None;
        }
        var segment := Unescape(raw[i]);
        if segment !in current.members {
          Fail(path, "$ref");
          return None;
        }
        current := current.members[segment];
      }
      assert whole[|raw|..] == [];
      if !current.Record? {
        Fail(path, "$ref");
        return None;
      }
      return Some(current);
    }
  }

  /** The record at a path, if there is one: what a reference to it should give. */
  function Target(root: Json, path: seq<string>): Option<Json> {
    match Get(root, path)
    case Some(Record(m)) => Some(Record(m))
    case _ => None
  }

  /** A reference written with `Pointer` resolves to the value at that path, when that is a record. */
  lemma ReferenceReaches(root: Json, seen: set<string>, path: seq<string>)
    requires path != [] && "#" + Pointer(path) !in seen
    ensures Resolved(root, seen, "#" + Pointer(path)) == Target(root, path)
  {
    var reference := "#" + Pointer(path);
    PointerRoundTrip(path);
    assert reference[..2] == "#/";
    assert reference[2..] == Pointer(path)[1..];
  }

  /** The empty path has no such reference: "#" alone is refused, whatever the schema. */
  lemma RootNotReachable(root: Json, seen: set<string>)
    ensures Resolved(root, seen, "#" + Pointer([])) == None
  {
    assert |"#" + Pointer([])| == 1;
  }

  /** A reference that is not part of a cycle gives its target exactly when its path is not empty, or there is no target. */
  lemma ReferenceExact(root: Json, seen: set<string>, path: seq<string>)
    requires "#" + Pointer(path) !in seen
    ensures Resolved(root, seen, "#" + Pointer(path)) == Target(root, path) <==> path != [] || !root.Record?
  {
    if path == [] {
      RootNotReachable(root, seen);
    } else {
      ReferenceReaches(root, seen, path);
    }
  }
}
