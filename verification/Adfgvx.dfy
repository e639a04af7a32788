/**
 * ADFGVX: each character becomes a pair of symbols naming its row and column in a keyed 6 x 6 grid,
 * and the symbols, written in rows under a second key word, are read off column by column in key order.
 */
module Adfgvx {
  import opened Arithmetic
  import opened Alphabets
  import opened Outcomes

  const SYMS := "ADFGVX"
  const ALPH := UPPER + DIGITS

  function UpperChar(c: char): char {
    if 'a' <= c <= 'z' then (c as int - 32) as char else c
  }

  function Upper(s: string): (u: string)
    ensures |u| == |s|
  {
    seq(|s|, i requires 0 <= i < |s| => UpperChar(s[i]))
  }

  function Keep(s: string, abc: string): (t: string)
    ensures forall i :: 0 <= i < |t| ==> t[i] in abc
  {
    if s == "" then "" else (if s[0] in abc then [s[0]] else "") + Keep(s[1..], abc)
  }

  /** 36 distinct characters, the padding character among them. */
  predicate IsAlphabet(abc: string) {
    |abc| == 36 && Distinct(abc) && 'A' in abc
  }

  predicate IsSymbols(sym: string) {
    |sym| == 6 && Distinct(sym) && forall i :: 0 <= i < 6 ==> UpperChar(sym[i]) == sym[i]
  }

  // ---- The grid ----

  /** The characters of `s` that belong to the alphabet, each at its first occurrence, after those in `seen`. */
  function Collect(s: string, seen: string, abc: string): string {
    if s == "" then seen
    else if s[0] in abc && s[0] !in seen then Collect(s[1..], seen + [s[0]], abc)
    else Collect(s[1..], seen, abc)
  }

  function Grid(key: string, abc: string): string {
    Collect(Upper(key) + abc, "", abc)
  }

  lemma {:induction false} CollectKeeps(s: string, seen: string, abc: string)
    requires Distinct(seen) && forall c :: c in seen ==> c in abc
    ensures var g := Collect(s, seen, abc);
      Distinct(g) && (forall c :: c in g ==> c in abc)
      && (forall c :: c in seen ==> c in g) && forall c :: c in s && c in abc ==> c in g
  {
    if s != "" {
      if s[0] in abc && s[0] !in seen {
        CollectKeeps(s[1..], seen + [s[0]], abc);
        assert forall c :: c in seen ==> c in seen + [s[0]];
        assert s[0] in seen + [s[0]];
      } else {
        CollectKeeps(s[1..], seen, abc);
      }
      assert forall c :: c in s ==> c == s[0] || c in s[1..];
    }
  }

  function Chars(s: string): set<char> { set c | c in s }

  lemma {:induction false} DistinctSize(s: string)
    requires Distinct(s)
    ensures |Chars(s)| == |s|
  {
    if s != "" {
      DistinctSize(s[1..]);
      assert s[0] !in s[1..];
      assert Chars(s) == {s[0]} + Chars(s[1..]);
    }
  }

  /** Whatever the key, the grid holds every character of the alphabet once. */
  lemma GridIsPermutation(key: string, abc: string)
    requires IsAlphabet(abc)
    ensures var g := Grid(key, abc); |g| == 36 && Distinct(g) && forall c :: c in g <==> c in abc
  {
    var s := Upper(key) + abc;
    CollectKeeps(s, "", abc);
    var g := Grid(key, abc);
    assert forall c :: c in abc ==> c in s;
    assert Chars(g) == Chars(abc);
    DistinctSize(g);
    DistinctSize(abc);
  }

  // ---- Column order ----

  /** Column `a` is read before column `b`: by character, and by position where characters agree. */
  predicate Before(square: string, a: nat, b: nat)
    requires a < |square| && b < |square|
  {
    square[a] < square[b] || (square[a] == square[b] && a < b)
  }

  predicate Columns(square: string, order: seq<nat>) {
    forall i :: 0 <= i < |order| ==> order[i] < |square|
  }

  predicate Ordered(square: string, order: seq<nat>)
    requires Columns(square, order)
  {
    forall i, j :: 0 <= i < j < |order| ==> Before(square, order[i], order[j])
  }

  function Insert(square: string, order: seq<nat>, x: nat): (r: seq<nat>)
    requires Columns(square, order) && x < |square| && Ordered(square, order) && x !in order
    ensures Columns(square, r) && Ordered(square, r) && |r| == |order| + 1
    ensures forall y :: y in r <==> y == x || y in order
  {
    if order == [] then [x]
    else if Before(square, x, order[0]) then
      assert forall j :: 0 <= j < |order| ==> Before(square, x, order[j]);
      [x] + order
    else
      var rest := Insert(square, order[1..], x);
      assert Before(square, order[0], x);
      assert forall j :: 0 <= j < |rest| ==> rest[j] in rest;
      var r := [order[0]] + rest;
      assert forall y :: y in order <==> y == order[0] || y in order[1..];
      r
  }

  /** The order of the first `n` columns: the one a stable sort by character yields. */
  function OrderOf(square: string, n: nat): (order: seq<nat>)
    requires n <= |square|
    ensures |order| == n && Columns(square, order) && Ordered(square, order)
    ensures forall y: nat :: y in order <==> y < n
  {
    if n == 0 then [] else Insert(square, OrderOf(square, n - 1), n - 1)
  }

  function ColumnOrder(square: string): seq<nat> {
    OrderOf(square, |square|)
  }

  /** Sorting leaves no choice: any ordered arrangement of the columns is this one. */
  lemma {:induction false} OrderIsUnique(square: string, p: seq<nat>, q: seq<nat>)
    requires Columns(square, p) && Ordered(square, p) && Columns(square, q) && Ordered(square, q)
    requires forall y :: y in p <==> y in q
    ensures p == q
  {
    if p == [] {
      assert forall i :: 0 <= i < |q| ==> q[i] in p;
    } else {
      assert p[0] in q;
      assert q[0] in p;
      FirstIsLeast(square, p, q[0]);
      FirstIsLeast(square, q, p[0]);
      forall y ensures y in p[1..] <==> y in q[1..] {
        InRest(square, p, y);
        InRest(square, q, y);
      }
      OrderIsUnique(square, p[1..], q[1..]);
    }
  }

  lemma FirstIsLeast(square: string, p: seq<nat>, y: nat)
    requires Columns(square, p) && Ordered(square, p) && y in p
    ensures y == p[0] || Before(square, p[0], y)
  {
    var i :| 0 <= i < |p| && p[i] == y;
  }

  lemma InRest(square: string, p: seq<nat>, y: nat)
    requires p != [] && Columns(square, p) && Ordered(square, p)
    ensures y in p[1..] <==> y in p && y != p[0]
  {
    if y in p[1..] {
      var i :| 0 <= i < |p[1..]| && p[1..][i] == y;
      assert Before(square, p[0], p[i + 1]);
    }
  }

  // ---- Rows and columns ----

  function JoinAll(parts: seq<string>): string {
    if parts == [] then "" else parts[0] + JoinAll(parts[1..])
  }

  function Rows(s: string, n: nat): seq<string>
    requires n > 0
    decreases |s|
  {
    if s == "" then [] else if |s| <= n then [s] else [s[..n]] + Rows(s[n..], n)
  }

  predicate AllOf(parts: seq<string>, n: nat) {
    forall i :: 0 <= i < |parts| ==> |parts[i]| == n
  }

  lemma {:induction false} JoinRows(s: string, n: nat)
    requires n > 0
    ensures JoinAll(Rows(s, n)) == s
    decreases |s|
  {
    if |s| > n {
      JoinRows(s[n..], n);
    } else if s != "" {
      assert [s][1..] == [];
    }
  }

  lemma {:induction false} RowsOfJoin(parts: seq<string>, n: nat)
    requires n > 0 && AllOf(parts, n)
    ensures Rows(JoinAll(parts), n) == parts
  {
    if parts != [] {
      RowsOfJoin(parts[1..], n);
      var s := JoinAll(parts);
      assert s[..n] == parts[0] && s[n..] == JoinAll(parts[1..]);
      if parts[1..] != [] {
        assert |JoinAll(parts[1..])| >= n;
      } else {
        assert parts == [parts[0]] && s == parts[0];
      }
    }
  }

  lemma {:induction false} RowsFull(s: string, n: nat, k: nat)
    requires n > 0 && |s| == k * n
    ensures |Rows(s, n)| == k && AllOf(Rows(s, n), n)
    decreases k
  {
    if k > 0 {
      assert |s| == (k - 1) * n + n;
      if k > 1 {
        MulMono(1, k - 1, n);
        RowsFull(s[n..], n, k - 1);
      }
    }
  }

  function Column(rows: seq<string>, n: nat, c: nat): (col: string)
    requires AllOf(rows, n) && c < n
    ensures |col| == |rows|
  {
    seq(|rows|, r requires 0 <= r < |rows| => rows[r][c])
  }

  /** The columns of `rows` in the given order, as separate strings. */
  function ColumnsInOrder(rows: seq<string>, n: nat, order: seq<nat>): (cols: seq<string>)
    requires AllOf(rows, n) && forall i :: 0 <= i < |order| ==> order[i] < n
    ensures |cols| == |order| && AllOf(cols, |rows|)
  {
    seq(|order|, p requires 0 <= p < |order| => Column(rows, n, order[p]))
  }

  function Position(order: seq<nat>, c: nat): (p: nat)
    requires c in order
    ensures p < |order| && order[p] == c
  {
    if order[0] == c then 0 else 1 + Position(order[1..], c)
  }

  /** Row `r` put back together from columns that came in the given order. */
  function RowBack(cols: seq<string>, order: seq<nat>, r: nat): (row: string)
    requires |cols| == |order| && (forall c: nat :: c in order <==> c < |order|)
    requires forall i :: 0 <= i < |cols| ==> r < |cols[i]|
    ensures |row| == |order|
  {
    seq(|order|, c requires 0 <= c < |order| => cols[Position(order, c)][r])
  }

  /** Columns that came in the given order, put back as rows. */
  function RowsBack(cols: seq<string>, order: seq<nat>, k: nat): (rows: seq<string>)
    requires |cols| == |order| && (forall c: nat :: c in order <==> c < |order|) && AllOf(cols, k)
    ensures |rows| == k && AllOf(rows, |order|)
  {
    seq(k, r requires 0 <= r < k => RowBack(cols, order, r))
  }

  ghost predicate Permutes(order: seq<nat>, n: nat) {
    |order| == n && forall c: nat :: c in order <==> c < n
  }

  /** Reading the columns off and putting them back returns the rows. */
  lemma TransposeInverse(rows: seq<string>, n: nat, order: seq<nat>)
    requires AllOf(rows, n) && Permutes(order, n)
    requires forall i :: 0 <= i < |order| ==> order[i] < n
    ensures RowsBack(ColumnsInOrder(rows, n, order), order, |rows|) == rows
  {
    var cols := ColumnsInOrder(rows, n, order);
    forall r | 0 <= r < |rows| ensures RowBack(cols, order, r) == rows[r] {
      forall c | 0 <= c < n ensures RowBack(cols, order, r)[c] == rows[r][c] {
        assert cols[Position(order, c)] == Column(rows, n, c);
      }
    }
  }

  // ---- Pairs ----

  function Pair(grid: string, sym: string, ch: char): (p: string)
    requires |grid| == 36 && |sym| == 6 && ch in grid
    ensures |p| == 2
  {
    var q := IndexOf(grid, ch);
    [sym[q / 6], sym[q % 6]]
  }

  function Pairs(grid: string, sym: string, plain: string): (s: string)
    requires |grid| == 36 && |sym| == 6 && forall i :: 0 <= i < |plain| ==> plain[i] in grid
    ensures |s| == 2 * |plain|
  {
    if plain == "" then "" else Pair(grid, sym, plain[0]) + Pairs(grid, sym, plain[1..])
  }

  function Lookup(grid: string, sym: string, a: char, b: char): char
    requires |grid| == 36 && |sym| == 6
  {
    var r, c := IndexOf(sym, a), IndexOf(sym, b);
    if r >= 0 && c >= 0 then grid[r * 6 + c] else '?'
  }

  function Unpair(grid: string, sym: string, syms: string): string
    requires |grid| == 36 && |sym| == 6
  {
    if |syms| < 2 then "" else [Lookup(grid, sym, syms[0], syms[1])] + Unpair(grid, sym, syms[2..])
  }

  lemma LookupPair(grid: string, sym: string, ch: char)
    requires |grid| == 36 && ch in grid && IsSymbols(sym)
    ensures Lookup(grid, sym, Pair(grid, sym, ch)[0], Pair(grid, sym, ch)[1]) == ch
  {
    var q := IndexOf(grid, ch);
    IndexOfSymbol(sym, q / 6);
    IndexOfSymbol(sym, q % 6);
  }

  lemma {:induction false} UnpairPairs(grid: string, sym: string, plain: string)
    requires |grid| == 36 && IsSymbols(sym)
    requires forall i :: 0 <= i < |plain| ==> plain[i] in grid
    ensures Unpair(grid, sym, Pairs(grid, sym, plain)) == plain
  {
    hide Pair, Lookup, Distinct;
    if plain != "" {
      LookupPair(grid, sym, plain[0]);
      UnpairPairs(grid, sym, plain[1..]);
      assert Pairs(grid, sym, plain)[2..] == Pairs(grid, sym, plain[1..]);
    }
  }

  lemma {:induction false} PairsAreSymbols(grid: string, sym: string, plain: string)
    requires |grid| == 36 && |sym| == 6 && forall i :: 0 <= i < |plain| ==> plain[i] in grid
    ensures forall i :: 0 <= i < 2 * |plain| ==> Pairs(grid, sym, plain)[i] in sym
  {
    if plain != "" {
      PairsAreSymbols(grid, sym, plain[1..]);
    }
  }

  // ---- Padding ----

  function Repeat(c: char, k: nat): string { seq(k, _ => c) }

  function Gap(len: nat, n: nat): nat
    requires n > 0
  {
    if len % n == 0 then 0 else n - len % n
  }

  lemma GapShrinks(len: nat, n: nat)
    requires n > 0 && (2 * len) % n != 0
    ensures Gap(len + 1, n) < Gap(len, n)
  {
    var q, r := len / n, len % n;
    assert len == n * q + r;
    if r == 0 {
      assert 2 * len == (2 * q) * n;
      DivModUnique(2 * len, n, 2 * q, 0);
    } else if r + 1 == n {
      assert (q + 1) * n == n * q + n;
      DivModUnique(len + 1, n, q + 1, 0);
    } else {
      DivModUnique(len + 1, n, q, r + 1);
    }
  }

  /** How many padding characters bring the symbol count to a multiple of `n`. */
  function PadCount(len: nat, n: nat): (m: nat)
    requires n > 0
    ensures (2 * (len + m)) % n == 0
    ensures m < n
    ensures m <= Gap(len, n)
    decreases Gap(len, n)
  {
    if (2 * len) % n == 0 then 0
    else
      GapShrinks(len, n);
      1 + PadCount(len + 1, n)
  }

  lemma {:induction false} PadCountLeast(len: nat, n: nat, m: nat)
    requires n > 0 && m < PadCount(len, n)
    ensures (2 * (len + m)) % n != 0
    decreases m
  {
    if m > 0 {
      PadCountLeast(len + 1, n, m - 1);
      assert 2 * (len + 1 + (m - 1)) == 2 * (len + m);
    }
  }

  function StripA(s: string): string {
    if s != "" && s[|s| - 1] == 'A' then StripA(s[..|s| - 1]) else s
  }

  lemma {:induction false} StripPadding(s: string, m: nat)
    ensures StripA(s + Repeat('A', m)) == StripA(s)
  {
    if m > 0 {
      assert (s + Repeat('A', m))[..|s| + m - 1] == s + Repeat('A', m - 1);
      StripPadding(s, m - 1);
    } else {
      assert s + Repeat('A', 0) == s;
    }
  }

  // ---- The cipher ----

  function Plain(text: string, abc: string): string {
    Keep(Upper(text), abc)
  }

  function Encode(text: string, key: string, square: string, abc: string, sym: string): Result<string>
    requires IsAlphabet(abc) && IsSymbols(sym)
  {
    var plain := Plain(text, abc);
    if key == "" || square == "" || plain == "" then Err(InvalidRequest)
    else
      var n := |square|;
      GridIsPermutation(key, abc);
      var padded := plain + Repeat('A', PadCount(|plain|, n));
      var syms := Pairs(Grid(key, abc), sym, padded);
      SymbolRows(syms, n);
      Ok(JoinAll(ColumnsInOrder(Rows(syms, n), n, ColumnOrder(Upper(square)))))
  }

  lemma SymbolRows(syms: string, n: nat)
    requires n > 0 && |syms| % n == 0
    ensures AllOf(Rows(syms, n), n) && |syms| == |Rows(syms, n)| * n && |Rows(syms, n)| == |syms| / n
  {
    var k := |syms| / n;
    assert |syms| == n * k;
    assert n * k == k * n;
    if k < 0 {
      MulMono(k, -1, n);
    }
    RowsFull(syms, n, k);
  }

  function Decode(text: string, key: string, square: string, abc: string, sym: string): Result<string>
    requires IsAlphabet(abc) && IsSymbols(sym)
  {
    var ct := Keep(Upper(text), sym);
    var n := |square|;
    if key == "" || square == "" then Err(InvalidRequest)
    else if ct == "" || |ct| % n != 0 then Err(LengthMismatch)
    else
      GridIsPermutation(key, abc);
      var k := |ct| / n;
      CipherColumns(ct, n);
      var rows := RowsBack(Rows(ct, k), ColumnOrder(Upper(square)), k);
      Ok(StripA(Unpair(Grid(key, abc), sym, JoinAll(rows))))
  }

  lemma CipherColumns(ct: string, n: nat)
    requires n > 0 && ct != "" && |ct| % n == 0
    ensures |ct| / n > 0 && AllOf(Rows(ct, |ct| / n), |ct| / n) && |Rows(ct, |ct| / n)| == n
  {
    var k := |ct| / n;
    assert |ct| == n * k;
    if k <= 0 {
      MulMono(k, 0, n);
    }
    RowsFull(ct, k, n);
  }

  lemma {:induction false} KeepAll(s: string, abc: string)
    requires forall i :: 0 <= i < |s| ==> s[i] in abc
    ensures Keep(s, abc) == s
  {
    if s != "" {
      KeepAll(s[1..], abc);
    }
  }

  lemma {:induction false} JoinAllSymbols(parts: seq<string>, sym: string)
    requires forall i, j :: 0 <= i < |parts| && 0 <= j < |parts[i]| ==> parts[i][j] in sym
    ensures forall i :: 0 <= i < |JoinAll(parts)| ==> JoinAll(parts)[i] in sym
  {
    if parts != [] {
      JoinAllSymbols(parts[1..], sym);
    }
  }

  /** Upper-casing and filtering leave a text of the symbols alone. */
  lemma SymbolsSurvive(s: string, sym: string)
    requires IsSymbols(sym) && forall i :: 0 <= i < |s| ==> s[i] in sym
    ensures Keep(Upper(s), sym) == s
  {
    assert Upper(s) == s by {
      forall i | 0 <= i < |s| ensures Upper(s)[i] == s[i] {
        var j :| 0 <= j < |sym| && sym[j] == s[i];
        assert UpperChar(sym[j]) == sym[j];
      }
    }
    KeepAll(s, sym);
  }

  lemma {:induction false} RowsAreSymbols(s: string, n: nat, sym: string)
    requires n > 0 && forall i :: 0 <= i < |s| ==> s[i] in sym
    ensures forall i, j :: 0 <= i < |Rows(s, n)| && 0 <= j < |Rows(s, n)[i]| ==> Rows(s, n)[i][j] in sym
    decreases |s|
  {
    if |s| > n {
      RowsAreSymbols(s[n..], n, sym);
    }
  }

  /** The transposition step alone: decoding recovers the padded symbols. */
  lemma TranspositionInverts(syms: string, n: nat, order: seq<nat>, sym: string)
    requires n > 0 && syms != "" && |syms| % n == 0 && Permutes(order, n)
    requires forall i :: 0 <= i < |order| ==> order[i] < n
    requires IsSymbols(sym) && forall i :: 0 <= i < |syms| ==> syms[i] in sym
    ensures AllOf(Rows(syms, n), n)
    ensures var ct := JoinAll(ColumnsInOrder(Rows(syms, n), n, order)); var k := |ct| / n;
      Keep(Upper(ct), sym) == ct && ct != "" && |ct| % n == 0 && k > 0
      && AllOf(Rows(ct, k), k) && |Rows(ct, k)| == n && JoinAll(RowsBack(Rows(ct, k), order, k)) == syms
  {
    hide Rows, JoinAll, RowBack, Column, ColumnsInOrder, Upper, IsSymbols;
    SymbolRows(syms, n);
    var rows := Rows(syms, n);
    var k := |rows|;
    var cols := ColumnsInOrder(rows, n, order);
    var ct := JoinAll(cols);
    RowsAreSymbols(syms, n, sym);
    ColumnsAreSymbols(rows, n, order, sym);
    JoinAllSymbols(cols, sym);
    SymbolsSurvive(ct, sym);
    JoinLength(cols, k);
    assert |ct| == n * k;
    DivModUnique(|ct|, n, k, 0);
    RowsOfJoin(cols, k);
    TransposeInverse(rows, n, order);
    JoinRows(syms, n);
  }

  lemma ColumnsAreSymbols(rows: seq<string>, n: nat, order: seq<nat>, sym: string)
    requires AllOf(rows, n) && forall i :: 0 <= i < |order| ==> order[i] < n
    requires forall i, j :: 0 <= i < |rows| && 0 <= j < |rows[i]| ==> rows[i][j] in sym
    ensures var cols := ColumnsInOrder(rows, n, order);
      forall i, j :: 0 <= i < |cols| && 0 <= j < |cols[i]| ==> cols[i][j] in sym
  {
  }

  lemma {:induction false} JoinLength(parts: seq<string>, n: nat)
    requires AllOf(parts, n)
    ensures |JoinAll(parts)| == |parts| * n
  {
    if parts != [] {
      JoinLength(parts[1..], n);
      assert |parts| * n == n + |parts[1..]| * n;
    }
  }

  /**
   * For every key, square and text with something to encode, decoding gives back the upper-cased,
   * filtered text, except that A's at its end are lost with the padding.
   */
  lemma RoundTrip(text: string, key: string, square: string, abc: string, sym: string)
    requires IsAlphabet(abc) && IsSymbols(sym)
    ensures Encode(text, key, square, abc, sym).Ok? <==> key != "" && square != "" && Plain(text, abc) != ""
    ensures Encode(text, key, square, abc, sym).Ok? ==>
      Decode(Encode(text, key, square, abc, sym).value, key, square, abc, sym) == Ok(StripA(Plain(text, abc)))
  {
    var plain := Plain(text, abc);
    if key != "" && square != "" && plain != "" {
      var n, grid, order := |square|, Grid(key, abc), ColumnOrder(Upper(square));
      GridIsPermutation(key, abc);
      var m := PadCount(|plain|, n);
      var padded := plain + Repeat('A', m);
      var syms := Pairs(grid, sym, padded);
      PairsAreSymbols(grid, sym, padded);
      TranspositionInverts(syms, n, order, sym);
      UnpairPairs(grid, sym, padded);
      StripPadding(plain, m);
    }
  }

  /** The text comes back whole exactly when it does not end in the padding character. */
  lemma LosesOnlyTrailingA(text: string, key: string, square: string, abc: string, sym: string)
    requires IsAlphabet(abc) && IsSymbols(sym) && Encode(text, key, square, abc, sym).Ok?
    ensures Decode(Encode(text, key, square, abc, sym).value, key, square, abc, sym) == Ok(Plain(text, abc))
      <==> Plain(text, abc)[|Plain(text, abc)| - 1] != 'A'
  {
    RoundTrip(text, key, square, abc, sym);
    StripShorter(Plain(text, abc));
  }

  /** The text "A" is lost altogether, under every key and square word. */
  lemma SingleAIsLost(key: string, square: string, abc: string, sym: string)
    requires IsAlphabet(abc) && IsSymbols(sym) && key != "" && square != ""
    ensures Encode("A", key, square, abc, sym).Ok?
    ensures Decode(Encode("A", key, square, abc, sym).value, key, square, abc, sym) == Ok("")
    ensures Plain("A", abc) == "A"
  {
    hide Encode, Decode, IsAlphabet;
    RoundTrip("A", key, square, abc, sym);
    PlainOfA(abc);
    assert "A"[..0] == "";
  }

  lemma PlainOfA(abc: string)
    requires IsAlphabet(abc)
    ensures Plain("A", abc) == "A"
  {
    var up := Upper("A");
    assert up == "A" && up[1..] == "";
    assert Keep(up[1..], abc) == "";
  }

  lemma {:induction false} StripShorter(s: string)
    ensures |StripA(s)| <= |s|
    ensures StripA(s) == s <==> s == "" || s[|s| - 1] != 'A'
  {
    if s != "" && s[|s| - 1] == 'A' {
      StripShorter(s[..|s| - 1]);
    }
  }

  // ---- The cipher's own loops ----

  method BuildGrid(key: string, abc: string) returns (seen: string)
    ensures seen == Grid(key, abc)
  {
    seen := "";
    var s := Upper(key) + abc;
    for i := 0 to |s|
      invariant Collect(s[i..], seen, abc) == Grid(key, abc)
    {
      assert s[i..][1..] == s[i + 1..];
      if s[i] in abc && s[i] !in seen {
        seen := seen + [s[i]];
      }
    }
  }

  lemma {:induction false} JoinSnoc(parts: seq<string>, last: string)
    ensures JoinAll(parts + [last]) == JoinAll(parts) + last
  {
    if parts != [] {
      assert (parts + [last])[1..] == parts[1..] + [last];
      JoinSnoc(parts[1..], last);
    } else {
      assert parts + [last] == [last] && [last][1..] == [];
    }
  }

  method PadPlain(start: string, n: nat) returns (plain: string)
    requires n > 0
    ensures plain == start + Repeat('A', PadCount(|start|, n))
  {
    plain := start;
    ghost var j := 0;
    while (2 * |plain|) % n != 0
      invariant plain == start + Repeat('A', j) && PadCount(|start|, n) == j + PadCount(|plain|, n)
      decreases Gap(|plain|, n)
    {
      GapShrinks(|plain|, n);
      plain := plain + "A";
      j := j + 1;
    }
  }

  method ToSymbols(plain: string, grid: string, sym: string) returns (syms: string)
    requires |grid| == 36 && |sym| == 6 && forall i :: 0 <= i < |plain| ==> plain[i] in grid
    ensures syms == Pairs(grid, sym, plain)
  {
    syms := "";
    for i := 0 to |plain|
      invariant syms + Pairs(grid, sym, plain[i..]) == Pairs(grid, sym, plain)
    {
      assert plain[i..][1..] == plain[i + 1..];
      syms := syms + Pair(grid, sym, plain[i]);
    }
  }

  method CutRows(syms: string, n: nat) returns (rows: seq<string>)
    requires n > 0
    ensures rows == Rows(syms, n)
  {
    rows := [];
    var i := 0;
    while i < |syms|
      invariant 0 <= i
      invariant rows + RowsFrom(syms, i, n) == Rows(syms, n)
    {
      var end := if i + n <= |syms| then i + n else |syms|;
      RowsFromStep(syms, i, n);
      assert rows + ([syms[i..end]] + RowsFrom(syms, i + n, n)) == (rows + [syms[i..end]]) + RowsFrom(syms, i + n, n);
      rows := rows + [syms[i..end]];
      i := i + n;
    }
  }

  function RowsFrom(s: string, i: nat, n: nat): seq<string>
    requires n > 0
  {
    if i < |s| then Rows(s[i..], n) else []
  }

  lemma RowsFromStep(s: string, i: nat, n: nat)
    requires n > 0 && i < |s|
    ensures RowsFrom(s, i, n) == [s[i..if i + n <= |s| then i + n else |s|]] + RowsFrom(s, i + n, n)
  {
    if i + n < |s| {
      assert s[i..][..n] == s[i..i + n] && s[i..][n..] == s[i + n..];
    } else {
      assert s[i..|s|] == s[i..];
    }
  }

  method ReadColumns(rows: seq<string>, n: nat, order: seq<nat>) returns (out: string)
    requires AllOf(rows, n) && forall i :: 0 <= i < |order| ==> order[i] < n
    ensures out == JoinAll(ColumnsInOrder(rows, n, order))
  {
    ghost var cols := ColumnsInOrder(rows, n, order);
    out := "";
    for p := 0 to |order|
      invariant out == JoinAll(cols[..p])
    {
      ghost var before := out;
      for r := 0 to |rows|
        invariant out == before + cols[p][..r]
      {
        out := out + [rows[r][order[p]]];
      }
      assert cols[p][..|rows|] == cols[p];
      JoinSnoc(cols[..p], cols[p]);
      assert cols[..p + 1] == cols[..p] + [cols[p]];
    }
    assert cols[..|order|] == cols;
  }

  method EncodeText(text: string, key: string, square: string, abc: string, sym: string) returns (r: Result<string>)
    requires IsAlphabet(abc) && IsSymbols(sym)
    ensures r == Encode(text, key, square, abc, sym)
  {
    hide Upper, Keep, Grid, Rows, JoinAll, Pairs, ColumnsInOrder, OrderOf;
    if key == "" { return Err(InvalidRequest); }
    if square == "" { return Err(InvalidRequest); }
    var grid := BuildGrid(key, abc);
    GridIsPermutation(key, abc);
    var n := |square|;
    var plain := Keep(Upper(text), abc);
    if plain == "" { return Err(InvalidRequest); }
    plain := PadPlain(plain, n);
    var syms := ToSymbols(plain, grid, sym);
    var rows := CutRows(syms, n);
    SymbolRows(syms, n);
    var out := ReadColumns(rows, n, ColumnOrder(Upper(square)));
    return Ok(out);
  }

  method SplitColumns(ct: string, k: nat, order: seq<nat>) returns (columns: map<nat, string>)
    requires k > 0 && AllOf(Rows(ct, k), k) && |Rows(ct, k)| == |order|
    requires forall i, j :: 0 <= i < j < |order| ==> order[i] != order[j]
    ensures forall p :: 0 <= p < |order| ==> order[p] in columns && columns[order[p]] == Rows(ct, k)[p]
  {
    columns := map[];
    ghost var cols := Rows(ct, k);
    var idx := 0;
    for p := 0 to |order|
      invariant idx <= |ct| && Rows(ct[idx..], k) == cols[p..]
      invariant forall j :: 0 <= j < p ==> order[j] in columns && columns[order[j]] == cols[j]
    {
      FirstRow(ct[idx..], k, cols[p..]);
      assert ct[idx..][..k] == ct[idx..idx + k] && ct[idx..][k..] == ct[idx + k..];
      columns := columns[order[p] := ct[idx..idx + k]];
      idx := idx + k;
    }
  }

  lemma FirstRow(s: string, k: nat, rows: seq<string>)
    requires k > 0 && rows == Rows(s, k) && rows != [] && |rows[0]| == k
    ensures |s| >= k && s[..k] == rows[0] && Rows(s[k..], k) == rows[1..]
  {
  }

  method WriteRows(columns: map<nat, string>, cols: seq<string>, order: seq<nat>, k: nat) returns (syms: string)
    requires |cols| == |order| && Permutes(order, |order|) && AllOf(cols, k)
    requires forall p :: 0 <= p < |order| ==> order[p] in columns && columns[order[p]] == cols[p]
    ensures syms == JoinAll(RowsBack(cols, order, k))
  {
    ghost var rows := RowsBack(cols, order, k);
    syms := "";
    for r := 0 to k
      invariant syms == JoinAll(rows[..r])
    {
      ghost var before := syms;
      for c := 0 to |order|
        invariant syms == before + rows[r][..c]
      {
        assert c in order;
        ghost var p := Position(order, c);
        assert columns[order[p]] == cols[p];
        syms := syms + [columns[c][r]];
      }
      assert rows[r][..|order|] == rows[r];
      JoinSnoc(rows[..r], rows[r]);
      assert rows[..r + 1] == rows[..r] + [rows[r]];
    }
    assert rows[..k] == rows;
  }

  method FromSymbols(syms: string, grid: string, sym: string) returns (out: string)
    requires |grid| == 36 && |sym| == 6
    ensures out == Unpair(grid, sym, syms)
  {
    out := "";
    var i := 0;
    while i + 1 < |syms|
      invariant 0 <= i <= |syms| && out + Unpair(grid, sym, syms[i..]) == Unpair(grid, sym, syms)
    {
      ghost var ch := Lookup(grid, sym, syms[i], syms[i + 1]);
      assert syms[i..][2..] == syms[i + 2..];
      assert Unpair(grid, sym, syms[i..]) == [ch] + Unpair(grid, sym, syms[i + 2..]);
      assert out + ([ch] + Unpair(grid, sym, syms[i + 2..])) == (out + [ch]) + Unpair(grid, sym, syms[i + 2..]);
      out := out + [Lookup(grid, sym, syms[i], syms[i + 1])];
      i := i + 2;
    }
  }

  method DecodeText(text: string, key: string, square: string, abc: string, sym: string) returns (r: Result<string>)
    requires IsAlphabet(abc) && IsSymbols(sym)
    ensures r == Decode(text, key, square, abc, sym)
  {
    hide Upper, Keep, Grid, Rows, JoinAll, Unpair, RowsBack, OrderOf, StripA;
    if key == "" { return Err(InvalidRequest); }
    if square == "" { return Err(InvalidRequest); }
    var grid := BuildGrid(key, abc);
    GridIsPermutation(key, abc);
    var n := |square|;
    var ct := Keep(Upper(text), sym);
    if ct == "" || |ct| % n != 0 { return Err(LengthMismatch); }
    CipherColumns(ct, n);
    var k := |ct| / n;
    var order := ColumnOrder(Upper(square));
    NoRepeats(Upper(square), order);
    var columns := SplitColumns(ct, k, order);
    var syms := WriteRows(columns, Rows(ct, k), order, k);
    var out := FromSymbols(syms, grid, sym);
    return Ok(StripA(out));
  }

  lemma NoRepeats(square: string, order: seq<nat>)
    requires Columns(square, order) && Ordered(square, order)
    ensures forall i, j :: 0 <= i < j < |order| ==> order[i] != order[j]
  {
    forall i, j | 0 <= i < j < |order| ensures order[i] != order[j] {
      assert Before(square, order[i], order[j]);
    }
  }

  /** The constants the tool uses are such an alphabet and such symbols. */
  lemma StandardAlphabet()
    ensures IsAlphabet(ALPH) && IsSymbols(SYMS)
  {
    UpperSpan();
    DigitSpan();
    DistinctJoin(UPPER, DIGITS);
    assert UPPER[0] == 'A' && ALPH[0] == 'A';
  }
}
