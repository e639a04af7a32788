/**
 * What an ADFGVX grid and cipher text look like, position by position: the key word fills the grid first, and
 * each symbol of the cipher text is the row or the column of one letter, at its place in the reading order.
 */
module AdfgvxLayout {
  import opened Arithmetic
  import opened Alphabets
  import opened Outcomes
  import opened Adfgvx

  // ---- The grid ----

  /** Every character of `g` is in `s`, and they come in the order of their first occurrences there. */
  predicate InOrderOf(g: string, s: string) {
    (forall c :: c in g ==> c in s) && forall i, j :: 0 <= i < j < |g| ==> IndexOf(s, g[i]) < IndexOf(s, g[j])
  }

  lemma {:induction false} IndexOfLonger(s: string, t: string, c: char)
    ensures c in s ==> IndexOf(s + t, c) == IndexOf(s, c)
    ensures c !in s && t != "" && t[0] == c ==> IndexOf(s + t, c) == |s|
  {
    if s == "" {
      assert s + t == t;
    } else {
      IndexOfLonger(s[1..], t, c);
      assert (s + t)[1..] == s[1..] + t;
    }
  }

  lemma OrderExtends(g: string, done: string, c: char)
    requires InOrderOf(g, done)
    ensures InOrderOf(g, done + [c])
    ensures c !in done ==> InOrderOf(g + [c], done + [c])
  {
    hide IndexOf;
    forall i | 0 <= i < |g| ensures IndexOf(done + [c], g[i]) == IndexOf(done, g[i]) {
      assert g[i] in g;
      IndexOfLonger(done, [c], g[i]);
    }
    IndexOfLonger(done, [c], c);
    if c !in done {
      var h := g + [c];
      forall i, j | 0 <= i < j < |h| ensures IndexOf(done + [c], h[i]) < IndexOf(done + [c], h[j]) {
        assert g[i] in g;
      }
    }
  }

  lemma {:induction false} CollectOrder(done: string, s: string, seen: string, abc: string)
    requires InOrderOf(seen, done) && forall c :: c in done && c in abc ==> c in seen
    ensures InOrderOf(Collect(s, seen, abc), done + s)
    decreases |s|
  {
    hide InOrderOf;
    if s == "" {
      assert done + s == done;
    } else {
      var c := s[0];
      OrderExtends(seen, done, c);
      assert done + s == (done + [c]) + s[1..];
      if c in abc && c !in seen {
        assert c !in done;
        assert c in seen + [c];
        assert forall x :: x in done + [c] ==> x in done || x == c;
        assert forall x :: x in seen ==> x in seen + [c];
        CollectOrder(done + [c], s[1..], seen + [c], abc);
      } else {
        assert forall x :: x in done + [c] ==> x in done || x == c;
        CollectOrder(done + [c], s[1..], seen, abc);
      }
    }
  }

  /**
   * The grid is the arrangement of the alphabet in which the characters come in the order of their first
   * occurrences in the upper-cased key word followed by the alphabet.
   */
  lemma GridExactly(key: string, abc: string, g: string)
    requires IsAlphabet(abc)
    ensures g == Grid(key, abc) <==>
      (forall c :: c in g <==> c in abc) && InOrderOf(g, Upper(key) + abc)
  {
    var s := Upper(key) + abc;
    GridIsPermutation(key, abc);
    CollectOrder("", s, "", abc);
    assert "" + s == s;
    if (forall c :: c in g <==> c in abc) && InOrderOf(g, s) {
      OneOrder(g, Grid(key, abc), s);
    }
  }

  /** So the letters of the key word come before all others. */
  lemma KeyLettersFirst(key: string, abc: string, c: char, d: char)
    requires IsAlphabet(abc) && c in abc && d in abc && c in Upper(key) && d !in Upper(key)
    ensures IndexOf(Grid(key, abc), c) < IndexOf(Grid(key, abc), d)
  {
    hide Upper, IndexOf, IsAlphabet;
    GridExactly(key, abc, Grid(key, abc));
    KeyFirst(Grid(key, abc), Upper(key), abc, c, d);
  }

  lemma KeyFirst(g: string, key: string, abc: string, c: char, d: char)
    requires InOrderOf(g, key + abc) && c in g && d in g && c in key && d !in key
    ensures IndexOf(g, c) < IndexOf(g, d)
  {
    var s := key + abc;
    IndexOfLonger(key, abc, c);
    assert IndexOf(s, c) < |key|;
    assert d in s && s[IndexOf(s, d)] == d;
    assert forall i :: 0 <= i < |key| ==> s[i] == key[i] && key[i] in key;
  }

  /** A set of characters has one arrangement in the order of a string. */
  lemma {:induction false} OneOrder(g: string, h: string, s: string)
    requires InOrderOf(g, s) && InOrderOf(h, s) && forall c :: c in g <==> c in h
    ensures g == h
  {
    hide IndexOf;
    assert h != "" ==> h[0] in h;
    if g != "" {
      assert g[0] in g;
      assert h[0] in h;
      Foremost(g, s, h[0]);
      Foremost(h, s, g[0]);
      assert g[0] == h[0];
      forall c ensures c in g[1..] <==> c in h[1..] {
        NotForemost(g, s, c);
        NotForemost(h, s, c);
      }
      RestInOrder(g, s);
      RestInOrder(h, s);
      OneOrder(g[1..], h[1..], s);
    }
  }

  lemma RestInOrder(g: string, s: string)
    requires InOrderOf(g, s) && g != ""
    ensures InOrderOf(g[1..], s)
  {
    hide IndexOf;
    assert forall c :: c in g[1..] ==> c in g;
  }

  lemma Foremost(g: string, s: string, c: char)
    requires InOrderOf(g, s) && c in g
    ensures c == g[0] || IndexOf(s, g[0]) < IndexOf(s, c)
  {
    hide IndexOf;
    var i :| 0 <= i < |g| && g[i] == c;
  }

  lemma NotForemost(g: string, s: string, c: char)
    requires InOrderOf(g, s) && g != ""
    ensures c in g[1..] <==> c in g && c != g[0]
  {
    hide IndexOf;
    if c in g[1..] {
      var i :| 0 <= i < |g[1..]| && g[1..][i] == c;
      assert IndexOf(s, g[0]) < IndexOf(s, g[i + 1]);
    }
  }

  // ---- The plain text ----

  /** Characters of the alphabet are kept in their order, all others dropped. */
  lemma {:induction false} KeepAppends(s: string, c: char, abc: string)
    ensures Keep(s + [c], abc) == Keep(s, abc) + if c in abc then [c] else ""
  {
    if s != "" {
      assert (s + [c])[1..] == s[1..] + [c];
      KeepAppends(s[1..], c, abc);
    } else {
      assert [c][1..] == "";
    }
  }

  /** Upper-casing changes the 26 small letters and nothing else. */
  lemma UpperExactly(s: string, i: nat)
    requires i < |s|
    ensures forall k: nat :: k < 26 && s[i] == LOWER[k] ==> Upper(s)[i] == UPPER[k]
    ensures s[i] !in LOWER ==> Upper(s)[i] == s[i]
  {
    LowerAndUpper();
    if 'a' <= s[i] <= 'z' {
      var k := s[i] as int - 97;
      assert LOWER[k] == s[i];
    }
  }

  lemma LowerAndUpper()
    ensures |LOWER| == |UPPER| == 26
    ensures forall k :: 0 <= k < 26 ==> LOWER[k] as int == 97 + k && UPPER[k] as int == 65 + k
  {
    UpperSpan();
    LowerSpan();
    assert forall k :: 0 <= k < 26 ==> LOWER[k] as int == 97 + k;
    assert forall k :: 0 <= k < 26 ==> UPPER[k] as int == 65 + k;
  }

  // ---- The cipher text ----

  lemma {:induction false} JoinAt(parts: seq<string>, n: nat, i: nat, j: nat)
    requires AllOf(parts, n) && i < |parts| && j < n
    ensures i * n + j < |JoinAll(parts)| == |parts| * n && JoinAll(parts)[i * n + j] == parts[i][j]
  {
    JoinLength(parts, n);
    MulMono(i + 1, |parts|, n);
    assert (i + 1) * n == i * n + n;
    if i > 0 {
      JoinAt(parts[1..], n, i - 1, j);
      assert i * n + j == n + ((i - 1) * n + j);
    }
  }

  /** The two symbols of a letter name its row and its column in the grid. */
  lemma {:induction false} PairsAt(grid: string, sym: string, plain: string, i: nat, q: nat)
    requires |grid| == 36 && Distinct(grid) && |sym| == 6 && forall k :: 0 <= k < |plain| ==> plain[k] in grid
    requires i < |plain| && q < 36 && grid[q] == plain[i]
    ensures Pairs(grid, sym, plain)[2 * i] == sym[q / 6] && Pairs(grid, sym, plain)[2 * i + 1] == sym[q % 6]
  {
    if i == 0 {
      IndexOfSymbol(grid, q);
    } else {
      PairsAt(grid, sym, plain[1..], i - 1, q);
    }
  }

  /** Letter `i` of a plain text filled up with the padding character. */
  function Letter(plain: string, i: nat): char {
    if i < |plain| then plain[i] else 'A'
  }

  /** The symbols of the filled-up plain text, and the columns they are read off in. */
  lemma EncodeParts(text: string, key: string, square: string, abc: string, sym: string, order: seq<nat>)
      returns (padded: string, syms: string, cols: seq<string>, k: nat)
    requires IsAlphabet(abc) && IsSymbols(sym) && Encode(text, key, square, abc, sym).Ok?
    requires Permutes(order, |square|) && Columns(Upper(square), order) && Ordered(Upper(square), order)
    ensures square != "" && |Grid(key, abc)| == 36 && Distinct(Grid(key, abc))
    ensures forall i :: 0 <= i < |padded| ==> padded[i] in Grid(key, abc)
    ensures |Plain(text, abc)| <= |padded| < |Plain(text, abc)| + |square|
    ensures forall i :: 0 <= i < |padded| ==> padded[i] == Letter(Plain(text, abc), i)
    ensures syms == Pairs(Grid(key, abc), sym, padded)
    ensures |Rows(syms, |square|)| == k && AllOf(Rows(syms, |square|), |square|)
    ensures cols == ColumnsInOrder(Rows(syms, |square|), |square|, order)
    ensures |syms| == k * |square| && Encode(text, key, square, abc, sym).value == JoinAll(cols)
  {
    hide Grid, Rows, JoinAll, ColumnsInOrder, Upper, Keep, PadCount, Pairs;
    var n, grid, plain := |square|, Grid(key, abc), Plain(text, abc);
    SameOrder(square, order);
    GridIsPermutation(key, abc);
    padded := plain + Repeat('A', PadCount(|plain|, n));
    syms := Pairs(grid, sym, padded);
    SymbolRows(syms, n);
    k := |Rows(syms, n)|;
    cols := ColumnsInOrder(Rows(syms, n), n, order);
  }

  /** Each column is as long as there are rows, and the padding adds less than one letter for each column. */
  lemma EncodeLength(text: string, key: string, square: string, abc: string, sym: string)
    requires IsAlphabet(abc) && IsSymbols(sym) && Encode(text, key, square, abc, sym).Ok?
    ensures var ct := Encode(text, key, square, abc, sym).value;
      square != "" && |ct| % |square| == 0
      && 2 * |Plain(text, abc)| <= |ct| < 2 * (|Plain(text, abc)| + |square|)
  {
    hide Encode, Grid, Rows, JoinAll, ColumnsInOrder, Plain, Pairs, Upper;
    var padded, syms, cols, k := EncodeParts(text, key, square, abc, sym, ColumnOrder(Upper(square)));
    JoinLength(cols, k);
    DivModUnique(|square| * k, |square|, k, 0);
  }

  /**
   * For the arrangement `order` of the columns by the square word: the cipher text is cut into one part for each
   * column, and symbol `r` of part `p` is the row (or, at odd places, the column) in the grid of the letter whose
   * symbol stands in row `r` and column `order[p]`.
   */
  lemma EncodePlaces(text: string, key: string, square: string, abc: string, sym: string,
      order: seq<nat>, p: nat, r: nat, q: nat)
    requires IsAlphabet(abc) && IsSymbols(sym) && Encode(text, key, square, abc, sym).Ok?
    requires Permutes(order, |square|) && Columns(Upper(square), order) && Ordered(Upper(square), order)
    requires p < |square| && r < |Encode(text, key, square, abc, sym).value| / |square| && q < 36
    requires |Grid(key, abc)| == 36 && Grid(key, abc)[q] == Letter(Plain(text, abc), (r * |square| + order[p]) / 2)
    ensures var ct := Encode(text, key, square, abc, sym).value; var k := |ct| / |square|;
      p * k + r < |ct|
      && ct[p * k + r] == if (r * |square| + order[p]) % 2 == 0 then sym[q / 6] else sym[q % 6]
  {
    hide Encode, Grid, Rows, JoinAll, ColumnsInOrder, Plain, Pairs, Upper, Ordered;
    var padded, syms, cols, k := EncodeParts(text, key, square, abc, sym, order);
    var n, rows, ct := |square|, Rows(syms, |square|), Encode(text, key, square, abc, sym).value;
    JoinLength(cols, k);
    DivModUnique(|ct|, n, k, 0);
    JoinAt(cols, k, p, r);
    ColumnAt(rows, n, order, p, r);
    RowAt(syms, n, r, order[p]);
    var place := r * n + order[p];
    assert ct[p * k + r] == syms[place];
    PairsAt(Grid(key, abc), sym, padded, place / 2, q);
  }

  lemma SameOrder(square: string, order: seq<nat>)
    requires Permutes(order, |square|) && Columns(Upper(square), order) && Ordered(Upper(square), order)
    ensures ColumnOrder(Upper(square)) == order
  {
    OrderIsUnique(Upper(square), ColumnOrder(Upper(square)), order);
  }

  lemma ColumnAt(rows: seq<string>, n: nat, order: seq<nat>, p: nat, r: nat)
    requires AllOf(rows, n) && (forall i :: 0 <= i < |order| ==> order[i] < n) && p < |order| && r < |rows|
    ensures ColumnsInOrder(rows, n, order)[p][r] == rows[r][order[p]]
  {
  }

  lemma RowAt(syms: string, n: nat, r: nat, c: nat)
    requires n > 0 && AllOf(Rows(syms, n), n) && r < |Rows(syms, n)| && c < n
    ensures r * n + c < |syms| && Rows(syms, n)[r][c] == syms[r * n + c]
  {
    JoinRows(syms, n);
    JoinAt(Rows(syms, n), n, r, c);
  }
}
