/**
 * The 7 x 7 puzzle matrix: four octets and a port written as decimal digits along five column paths,
 * a weighted checksum in the last row, and the checksum again as a Hamming(7,4) word in row F6.
 */
module Matrix {
  import opened Arithmetic
  import opened Outcomes

  type Row = seq<nat>

  // ---- Column paths ----

  /** JavaScript's `%`, which takes the sign of its left operand. */
  function Rem(x: int, m: int): int
    requires m > 0
  {
    if x >= 0 then x % m else -((-x) % m)
  }

  function CycleColumn(maps: nat, size: nat, kernel: nat, index: nat): (c: nat)
    requires maps >= 1
    ensures c < 7
  {
    var start := (maps - 1) % 7;
    var direction := if size % 2 == 0 then 1 else -1;
    Rem(Rem(start + direction * index * kernel, 7) + 7, 7)
  }

  function LayerPath(maps: nat, size: nat, kernel: nat, count: nat): (p: Row)
    requires maps >= 1 && count <= 7
    ensures |p| == count && forall i :: 0 <= i < count ==> p[i] < 7
  {
    seq(count, i requires 0 <= i < count => CycleColumn(maps, size, kernel, i))
  }

  function PartialPath(maps: nat, size: nat, kernel: nat): (p: Row)
    requires maps >= 1
    ensures |p| == 3 && forall i :: 0 <= i < 3 ==> p[i] < 7
  {
    [CycleColumn(maps, size, kernel, 0), CycleColumn(maps, size, kernel, 2), CycleColumn(maps, size, kernel, 4)]
  }

  predicate NoRepeat(p: Row) {
    forall i, j :: 0 <= i < j < |p| ==> p[i] != p[j]
  }

  lemma MultipleOfSeven(step: int, kernel: nat)
    requires 1 <= step <= 6 && kernel % 7 != 0
    ensures (step * kernel) % 7 != 0
  {
    var q, r := kernel / 7, kernel % 7;
    assert step * kernel == step * q * 7 + step * r;
    assert (step * r) % 7 != 0 by {
      assert step == 1 || step == 2 || step == 3 || step == 4 || step == 5 || step == 6;
    }
    assert (step * kernel) % 7 == (step * r) % 7 by {
      ModShift(step * r, step * q, 7);
    }
  }

  lemma ModShift(x: int, q: int, m: int)
    requires m > 0
    ensures (x + q * m) % m == x % m
  {
    var a, b := x / m, x % m;
    assert x == a * m + b;
    assert (a + q) * m == a * m + q * m;
    DivModUnique(x + q * m, m, a + q, b);
  }

  /** A step that is not a multiple of 7 visits every column once before any twice. */
  lemma CycleDistinct(maps: nat, size: nat, kernel: nat, i: nat, j: nat)
    requires maps >= 1 && kernel % 7 != 0 && i < j < 7
    ensures CycleColumn(maps, size, kernel, i) != CycleColumn(maps, size, kernel, j)
  {
    hide CycleColumn;
    CycleAt(maps, size, kernel, i);
    CycleAt(maps, size, kernel, j);
    MultipleOfSeven(j - i, kernel);
    var u, v, start := i * kernel, j * kernel, (maps - 1) % 7;
    assert v - u == (j - i) * kernel;
    if size % 2 == 0 {
      SameRemainder(start + u, start + v, v - u);
    } else {
      SameRemainder(start - u, start - v, v - u);
    }
  }

  lemma CycleAt(maps: nat, size: nat, kernel: nat, index: nat)
    requires maps >= 1
    ensures CycleColumn(maps, size, kernel, index)
      == ((maps - 1) % 7 + if size % 2 == 0 then index * kernel else -(index * kernel)) % 7
  {
    var direction := if size % 2 == 0 then 1 else -1;
    assert direction * index == if size % 2 == 0 then index as int else -(index as int);
    assert direction * index * kernel == if size % 2 == 0 then index * kernel else -(index * kernel);
    CycleIsMod((maps - 1) % 7 + direction * index * kernel);
  }

  lemma SameRemainder(x: int, y: int, gap: int)
    requires (y - x == gap || y - x == -gap) && gap % 7 != 0
    ensures x % 7 != y % 7
  {
  }

  lemma CycleIsMod(x: int)
    ensures Rem(Rem(x, 7) + 7, 7) == x % 7
  {
  }

  /** The five paths of the tool. */
  function Path(row: nat): (p: Row)
    requires row < 5
    ensures |p| == Width(row) && forall i :: 0 <= i < |p| ==> p[i] < 7
  {
    if row == 0 then LayerPath(6, 28, 5, 3)
    else if row == 1 then LayerPath(6, 14, 2, 3)
    else if row == 2 then PartialPath(16, 10, 5)
    else if row == 3 then LayerPath(16, 5, 2, 3)
    else LayerPath(120, 1, 5, 5)
  }

  function Width(row: nat): nat {
    if row == 4 then 5 else 3
  }

  lemma PathsDistinct(row: nat)
    requires row < 5
    ensures NoRepeat(Path(row))
  {
    hide CycleColumn;
    var p := Path(row);
    forall i, j | 0 <= i < j < |p| ensures p[i] != p[j] {
      match row
      case 0 => CycleDistinct(6, 28, 5, i, j);
      case 1 => CycleDistinct(6, 14, 2, i, j);
      case 2 => CycleDistinct(16, 10, 5, 2 * i, 2 * j);
      case 3 => CycleDistinct(16, 5, 2, i, j);
      case _ => CycleDistinct(120, 1, 5, i, j);
    }
  }

  /** The columns each field of the address is written to. */
  lemma PathColumns()
    ensures Path(0) == [5, 3, 1] && Path(1) == [5, 0, 2] && Path(2) == [1, 4, 0]
    ensures Path(3) == [1, 6, 4] && Path(4) == [0, 2, 4, 6, 1]
  {
    hide Path;
    ForwardPaths();
    BackwardPaths();
  }

  lemma ForwardPaths()
    ensures Path(0) == [5, 3, 1] && Path(1) == [5, 0, 2] && Path(2) == [1, 4, 0]
  {
    hide CycleColumn;
    CycleAt(6, 28, 5, 0);
    CycleAt(6, 28, 5, 1);
    CycleAt(6, 28, 5, 2);
    CycleAt(6, 14, 2, 0);
    CycleAt(6, 14, 2, 1);
    CycleAt(6, 14, 2, 2);
    CycleAt(16, 10, 5, 0);
    CycleAt(16, 10, 5, 2);
    CycleAt(16, 10, 5, 4);
  }

  lemma BackwardPaths()
    ensures Path(3) == [1, 6, 4] && Path(4) == [0, 2, 4, 6, 1]
  {
    hide CycleColumn;
    CycleAt(16, 5, 2, 0);
    CycleAt(16, 5, 2, 1);
    CycleAt(16, 5, 2, 2);
    CycleAt(120, 1, 5, 0);
    CycleAt(120, 1, 5, 1);
    CycleAt(120, 1, 5, 2);
    CycleAt(120, 1, 5, 3);
    CycleAt(120, 1, 5, 4);
  }

  // ---- Checksum ----

  function Weight(index: nat): nat {
    match index % 4 case 0 => 1 case 1 => 3 case 2 => 7 case _ => 9
  }

  function WeightedSum(d: Row): nat {
    if d == [] then 0 else WeightedSum(d[..|d| - 1]) + d[|d| - 1] * Weight(|d| - 1)
  }

  function Checksum(d: Row): (c: nat)
    ensures c < 10
  {
    Rem(Rem(-(WeightedSum(d) as int), 10) + 10, 10)
  }

  /** The checksum completes the weighted sum to a multiple of ten. */
  lemma ChecksumCompletes(d: Row)
    ensures (WeightedSum(d) + Checksum(d)) % 10 == 0
  {
    hide WeightedSum;
    CompletesTen(WeightedSum(d));
  }

  lemma CompletesTen(s: nat)
    ensures (s + Rem(Rem(-(s as int), 10) + 10, 10)) % 10 == 0
  {
    assert s == s / 10 * 10 + s % 10;
    assert Rem(-(s as int), 10) == -(s % 10);
  }

  lemma {:induction false} SumAfterChange(d: Row, i: nat, x: nat)
    requires i < |d|
    ensures WeightedSum(d[i := x]) as int - WeightedSum(d) as int == (x as int - d[i] as int) * Weight(i)
  {
    var e := d[i := x];
    if i < |d| - 1 {
      assert e[..|d| - 1] == d[..|d| - 1][i := x];
      SumAfterChange(d[..|d| - 1], i, x);
    } else {
      assert e[..|d| - 1] == d[..|d| - 1];
      assert x * Weight(i) - d[i] * Weight(i) == (x as int - d[i] as int) * Weight(i);
    }
  }

  /** In a digit string of any length, changing one digit always changes the checksum. */
  lemma ChecksumDetectsChange(d: Row, i: nat, x: nat)
    requires i < |d| && d[i] < 10 && x < 10 && x != d[i]
    ensures Checksum(d[i := x]) != Checksum(d)
  {
    hide WeightedSum, Checksum;
    var e := d[i := x];
    SumAfterChange(d, i, x);
    ChecksumCompletes(d);
    ChecksumCompletes(e);
    UnitWeights(x as int - d[i] as int, i);
    if Checksum(e) == Checksum(d) {
      SameSum(WeightedSum(e), WeightedSum(d), Checksum(d));
    }
  }

  lemma SameSum(a: nat, b: nat, c: nat)
    requires (a + c) % 10 == 0 && (b + c) % 10 == 0
    ensures (a as int - b as int) % 10 == 0
  {
  }

  /** Every weight is prime to ten. */
  lemma UnitWeights(delta: int, i: nat)
    requires -9 <= delta <= 9 && delta != 0
    ensures (delta * Weight(i)) % 10 != 0
  {
    match i % 4 case 0 => case 1 => case 2 => case _ =>
  }

  /** Each further digit weighs 1, 3, 7 or 9 times itself, in turn. */
  lemma WeightsInTurn(d: Row, x: nat)
    ensures |d| % 4 == 0 ==> WeightedSum(d + [x]) == WeightedSum(d) + x
    ensures |d| % 4 == 1 ==> WeightedSum(d + [x]) == WeightedSum(d) + 3 * x
    ensures |d| % 4 == 2 ==> WeightedSum(d + [x]) == WeightedSum(d) + 7 * x
    ensures |d| % 4 == 3 ==> WeightedSum(d + [x]) == WeightedSum(d) + 9 * x
  {
    assert (d + [x])[..|d|] == d;
  }

  /** The checksum is the one digit that completes the weighted sum. */
  lemma ChecksumExactly(d: Row, c: nat)
    requires c < 10
    ensures Checksum(d) == c <==> (WeightedSum(d) + c) % 10 == 0
  {
    ChecksumCompletes(d);
    hide Checksum;
    if (WeightedSum(d) + c) % 10 == 0 {
      SameTen(WeightedSum(d), c, Checksum(d));
    }
  }

  lemma SameTen(s: nat, a: nat, b: nat)
    requires a < 10 && b < 10 && (s + a) % 10 == 0 && (s + b) % 10 == 0
    ensures a == b
  {
  }

  // ---- Hamming(7,4) ----

  function Bit(v: nat, k: nat): (b: nat)
    ensures b < 2
  {
    if k == 3 then v / 8 % 2 else if k == 2 then v / 4 % 2 else if k == 1 then v / 2 % 2 else v % 2
  }

  function Xor(a: nat, b: nat): (x: nat)
    requires a < 2 && b < 2
    ensures x < 2
  {
    if a == b then 0 else 1
  }

  function Hamming74(value: nat): (code: Row)
    ensures |code| == 7 && forall i :: 0 <= i < 7 ==> code[i] < 2
  {
    var d1, d2, d3, d4 := Bit(value, 3), Bit(value, 2), Bit(value, 1), Bit(value, 0);
    [Xor(Xor(d1, d2), d4), Xor(Xor(d1, d3), d4), d1, Xor(Xor(d2, d3), d4), d2, d3, d4]
  }

  function Distance(a: Row, b: Row): (n: nat)
    requires |a| == |b|
    ensures n == 0 <==> a == b
  {
    if a == [] then 0 else (if a[0] != b[0] then 1 else 0) + Distance(a[1..], b[1..])
  }

  lemma {:induction false} Triangle(a: Row, b: Row, c: Row)
    requires |a| == |b| == |c|
    ensures Distance(a, c) <= Distance(a, b) + Distance(b, c)
  {
    if a != [] {
      Triangle(a[1..], b[1..], c[1..]);
    }
  }

  lemma {:induction false} OneChange(a: Row, i: nat, x: nat)
    requires i < |a| && x != a[i]
    ensures Distance(a[i := x], a) == 1
  {
    var b := a[i := x];
    if i > 0 {
      assert b[1..] == a[1..][i - 1 := x];
      OneChange(a[1..], i - 1, x);
    } else {
      assert b[1..] == a[1..];
    }
  }

  /** The distance of two words of seven, position by position. */
  lemma Distance7(a: Row, b: Row)
    requires |a| == |b| == 7
    ensures Distance(a, b) == Differs(a[0], b[0]) + Differs(a[1], b[1]) + Differs(a[2], b[2]) + Differs(a[3], b[3])
      + Differs(a[4], b[4]) + Differs(a[5], b[5]) + Differs(a[6], b[6])
  {
    DistanceStep(a, b);
    DistanceStep(a[1..], b[1..]);
    DistanceStep(a[2..], b[2..]);
    DistanceStep(a[3..], b[3..]);
    DistanceStep(a[4..], b[4..]);
    DistanceStep(a[5..], b[5..]);
    DistanceStep(a[6..], b[6..]);
    assert Distance(a[7..], b[7..]) == 0;
  }

  function Differs(x: nat, y: nat): nat { if x != y then 1 else 0 }

  lemma DistanceStep(a: Row, b: Row)
    requires |a| == |b| > 0
    ensures Distance(a, b) == Differs(a[0], b[0]) + Distance(a[1..], b[1..])
  {
  }

  /** The code words of different classes differ in at least three bits. */
  lemma CodesApart(u: nat, v: nat)
    requires u < 10 && v < 10 && u != v
    ensures Distance(Hamming74(u), Hamming74(v)) >= 3
  {
    hide Distance;
    Distance7(Hamming74(u), Hamming74(v));
    assert Bit(u, 3) != Bit(v, 3) || Bit(u, 2) != Bit(v, 2) || Bit(u, 1) != Bit(v, 1) || Bit(u, 0) != Bit(v, 0);
  }

  // ---- Classifying row F6 ----

  function ClassDistance(f6: Row, v: nat): nat
    requires |f6| == 7
  {
    Distance(f6, Hamming74(v))
  }

  function Least(ds: seq<nat>): (least: nat)
    requires ds != []
    ensures exists v :: 0 <= v < |ds| && ds[v] == least
    ensures forall v :: 0 <= v < |ds| ==> least <= ds[v]
  {
    var d := ds[|ds| - 1];
    if |ds| == 1 then d
    else
      var rest := Least(ds[..|ds| - 1]);
      if d < rest then d else rest
  }

  function ClassDistances(f6: Row, upTo: nat): (ds: seq<nat>)
    requires |f6| == 7
    ensures |ds| == upTo && forall v :: 0 <= v < upTo ==> ds[v] == ClassDistance(f6, v)
  {
    seq(upTo, v requires 0 <= v < upTo => ClassDistance(f6, v))
  }

  function Nearest(f6: Row, upTo: nat): (best: nat)
    requires |f6| == 7 && upTo >= 1
    ensures exists v :: 0 <= v < upTo && ClassDistance(f6, v) == best
    ensures forall v :: 0 <= v < upTo ==> best <= ClassDistance(f6, v)
  {
    var ds := ClassDistances(f6, upTo);
    var least := Least(ds);
    assert exists v :: 0 <= v < upTo && ClassDistance(f6, v) == least by {
      var v :| 0 <= v < |ds| && ds[v] == least;
      assert ClassDistance(f6, v) == least;
    }
    least
  }

  /** The class whose code word is nearest, when no other is as near. */
  function Class(f6: Row): (c: Option<nat>)
    requires |f6| == 7
    ensures c.Some? ==> c.value < 10
  {
    var classes := ClassesAt(f6, Nearest(f6, 10), 10);
    if |classes| == 1 then
      assert classes[0] in classes;
      Some(classes[0])
    else None
  }

  /** The classes at distance `best`, ascending. */
  function ClassesAt(f6: Row, best: nat, upTo: nat): (cs: Row)
    requires |f6| == 7
    ensures forall v: nat :: v in cs <==> v < upTo && ClassDistance(f6, v) == best
    ensures forall i, j :: 0 <= i < j < |cs| ==> cs[i] < cs[j]
  {
    if upTo == 0 then []
    else
      var cs := ClassesAt(f6, best, upTo - 1);
      assert forall i :: 0 <= i < |cs| ==> cs[i] in cs;
      if ClassDistance(f6, upTo - 1) == best then cs + [upTo - 1] else cs
  }

  /** A class is given exactly when its code word is nearer than every other; a tie gives none. */
  lemma ClassExactly(f6: Row, v: nat)
    requires |f6| == 7
    ensures Class(f6) == Some(v) <==>
      v < 10 && forall u :: 0 <= u < 10 && u != v ==> ClassDistance(f6, v) < ClassDistance(f6, u)
    ensures Class(f6) == None <==>
      exists u, w :: 0 <= u < w < 10 && ClassDistance(f6, u) == ClassDistance(f6, w) == Nearest(f6, 10)
  {
    hide ClassDistance, Nearest, ClassesAt;
    var best := Nearest(f6, 10);
    var cs := ClassesAt(f6, best, 10);
    assert forall i :: 0 <= i < |cs| ==> cs[i] in cs;
    assert |cs| >= 2 ==> cs[0] in cs && cs[1] in cs && cs[0] < cs[1];
    var u :| 0 <= u < 10 && ClassDistance(f6, u) == best;
    assert u in cs;
    if |cs| == 1 {
      assert cs[0] in cs;
      assert forall w: nat :: w in cs ==> w == cs[0];
    }
    if v < 10 && forall w :: 0 <= w < 10 && w != v ==> ClassDistance(f6, v) < ClassDistance(f6, w) {
      assert forall w: nat :: w in cs ==> w == v;
      assert |cs| == 1;
    }
  }

  /** A word within one bit of a class's code word belongs to that class and no other. */
  lemma ClassOfNear(f6: Row, v: nat)
    requires |f6| == 7 && v < 10 && Distance(f6, Hamming74(v)) <= 1
    ensures Class(f6) == Some(v) && Nearest(f6, 10) == Distance(f6, Hamming74(v))
  {
    hide Hamming74, Distance, Nearest, ClassesAt;
    forall u | 0 <= u < 10 && u != v ensures ClassDistance(f6, u) >= 2 {
      CodesApart(v, u);
      Triangle(Hamming74(v), f6, Hamming74(u));
      Symmetric(Hamming74(v), f6);
    }
    var best := Nearest(f6, 10);
    assert best <= ClassDistance(f6, v);
    var cs := ClassesAt(f6, best, 10);
    assert |cs| >= 2 ==> cs[0] < cs[1];
    assert v in cs;
    assert forall i :: 0 <= i < |cs| ==> cs[i] in cs;
    assert forall i :: 0 <= i < |cs| ==> cs[i] == v;
  }

  lemma {:induction false} Symmetric(a: Row, b: Row)
    requires |a| == |b|
    ensures Distance(a, b) == Distance(b, a)
  {
    if a != [] {
      Symmetric(a[1..], b[1..]);
    }
  }

  // ---- Fields ----

  function OctetDigits(o: nat): Row { [o / 100 % 10, o / 10 % 10, o % 10] }

  function PortDigits(p: nat): Row { [p / 10000 % 10, p / 1000 % 10, p / 100 % 10, p / 10 % 10, p % 10] }

  function Number(d: Row): nat {
    if d == [] then 0 else Number(d[..|d| - 1]) * 10 + d[|d| - 1]
  }

  datatype Endpoint = Endpoint(o0: nat, o1: nat, o2: nat, o3: nat, port: nat)

  predicate InRange(e: Endpoint) {
    e.o0 <= 255 && e.o1 <= 255 && e.o2 <= 255 && e.o3 <= 255 && e.port <= 65535
  }

  function Field(e: Endpoint, row: nat): (d: Row)
    requires row < 5
    ensures |d| == Width(row) && forall i :: 0 <= i < |d| ==> d[i] < 10
  {
    match row
    case 0 => OctetDigits(e.o0)
    case 1 => OctetDigits(e.o1)
    case 2 => OctetDigits(e.o2)
    case 3 => OctetDigits(e.o3)
    case _ => PortDigits(e.port)
  }

  function EndpointPayload(e: Endpoint): Row {
    OctetDigits(e.o0) + OctetDigits(e.o1) + OctetDigits(e.o2) + OctetDigits(e.o3) + PortDigits(e.port)
  }

  lemma NumberOfOctet(o: nat)
    requires o < 1000
    ensures Number(OctetDigits(o)) == o
  {
    hide Number;
    Number3(OctetDigits(o));
    assert o / 10 / 10 == o / 100;
    assert o / 100 % 10 == o / 100;
    assert o == o / 10 * 10 + o % 10 && o / 10 == o / 10 / 10 * 10 + o / 10 % 10;
  }

  lemma Number3(d: Row)
    requires |d| == 3
    ensures Number(d) == (d[0] * 10 + d[1]) * 10 + d[2]
  {
    assert d[..2][..1] == d[..1] && d[..1][..0] == [];
    assert Number(d[..1]) == d[0];
    assert Number(d[..2]) == d[0] * 10 + d[1];
  }

  lemma Number5(d: Row)
    requires |d| == 5
    ensures Number(d) == (((d[0] * 10 + d[1]) * 10 + d[2]) * 10 + d[3]) * 10 + d[4]
  {
    assert d[..4][..3] == d[..3];
    Number3(d[..3]);
    assert Number(d[..4]) == Number(d[..3]) * 10 + d[3];
    assert Number(d) == Number(d[..4]) * 10 + d[4];
  }

  lemma NumberOfPort(p: nat)
    requires p < 100000
    ensures Number(PortDigits(p)) == p
  {
    hide Number;
    Number5(PortDigits(p));
    PortParts(p);
  }

  lemma PortParts(p: nat)
    requires p < 100000
    ensures p == (((p / 10000 % 10 * 10 + p / 1000 % 10) * 10 + p / 100 % 10) * 10 + p / 10 % 10) * 10 + p % 10
  {
    assert p == p / 10 * 10 + p % 10;
    assert p / 10 == p / 100 * 10 + p / 10 % 10;
    assert p / 100 == p / 1000 * 10 + p / 100 % 10;
    assert p / 1000 == p / 10000 * 10 + p / 1000 % 10;
  }

  // ---- Placing and reading digits ----

  function Place(row: Row, cols: Row, digits: Row): (r: Row)
    requires |row| == 7 && |cols| == |digits| && forall i :: 0 <= i < |cols| ==> cols[i] < 7
    ensures |r| == 7
  {
    if cols == [] then row
    else Place(row, cols[..|cols| - 1], digits[..|cols| - 1])[cols[|cols| - 1] := digits[|cols| - 1]]
  }

  function Read(row: Row, cols: Row): (d: Row)
    requires |row| == 7 && forall i :: 0 <= i < |cols| ==> cols[i] < 7
    ensures |d| == |cols| && forall i :: 0 <= i < |d| ==> d[i] == row[cols[i]]
  {
    seq(|cols|, i requires 0 <= i < |cols| => row[cols[i]])
  }

  lemma {:induction false} PlaceReads(row: Row, cols: Row, digits: Row)
    requires |row| == 7 && |cols| == |digits| && NoRepeat(cols) && forall i :: 0 <= i < |cols| ==> cols[i] < 7
    ensures Read(Place(row, cols, digits), cols) == digits
    ensures forall c :: 0 <= c < 7 && c !in cols ==> Place(row, cols, digits)[c] == row[c]
  {
    if cols != [] {
      var n := |cols| - 1;
      PlaceReads(row, cols[..n], digits[..n]);
      var before := Place(row, cols[..n], digits[..n]);
      forall i | 0 <= i < n ensures before[cols[i]] == digits[i] {
        assert Read(before, cols[..n])[i] == before[cols[i]];
      }
    }
  }

  /** The row with these digits in these columns and all other cells as they were. */
  lemma PlaceExactly(row: Row, cols: Row, digits: Row, r: Row)
    requires |row| == |r| == 7 && |cols| == |digits| && NoRepeat(cols)
    requires forall i :: 0 <= i < |cols| ==> cols[i] < 7
    ensures r == Place(row, cols, digits) <==>
      (forall i :: 0 <= i < |cols| ==> r[cols[i]] == digits[i]) && forall c :: 0 <= c < 7 && c !in cols ==> r[c] == row[c]
  {
    hide Place;
    PlaceReads(row, cols, digits);
    var p := Place(row, cols, digits);
    assert forall i :: 0 <= i < |cols| ==> Read(p, cols)[i] == p[cols[i]];
    if (forall i :: 0 <= i < |cols| ==> r[cols[i]] == digits[i]) && forall c :: 0 <= c < 7 && c !in cols ==> r[c] == row[c] {
      forall c | 0 <= c < 7 ensures r[c] == p[c] {
        if c in cols {
          var i :| 0 <= i < |cols| && cols[i] == c;
        }
      }
    }
  }

  // ---- Encoding and decoding ----

  type Grid = seq<Row>

  predicate IsGrid(m: Grid) {
    |m| == 7 && forall r :: 0 <= r < 7 ==> |m[r]| == 7
  }

  predicate IsDigitGrid(m: Grid) {
    IsGrid(m) && forall r, c :: 0 <= r < 7 && 0 <= c < 7 ==> m[r][c] < 10
  }

  function EncodedRow(e: Endpoint, decoys: Grid, row: nat): (r: Row)
    requires IsGrid(decoys) && row < 7
    ensures |r| == 7
  {
    var check := Checksum(EndpointPayload(e));
    if row < 5 then Place(decoys[row], Path(row), Field(e, row))
    else if row == 5 then Hamming74(check)
    else decoys[6][2 := check]
  }

  function Encode(e: Endpoint, decoys: Grid): (m: Grid)
    requires IsGrid(decoys)
    ensures IsGrid(m)
  {
    seq(7, r requires 0 <= r < 7 => EncodedRow(e, decoys, r))
  }

  datatype Decoded = Decoded(endpoint: Endpoint, checksum: nat, rbfClass: Option<nat>, rbfDistance: nat, valid: bool)

  function FieldOf(m: Grid, row: nat): (d: Row)
    requires IsGrid(m) && row < 5
    ensures |d| == Width(row)
  {
    Read(m[row], Path(row))
  }

  function GridPayload(m: Grid): Row
    requires IsGrid(m)
  {
    FieldOf(m, 0) + FieldOf(m, 1) + FieldOf(m, 2) + FieldOf(m, 3) + FieldOf(m, 4)
  }

  function GridEndpoint(m: Grid): Endpoint
    requires IsGrid(m)
  {
    Endpoint(Number(FieldOf(m, 0)), Number(FieldOf(m, 1)), Number(FieldOf(m, 2)), Number(FieldOf(m, 3)), Number(FieldOf(m, 4)))
  }

  predicate IsBits(row: Row) {
    forall i :: 0 <= i < |row| ==> row[i] < 2
  }

  function Decode(m: Grid): Result<Decoded> {
    if !IsDigitGrid(m) then Err(InvalidRequest)
    else if !IsBits(m[5]) then Err(LengthMismatch)
    else
      var check := Checksum(GridPayload(m));
      var c := Class(m[5]);
      var e := GridEndpoint(m);
      Ok(Decoded(e, check, c, Nearest(m[5], 10), InRange(e) && c == Some(check) && m[6][2] == check))
  }

  lemma FieldsRead(e: Endpoint, decoys: Grid, m: Grid, row: nat)
    requires IsGrid(decoys) && IsGrid(m) && row < 5 && m[row] == EncodedRow(e, decoys, row)
    ensures FieldOf(m, row) == Field(e, row)
  {
    hide Path;
    PathsDistinct(row);
    PlaceReads(decoys[row], Path(row), Field(e, row));
  }

  /** A grid whose first five rows are those of an encoding reads back the endpoint and its payload. */
  lemma RowsRead(e: Endpoint, decoys: Grid, m: Grid)
    requires IsGrid(decoys) && IsGrid(m) && InRange(e)
    requires forall r :: 0 <= r < 5 ==> m[r] == EncodedRow(e, decoys, r)
    ensures GridEndpoint(m) == e && GridPayload(m) == EndpointPayload(e)
  {
    hide FieldOf, EncodedRow, Number, OctetDigits, PortDigits;
    FieldsRead(e, decoys, m, 0);
    FieldsRead(e, decoys, m, 1);
    FieldsRead(e, decoys, m, 2);
    FieldsRead(e, decoys, m, 3);
    FieldsRead(e, decoys, m, 4);
    NumberOfOctet(e.o0);
    NumberOfOctet(e.o1);
    NumberOfOctet(e.o2);
    NumberOfOctet(e.o3);
    NumberOfPort(e.port);
  }

  lemma {:induction false} PlaceDigits(row: Row, cols: Row, digits: Row)
    requires |row| == 7 && |cols| == |digits| && forall i :: 0 <= i < |cols| ==> cols[i] < 7
    requires (forall i :: 0 <= i < |digits| ==> digits[i] < 10) && forall c :: 0 <= c < 7 ==> row[c] < 10
    ensures forall c :: 0 <= c < 7 ==> Place(row, cols, digits)[c] < 10
  {
    if cols != [] {
      PlaceDigits(row, cols[..|cols| - 1], digits[..|cols| - 1]);
    }
  }

  lemma EncodesDigits(e: Endpoint, decoys: Grid)
    requires IsDigitGrid(decoys)
    ensures IsDigitGrid(Encode(e, decoys))
  {
    hide Path, Field, Place, Checksum;
    forall r, c | 0 <= r < 7 && 0 <= c < 7 ensures Encode(e, decoys)[r][c] < 10 {
      if r < 5 {
        PlaceDigits(decoys[r], Path(r), Field(e, r));
      }
    }
  }

  /** Every endpoint comes back from its matrix, valid and at distance 0, whatever the decoy digits. */
  lemma RoundTrip(e: Endpoint, decoys: Grid)
    requires Address(e) && IsDigitGrid(decoys)
    ensures var check := Checksum(EndpointPayload(e));
      Decode(Encode(e, decoys)) == Ok(Decoded(e, check, Some(check), 0, true))
  {
    hide Checksum, Class, Nearest, Hamming74, Place, GridPayload, GridEndpoint, EndpointPayload;
    var m := Encode(e, decoys);
    EncodesDigits(e, decoys);
    RowsRead(e, decoys, m);
    ClassOfNear(m[5], Checksum(EndpointPayload(e)));
  }

  /** The grid with another class row. */
  function WithClassRow(m: Grid, row: Row): (m': Grid)
    requires IsGrid(m) && |row| == 7
    ensures IsGrid(m')
  {
    m[5 := row]
  }

  /** Decoding is refused exactly for a grid that is not made of digits or whose class row is not made of bits. */
  lemma RefusedExactly(m: Grid)
    ensures Decode(m).Ok? <==>
      ((|m| == 7 && forall r :: 0 <= r < 7 ==> |m[r]| == 7)
       && (forall r, c :: 0 <= r < 7 && 0 <= c < 7 ==> m[r][c] in {0, 1, 2, 3, 4, 5, 6, 7, 8, 9})
       && forall c :: 0 <= c < 7 ==> m[5][c] in {0, 1})
  {
    hide Checksum, Class, Nearest, GridPayload, GridEndpoint;
  }

  /**
   * A result is valid exactly when the grid is the encoding of an address in range, over decoys of its own, but for
   * its class row; and that row is nearer to the code word of the address's checksum than to any other.
   */
  lemma ValidExactly(m: Grid)
    requires Decode(m).Ok?
    ensures Decode(m).value.valid <==> exists e :: Address(e) && Encodes(e, m)
  {
    hide Checksum, Class, Nearest, Hamming74, GridPayload, GridEndpoint, EndpointPayload, Encodes;
    var e := GridEndpoint(m);
    if Decode(m).value.valid {
      RewritesRows(m);
      EncodesExactly(e, m);
      assert Address(e);
    }
    forall e: Endpoint | Address(e) && Encodes(e, m) ensures Decode(m).value.valid {
      EncodesExactly(e, m);
      RowsRead(e, m, m);
    }
  }

  /** Four numbers of eight bits and one of sixteen. */
  predicate Address(e: Endpoint) {
    e.o0 < 0x100 && e.o1 < 0x100 && e.o2 < 0x100 && e.o3 < 0x100 && e.port < 0x1_0000
  }

  predicate Encodes(e: Endpoint, m: Grid)
    requires IsGrid(m)
  {
    var check := Checksum(EndpointPayload(e));
    Encode(e, m) == WithClassRow(m, Hamming74(check)) && Class(m[5]) == Some(check)
  }

  lemma EncodesExactly(e: Endpoint, m: Grid)
    requires IsGrid(m)
    ensures Encodes(e, m) <==>
      ((forall r :: 0 <= r < 5 ==> m[r] == EncodedRow(e, m, r))
       && m[6][2] == Checksum(EndpointPayload(e)) && Class(m[5]) == Some(Checksum(EndpointPayload(e))))
  {
    hide Checksum, Class, Hamming74, EndpointPayload, Place, Path, Field;
    var check := Checksum(EndpointPayload(e));
    var g, w := Encode(e, m), WithClassRow(m, Hamming74(check));
    assert forall r :: 0 <= r < 7 ==> g[r] == EncodedRow(e, m, r);
    assert m[6][2] == check <==> m[6] == m[6][2 := check];
    if (forall r :: 0 <= r < 5 ==> m[r] == EncodedRow(e, m, r)) && m[6][2] == check {
      assert forall r :: 0 <= r < 7 ==> g[r] == w[r];
      assert g == w;
    }
    if g == w {
      assert forall r :: 0 <= r < 7 && r != 5 ==> m[r] == w[r] == g[r];
      assert m[6][2 := check][2] == check;
    }
  }

  /** Digits are those of the number they spell. */
  lemma DigitsOfNumber(d: Row)
    requires forall i :: 0 <= i < |d| ==> d[i] < 10
    ensures |d| == 3 ==> OctetDigits(Number(d)) == d
    ensures |d| == 5 ==> PortDigits(Number(d)) == d
  {
    hide Number, OctetDigits, PortDigits;
    if |d| == 3 {
      Number3(d);
      ThreeParts(d[0], d[1], d[2]);
      assert d == [d[0], d[1], d[2]];
    } else if |d| == 5 {
      Number5(d);
      FiveParts(d[0], d[1], d[2], d[3], d[4]);
      assert d == [d[0], d[1], d[2], d[3], d[4]];
    }
  }

  lemma ThreeParts(a: nat, b: nat, c: nat)
    requires a < 10 && b < 10 && c < 10
    ensures OctetDigits((a * 10 + b) * 10 + c) == [a, b, c]
  {
    var n := (a * 10 + b) * 10 + c;
    assert n / 10 == a * 10 + b && n / 100 == a;
  }

  lemma FiveParts(a: nat, b: nat, c: nat, d: nat, e: nat)
    requires a < 10 && b < 10 && c < 10 && d < 10 && e < 10
    ensures PortDigits((((a * 10 + b) * 10 + c) * 10 + d) * 10 + e) == [a, b, c, d, e]
  {
    var n2, n3, n4 := a * 10 + b, (a * 10 + b) * 10 + c, ((a * 10 + b) * 10 + c) * 10 + d;
    var n := n4 * 10 + e;
    assert n / 10 == n4 && n % 10 == e;
    assert n / 100 == n3 && n4 % 10 == d;
    assert n / 1000 == n2 && n3 % 10 == c;
    assert n / 10000 == a && n2 % 10 == b;
  }

  /** A grid of digits is written over itself by the address it holds. */
  lemma RewritesRows(m: Grid)
    requires IsDigitGrid(m)
    ensures EndpointPayload(GridEndpoint(m)) == GridPayload(m)
    ensures forall r :: 0 <= r < 5 ==> EncodedRow(GridEndpoint(m), m, r) == m[r]
  {
    hide Path, Number, OctetDigits, PortDigits, Place;
    forall r | 0 <= r < 5 ensures FieldOf(m, r) == Field(GridEndpoint(m), r) {
      DigitsOfNumber(FieldOf(m, r));
    }
    forall r | 0 <= r < 5 ensures EncodedRow(GridEndpoint(m), m, r) == m[r] {
      PathsDistinct(r);
      PlaceExactly(m[r], Path(r), FieldOf(m, r), m[r]);
    }
  }

  /** The matrix with one cell overwritten. */
  function Change(m: Grid, r: nat, c: nat, x: nat): (m': Grid)
    requires IsGrid(m) && r < 7 && c < 7
    ensures IsGrid(m')
  {
    var row: Row := m[r];
    var changed: Row := row[c := x];
    m[r := changed]
  }

  /** One wrong bit in row F6 is corrected: the same endpoint and class, still valid, at distance 1. */
  lemma CorrectsOneBit(e: Endpoint, decoys: Grid, c: nat)
    requires InRange(e) && IsDigitGrid(decoys) && c < 7
    ensures var m := Encode(e, decoys); var check := Checksum(EndpointPayload(e));
      Decode(Change(m, 5, c, 1 - m[5][c])) == Ok(Decoded(e, check, Some(check), 1, true))
  {
    hide Checksum, Class, Nearest, Place, GridPayload, GridEndpoint, EndpointPayload, Hamming74, Distance;
    var m := Encode(e, decoys);
    var check := Checksum(EndpointPayload(e));
    var m' := Change(m, 5, c, 1 - m[5][c]);
    EncodesDigits(e, decoys);
    LastRow(e, decoys);
    RowsRead(e, decoys, m');
    OneChange(Hamming74(check), c, 1 - m[5][c]);
    ClassOfNear(m'[5], check);
  }

  /** The position of a path cell's digit in the payload. */
  function PayloadIndex(row: nat, i: nat): nat {
    3 * row + i
  }

  lemma PayloadAt(m: Grid, row: nat, i: nat)
    requires IsGrid(m) && row < 5 && i < Width(row)
    ensures |GridPayload(m)| == 17 && PayloadIndex(row, i) < 17
    ensures GridPayload(m)[PayloadIndex(row, i)] == m[row][Path(row)[i]]
  {
    hide Path;
  }

  /** Overwriting one path cell changes one digit of the payload. */
  lemma ChangedPayload(m: Grid, row: nat, i: nat, x: nat)
    requires IsGrid(m) && row < 5 && i < Width(row)
    ensures |GridPayload(m)| == 17
    ensures GridPayload(Change(m, row, Path(row)[i], x)) == GridPayload(m)[PayloadIndex(row, i) := x]
  {
    hide Path, GridPayload;
    var m' := Change(m, row, Path(row)[i], x);
    var p, p' := GridPayload(m), GridPayload(m');
    PathsDistinct(row);
    PayloadAt(m, row, i);
    PayloadAt(m', row, i);
    forall k | 0 <= k < 17 ensures p'[k] == p[PayloadIndex(row, i) := x][k] {
      var r, j := if k < 12 then k / 3 else 4, if k < 12 then k % 3 else k - 12;
      PayloadAt(m, r, j);
      PayloadAt(m', r, j);
    }
  }

  /** Any other digit in any one data cell is noticed. */
  lemma DataChangeDetected(e: Endpoint, decoys: Grid, row: nat, i: nat, x: nat)
    requires InRange(e) && IsDigitGrid(decoys) && row < 5 && i < Width(row) && x < 10
    requires x != Field(e, row)[i]
    ensures var m' := Change(Encode(e, decoys), row, Path(row)[i], x);
      Decode(m').Ok? && !Decode(m').value.valid
  {
    hide Checksum, Class, Nearest, Hamming74, Place, Path, GridPayload, GridEndpoint, EndpointPayload, Field, EncodedRow;
    var m := Encode(e, decoys);
    var check := Checksum(EndpointPayload(e));
    var m' := Change(m, row, Path(row)[i], x);
    EncodesDigits(e, decoys);
    RowsRead(e, decoys, m);
    RoundTrip(e, decoys);
    FieldsRead(e, decoys, m, row);
    ChangedPayload(m, row, i, x);
    PayloadAt(m, row, i);
    assert GridPayload(m)[PayloadIndex(row, i)] == Field(e, row)[i];
    LastRow(e, decoys);
    ChecksumDetectsChange(GridPayload(m), PayloadIndex(row, i), x);
  }

  lemma LastRow(e: Endpoint, decoys: Grid)
    requires IsGrid(decoys)
    ensures Encode(e, decoys)[6][2] == Checksum(EndpointPayload(e)) && IsBits(Encode(e, decoys)[5])
  {
    hide Checksum, Hamming74;
  }

  /** Another digit in the stored checksum cell is noticed too. */
  lemma ChecksumCellDetected(e: Endpoint, decoys: Grid, x: nat)
    requires InRange(e) && IsDigitGrid(decoys) && x < 10 && x != Checksum(EndpointPayload(e))
    ensures var m' := Change(Encode(e, decoys), 6, 2, x); Decode(m').Ok? && !Decode(m').value.valid
  {
    hide Checksum, Class, Nearest, Hamming74, Place, Path, GridPayload, GridEndpoint, EndpointPayload;
    var m := Encode(e, decoys);
    EncodesDigits(e, decoys);
    RowsRead(e, decoys, Change(m, 6, 2, x));
  }

  /** Cells off the paths, outside row F6 and the checksum cell, never matter. */
  lemma DecoysIgnored(m: Grid, r: nat, c: nat, x: nat)
    requires IsDigitGrid(m) && r < 7 && c < 7 && x < 10
    requires (r < 5 && c !in Path(r)) || (r == 6 && c != 2)
    ensures Decode(Change(m, r, c, x)) == Decode(m)
  {
    hide Checksum, Class, Nearest, Path, Number;
    var m' := Change(m, r, c, x);
    assert IsDigitGrid(m');
    forall row | 0 <= row < 5 ensures FieldOf(m', row) == FieldOf(m, row) {
    }
  }

  // ---- The encoder's loops ----

  method MatrixEncode(e: Endpoint, decoys: Grid) returns (matrix: Grid)
    requires InRange(e) && IsDigitGrid(decoys)
    ensures matrix == Encode(e, decoys)
  {
    hide Checksum, Hamming74, Path, Field, EndpointPayload;
    matrix := decoys;
    for row := 0 to 5
      invariant IsGrid(matrix)
      invariant forall r :: 0 <= r < row ==> matrix[r] == EncodedRow(e, decoys, r)
      invariant forall r :: row <= r < 7 ==> matrix[r] == decoys[r]
    {
      var columns, field := Path(row), Field(e, row);
      ghost var rest := matrix;
      for i := 0 to |columns|
        invariant matrix == rest[row := Place(decoys[row], columns[..i], field[..i])]
      {
        assert columns[..i + 1][..i] == columns[..i] && field[..i + 1][..i] == field[..i];
        var line: Row := matrix[row];
        line := line[columns[i] := field[i]];
        matrix := matrix[row := line];
      }
      assert columns[..|columns|] == columns && field[..|columns|] == field;
    }
    var check := Checksum(EndpointPayload(e));
    matrix := matrix[5 := Hamming74(check)];
    var last: Row := matrix[6];
    last := last[(10 - 1) % 7 := check];
    matrix := matrix[6 := last];
  }
}
