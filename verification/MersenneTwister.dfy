/**
 * MT19937 as CPython seeds it. The generator regenerates its 624 words in place; the specification is
 * the pure recurrence x(j + 624) = x(j + 397) xor A(x(j), x(j + 1)).
 */
module MersenneTwister {
  import opened Arithmetic

  type Word = bv32

  // ---- The recurrence ----

  function Join(hi: Word, lo: Word): Word {
    (hi & 0x8000_0000) | (lo & 0x7fff_ffff)
  }

  function Next(middle: Word, hi: Word, lo: Word): Word {
    var y := Join(hi, lo);
    (middle ^ (y >> 1)) ^ (if y & 1 == 1 then 0x9908_b0df else 0)
  }

  function X(seed: seq<Word>, j: nat): Word
    requires |seed| == 624
  {
    if j < 624 then seed[j] else Next(X(seed, j - 227), X(seed, j - 624), X(seed, j - 623))
  }

  function TemperRight(y: Word): Word { y ^ (y >> 11) }

  function TemperLeft(y: Word): Word { y ^ ((y << 7) & 0x9d2c_5680) }

  function TemperMore(y: Word): Word { y ^ ((y << 15) & 0xefc6_0000) }

  function TemperLast(y: Word): Word { y ^ (y >> 18) }

  function Temper(w: Word): Word {
    TemperLast(TemperMore(TemperLeft(TemperRight(w))))
  }

  /** The `k`-th output, from 0, for a seeded state. */
  function Output(seed: seq<Word>, k: nat): Word
    requires |seed| == 624
  {
    Temper(X(seed, 624 + k))
  }

  // ---- Seeding ----

  function FromInt(i: int): Word {
    (i % 0x1_0000_0000) as bv32
  }

  function Stir(w: Word): Word { w ^ (w >> 30) }

  function BaseWord(prev: Word, k: nat): Word {
    1812433253 * Stir(prev) + FromInt(k)
  }

  function KeyMix(prev: Word): Word { Stir(prev) * 1664525 }

  function KeySum(prev: Word, current: Word, j: nat): Word {
    (current ^ KeyMix(prev)) + FromInt(j)
  }

  function KeyWord(prev: Word, current: Word, j: nat, key: Word): Word {
    KeySum(prev, current, j) + key
  }

  function FinalMix(prev: Word): Word { Stir(prev) * 1566083941 }

  function Masked(current: Word, mask: Word): Word { current ^ mask }

  function Less(w: Word, i: nat): Word { w - FromInt(i) }

  function FinalWord(prev: Word, current: Word, i: nat): Word {
    Less(Masked(current, FinalMix(prev)), i)
  }

  /** Words 0 to `k` after `init_genrand`. */
  function Base(seed: Word, k: nat): (s: seq<Word>)
    ensures |s| == k + 1
  {
    if k == 0 then [seed] else Base(seed, k - 1) + [BaseWord(Base(seed, k - 1)[k - 1], k)]
  }

  datatype Mixing = Mixing(mt: seq<Word>, i: nat)

  predicate MixingOk(m: Mixing) {
    |m.mt| == 624 && 1 <= m.i < 624
  }

  /** Writing word `i` and moving on, wrapping round to word 1 past the end. */
  function Put(m: Mixing, w: Word): (r: Mixing)
    requires MixingOk(m)
    ensures MixingOk(r)
  {
    var mt := m.mt[m.i := w];
    if m.i + 1 >= 624 then Mixing(mt[0 := mt[623]], 1) else Mixing(mt, m.i + 1)
  }

  function KeyStep(m: Mixing, key: seq<Word>, j: nat): (r: Mixing)
    requires MixingOk(m) && j < |key|
    ensures MixingOk(r)
  {
    Put(m, KeyWord(m.mt[m.i - 1], m.mt[m.i], j, key[j]))
  }

  function KeyRounds(m: Mixing, key: seq<Word>, count: nat): (r: Mixing)
    requires MixingOk(m) && key != []
    ensures MixingOk(r)
  {
    if count == 0 then m else KeyStep(KeyRounds(m, key, count - 1), key, (count - 1) % |key|)
  }

  function FinalStep(m: Mixing): (r: Mixing)
    requires MixingOk(m)
    ensures MixingOk(r)
  {
    Put(m, FinalWord(m.mt[m.i - 1], m.mt[m.i], m.i))
  }

  function FinalRounds(m: Mixing, count: nat): (r: Mixing)
    requires MixingOk(m)
    ensures MixingOk(r)
  {
    if count == 0 then m else FinalStep(FinalRounds(m, count - 1))
  }

  function SeedState(key: seq<Word>): (s: seq<Word>)
    requires key != []
    ensures |s| == 624 && s[0] == 0x8000_0000
  {
    var keyed := KeyRounds(Mixing(Base(19650218, 623), 1), key, if |key| > 624 then |key| else 624);
    FinalRounds(keyed, 623).mt[0 := 0x8000_0000]
  }

  // ---- The generator ----

  class MT19937 {
    const mt: array<Word>
    var index: nat
    ghost var seed: seq<Word>
    ghost var drawn: nat

    /** The array is a window of the recurrence; `index` words of it have been handed out. */
    ghost predicate Valid()
      reads this, mt
    {
      && mt.Length == 624 && |seed| == 624 && index <= 624
      && drawn + 624 >= index
      && forall i :: 0 <= i < 624 ==> mt[i] == X(seed, drawn + 624 - index + i)
    }

    constructor (key: seq<Word>)
      requires key != []
      ensures Valid() && fresh(mt) && drawn == 0 && seed == SeedState(key)
    {
      mt := new Word[624];
      index := 624;
      drawn := 0;
      new;
      InitByArray(key);
    }

    method InitGenrand(s: Word)
      requires mt.Length == 624
      modifies mt
      ensures mt[..] == Base(s, 623)
    {
      hide BaseWord;
      mt[0] := s;
      for mti := 1 to 624
        invariant mt[..mti] == Base(s, mti - 1)
      {
        assert mt[..mti][mti - 1] == mt[mti - 1];
        mt[mti] := BaseWord(mt[mti - 1], mti);
        assert mt[..mti + 1] == mt[..mti] + [mt[mti]];
      }
      assert mt[..624] == mt[..];
    }

    method InitByArray(key: seq<Word>)
      requires mt.Length == 624 && key != []
      modifies this, mt
      ensures Valid() && drawn == 0 && seed == SeedState(key)
    {
      hide Base, X, KeyRounds, FinalRounds;
      InitGenrand(19650218);
      var i := MixKey(key);
      i := MixFinal(i);
      mt[0] := 0x8000_0000;
      index := 624;
      seed, drawn := mt[..], 0;
      SeedIsWindow(seed);
    }

    method MixKey(key: seq<Word>) returns (i: nat)
      requires mt.Length == 624 && key != []
      modifies mt
      ensures 1 <= i < 624
      ensures Mixing(mt[..], i) == KeyRounds(Mixing(old(mt[..]), 1), key, if |key| > 624 then |key| else 624)
    {
      hide KeyWord, KeyRounds;
      ghost var start := Mixing(mt[..], 1);
      NoKeyRounds(start, key);
      i := 1;
      var j := 0;
      var k := if |key| > 624 then |key| else 624;
      for iteration := 0 to k
        invariant 1 <= i < 624 && j == iteration % |key|
        invariant Mixing(mt[..], i) == KeyRounds(start, key, iteration)
      {
        ghost var before := Mixing(mt[..], i);
        mt[i] := KeyWord(mt[i - 1], mt[i], j, key[j]);
        i := i + 1;
        j := j + 1;
        if i >= 624 {
          mt[0] := mt[623];
          i := 1;
        }
        assert mt[..] == KeyStep(before, key, iteration % |key|).mt;
        CycleStep(iteration, |key|);
        KeyRoundsStep(start, key, iteration);
        if j >= |key| { j := 0; }
      }
    }

    method MixFinal(i0: nat) returns (i: nat)
      requires mt.Length == 624 && 1 <= i0 < 624
      modifies mt
      ensures 1 <= i < 624
      ensures Mixing(mt[..], i) == FinalRounds(Mixing(old(mt[..]), i0), 623)
    {
      hide FinalWord;
      ghost var keyed := Mixing(mt[..], i0);
      i := i0;
      for iteration := 0 to 623
        invariant 1 <= i < 624
        invariant Mixing(mt[..], i) == FinalRounds(keyed, iteration)
      {
        ghost var before := Mixing(mt[..], i);
        mt[i] := FinalWord(mt[i - 1], mt[i], i);
        i := i + 1;
        if i >= 624 {
          mt[0] := mt[623];
          i := 1;
        }
        assert mt[..] == FinalStep(before).mt;
      }
    }

    /** The next output; every 624 calls the array is rebuilt in place, old and new words mixed. */
    method Genrand() returns (r: Word)
      requires Valid()
      modifies this, mt
      ensures Valid() && seed == old(seed) && drawn == old(drawn) + 1
      ensures r == Output(seed, old(drawn))
    {
      hide X, Temper;
      if index >= 624 {
        Regenerate();
      }
      r := Temper(mt[index]);
      index := index + 1;
      drawn := drawn + 1;
    }

    method Regenerate()
      requires Valid() && index == 624
      modifies this, mt
      ensures Valid() && seed == old(seed) && drawn == old(drawn) && index == 0
    {
      hide X, Next;
      ghost var base := drawn;
      RebuildFromOld(base);
      RebuildFromNew(base);
      RebuildLast(base);
      index := 0;
    }

    /** The last word, whose successor is the first of the new block. */
    method RebuildLast(ghost base: nat)
      requires Rebuilt(base, 623)
      modifies mt
      ensures Rebuilt(base, 624)
    {
      hide X, Next;
      XStep(seed, base + 623);
      mt[623] := Next(mt[396], mt[623], mt[0]);
    }

    /** The first 227 words, each reaching 397 ahead into words not yet replaced. */
    method RebuildFromOld(ghost base: nat)
      requires Rebuilt(base, 0)
      modifies mt
      ensures Rebuilt(base, 227)
    {
      hide X, Next;
      var kk := 0;
      while kk < 227
        invariant 0 <= kk <= 227 && Rebuilt(base, kk)
      {
        XStep(seed, base + kk);
        mt[kk] := Next(mt[kk + 397], mt[kk], mt[kk + 1]);
        kk := kk + 1;
      }
    }

    /** All but the last of the others, each reaching 227 back into words already replaced. */
    method RebuildFromNew(ghost base: nat)
      requires Rebuilt(base, 227)
      modifies mt
      ensures Rebuilt(base, 623)
    {
      hide X, Next;
      var kk := 227;
      while kk < 623
        invariant 227 <= kk <= 623 && Rebuilt(base, kk)
      {
        XStep(seed, base + kk);
        mt[kk] := Next(mt[kk - 227], mt[kk], mt[kk + 1]);
        kk := kk + 1;
      }
    }

    /** The first `kk` words belong to the next block of the recurrence, the others still to this one. */
    ghost predicate Rebuilt(base: nat, kk: nat)
      reads this, mt
    {
      && mt.Length == 624 && |seed| == 624 && kk <= 624
      && (forall i :: 0 <= i < kk ==> mt[i] == X(seed, base + 624 + i))
      && (forall i :: kk <= i < 624 ==> mt[i] == X(seed, base + i))
    }
  }

  lemma SeedIsWindow(seed: seq<Word>)
    requires |seed| == 624
    ensures forall i :: 0 <= i < 624 ==> X(seed, i) == seed[i]
  {
  }

  lemma XStep(seed: seq<Word>, j: nat)
    requires |seed| == 624
    ensures X(seed, j + 624) == Next(X(seed, j + 397), X(seed, j), X(seed, j + 1))
  {
  }

  lemma NoKeyRounds(m: Mixing, key: seq<Word>)
    requires MixingOk(m) && key != []
    ensures KeyRounds(m, key, 0) == m
  {
  }

  lemma KeyRoundsStep(m: Mixing, key: seq<Word>, count: nat)
    requires MixingOk(m) && key != []
    ensures KeyRounds(m, key, count + 1) == KeyStep(KeyRounds(m, key, count), key, count % |key|)
  {
  }

  lemma CycleStep(k: nat, n: nat)
    requires n > 0
    ensures (k + 1) % n == if k % n + 1 >= n then 0 else k % n + 1
  {
    var q, r := k / n, k % n;
    assert k == n * q + r;
    if r + 1 >= n {
      assert (q + 1) * n == n * q + n;
      DivModUnique(k + 1, n, q + 1, 0);
    } else {
      DivModUnique(k + 1, n, q, r + 1);
    }
  }

  // ---- The state never dies out ----

  lemma ZeroTwist(middle: Word, hi: Word, lo: Word)
    requires Next(middle, hi, lo) == 0 && middle == 0
    ensures hi & 0x8000_0000 == 0 && lo & 0x7fff_ffff == 0
  {
  }

  lemma TopAndRest(w: Word)
    requires w & 0x8000_0000 == 0 && w & 0x7fff_ffff == 0
    ensures w == 0
  {
  }

  /** All the state that determines the future from position `j` is zero. */
  ghost predicate Dead(seed: seq<Word>, j: nat)
    requires |seed| == 624
  {
    X(seed, j) & 0x8000_0000 == 0 && forall p {:trigger X(seed, p)} :: j < p < j + 624 ==> X(seed, p) == 0
  }

  lemma {:induction false} NeverDead(seed: seq<Word>, j: nat)
    requires |seed| == 624 && seed[0] == 0x8000_0000
    ensures !Dead(seed, j)
  {
    if j > 0 {
      NeverDead(seed, j - 1);
      if Dead(seed, j) {
        DeadBefore(seed, j - 1);
      }
    } else {
      assert X(seed, 0) & 0x8000_0000 != 0;
    }
  }

  /** A dead state can only have come from a dead state. */
  lemma DeadBefore(seed: seq<Word>, j: nat)
    requires |seed| == 624 && Dead(seed, j + 1)
    ensures Dead(seed, j)
  {
    hide X, Next;
    XStep(seed, j);
    assert X(seed, j + 624) == 0 && X(seed, j + 397) == 0;
    ZeroTwist(X(seed, j + 397), X(seed, j), X(seed, j + 1));
    TopAndRest(X(seed, j + 1));
  }

  // ---- Tempering is a bijection ----

  function Untemper(w: Word): Word {
    UndoRight(UndoLeft(TemperMore(TemperLast(w))))
  }

  /** Inverts `y ^= (y << 7) & 0x9d2c5680`, seven more low bits at a time. */
  function UndoLeft(c: Word): Word {
    var y := c ^ ((c << 7) & 0x9d2c_5680);
    var y := c ^ ((y << 7) & 0x9d2c_5680);
    var y := c ^ ((y << 7) & 0x9d2c_5680);
    c ^ ((y << 7) & 0x9d2c_5680)
  }

  /** Inverts `y ^= y >> 11`. */
  function UndoRight(c: Word): Word {
    (c ^ (c >> 11)) ^ (c >> 22)
  }

  lemma CancelPair(t: Word, a: Word, b: Word)
    ensures ((t ^ a) ^ (a ^ b)) ^ b == t
  {
  }

  lemma Cancel(t: Word, a: Word)
    ensures (t ^ a) ^ a == t
  {
  }

  lemma ShiftsOnce(y: Word)
    ensures (y ^ (y >> 11)) >> 11 == (y >> 11) ^ (y >> 22)
  {
  }

  lemma ShiftsTwice(y: Word)
    ensures (y ^ (y >> 11)) >> 22 == y >> 22
  {
  }

  lemma UndoesRight(y: Word)
    ensures UndoRight(TemperRight(y)) == y
  {
    ShiftsOnce(y);
    ShiftsTwice(y);
    CancelPair(y, y >> 11, y >> 22);
  }

  lemma ShiftsLast(t: Word)
    ensures (t ^ (t >> 18)) >> 18 == t >> 18
  {
  }

  /** Shifts of more than half the mask's reach undo themselves. */
  lemma UndoesLast(t: Word)
    ensures TemperLast(TemperLast(t)) == t
  {
    ShiftsLast(t);
    Cancel(t, t >> 18);
  }

  lemma ShiftsMore(y: Word)
    ensures ((y ^ ((y << 15) & 0xefc6_0000)) << 15) & 0xefc6_0000 == (y << 15) & 0xefc6_0000
  {
  }

  lemma UndoesMore(y: Word)
    ensures TemperMore(TemperMore(y)) == y
  {
    ShiftsMore(y);
    Cancel(y, (y << 15) & 0xefc6_0000);
  }

  lemma UndoesLeft(y: Word)
    ensures UndoLeft(TemperLeft(y)) == y
  {
  }

  /** Tempering loses nothing: the state word can be read back from the output. */
  lemma UntemperTemper(w: Word)
    ensures Untemper(Temper(w)) == w
  {
    hide UndoLeft, UndoRight, TemperLeft, TemperRight, TemperMore, TemperLast;
    UndoesRight(w);
    UndoesLeft(TemperRight(w));
    UndoesMore(TemperLeft(TemperRight(w)));
    UndoesLast(TemperMore(TemperLeft(TemperRight(w))));
  }

  /** No seed ever leads to 624 zero outputs in a row: the generator cannot die out. */
  lemma NeverStuck(key: seq<Word>, k: nat)
    requires key != []
    ensures exists i :: k <= i < k + 624 && Output(SeedState(key), i) != 0
  {
    hide X, Temper, Untemper, SeedState;
    var seed := SeedState(key);
    NeverDead(seed, 624 + k);
    var j := 624 + k;
    ZeroTop();
    var p: nat :| j <= p < j + 624 && X(seed, p) != 0;
    UntemperTemper(X(seed, p));
    assert Output(seed, p - 624) != 0;
  }

  lemma ZeroTop()
    ensures Untemper(0) == 0 && 0 as Word & 0x8000_0000 == 0
  {
  }
}
