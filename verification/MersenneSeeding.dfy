/**
 * What the seeding of the generator keeps of its key: the two mixing loops can be undone word by word, so
 * different keys of the same length, up to 621 words, start different generators.
 */
module MersenneSeeding {
  import opened Arithmetic
  import opened MersenneTwister

  // ---- One word can be undone ----

  lemma KeyWordUndone(prev: Word, current: Word, j: nat, a: Word, b: Word)
    requires KeyWord(prev, current, j, a) == KeyWord(prev, current, j, b)
    ensures a == b
  {
    hide KeySum;
    SumCancels(KeySum(prev, current, j), a, b);
  }

  lemma SumCancels(x: Word, a: Word, b: Word)
    requires x + a == x + b
    ensures a == b
  {
  }

  lemma FinalWordUndone(prev: Word, a: Word, b: Word, i: nat)
    requires FinalWord(prev, a, i) == FinalWord(prev, b, i)
    ensures a == b
  {
    hide FinalMix, Less, Masked;
    LessCancels(Masked(a, FinalMix(prev)), Masked(b, FinalMix(prev)), i);
    MaskCancels(a, b, FinalMix(prev));
  }

  lemma LessCancels(a: Word, b: Word, i: nat)
    requires Less(a, i) == Less(b, i)
    ensures a == b
  {
    hide FromInt;
    DifferenceCancels(a, b, FromInt(i));
  }

  lemma DifferenceCancels(a: Word, b: Word, y: Word)
    requires a - y == b - y
    ensures a == b
  {
  }

  lemma MaskCancels(a: Word, b: Word, mask: Word)
    requires Masked(a, mask) == Masked(b, mask)
    ensures a == b
  {
  }

  // ---- Where the loops stand ----

  lemma KeyStarts(m: Mixing, key: seq<Word>)
    requires MixingOk(m) && m.i == 1 && key != []
    ensures KeyRounds(m, key, 0) == m
  {
  }

  /** In its first 622 rounds the key loop writes words 1 to 622 in turn and leaves the others alone. */
  lemma {:induction false} KeyPlace(m: Mixing, key: seq<Word>, t: nat)
    requires MixingOk(m) && m.i == 1 && key != [] && t <= 622
    ensures var r := KeyRounds(m, key, t);
      r.i == t + 1 && forall p :: t < p < 624 ==> r.mt[p] == m.mt[p]
  {
    hide KeyRounds, KeyWord;
    if t == 0 {
      KeyStarts(m, key);
    } else {
      KeyPlace(m, key, t - 1);
      KeyRoundsStep(m, key, t - 1);
    }
  }

  /** A word from the second on, once written, stays to the end of the loop. */
  lemma {:induction false} KeyWordStays(m: Mixing, key: seq<Word>, p: nat, t: nat)
    requires MixingOk(m) && m.i == 1 && key != [] && 2 <= p < 624 && p <= t <= 624
    ensures KeyRounds(m, key, t).mt[p]
      == KeyWord(KeyRounds(m, key, p - 1).mt[p - 1], m.mt[p], (p - 1) % |key|, key[(p - 1) % |key|])
    ensures t == 623 ==> KeyRounds(m, key, t).i == 1
    ensures t == 624 ==> KeyRounds(m, key, t).i == 2
    decreases t
  {
    hide KeyRounds, KeyWord;
    KeyRoundsStep(m, key, t - 1);
    KeyPlace(m, key, p - 1);
    if t - 1 <= 622 { KeyPlace(m, key, t - 1); }
    if p < t { KeyWordStays(m, key, p, t - 1); }
  }

  // ---- The final loop, which starts at word 2 ----

  lemma FinalStarts(m: Mixing)
    requires MixingOk(m)
    ensures FinalRounds(m, 0) == m
  {
  }

  lemma FinalRoundsStep(m: Mixing, count: nat)
    requires MixingOk(m)
    ensures FinalRounds(m, count + 1) == FinalStep(FinalRounds(m, count))
  {
  }

  /** It writes words 2 to 623, copies the last to the front, and then writes word 1. */
  lemma {:induction false} FinalPlace(m: Mixing, t: nat)
    requires MixingOk(m) && m.i == 2 && t <= 622
    ensures var r := FinalRounds(m, t);
      && r.mt[1] == m.mt[1] && (forall p :: t + 2 <= p < 624 ==> r.mt[p] == m.mt[p])
      && r.i == (if t == 622 then 1 else t + 2) && (t == 622 ==> r.mt[0] == r.mt[623])
  {
    hide FinalRounds, FinalWord;
    if t == 0 {
      FinalStarts(m);
    } else {
      FinalPlace(m, t - 1);
      FinalRoundsStep(m, t - 1);
    }
  }

  lemma {:induction false} FinalWordStays(m: Mixing, p: nat, t: nat)
    requires MixingOk(m) && m.i == 2 && 2 <= p < 624 && p - 1 <= t <= 623
    ensures FinalRounds(m, t).mt[p] == FinalWord(FinalRounds(m, p - 2).mt[p - 1], m.mt[p], p)
    decreases t
  {
    hide FinalRounds, FinalWord;
    FinalRoundsStep(m, t - 1);
    FinalPlace(m, p - 2);
    FinalPlace(m, t - 1);
    if p - 1 < t { FinalWordStays(m, p, t - 1); }
  }

  lemma FinalFirstWord(m: Mixing)
    requires MixingOk(m) && m.i == 2
    ensures FinalRounds(m, 623).mt[1] == FinalWord(FinalRounds(m, 622).mt[623], m.mt[1], 1)
    ensures FinalRounds(m, 623).mt[623] == FinalRounds(m, 622).mt[623]
  {
    hide FinalRounds, FinalWord;
    FinalPlace(m, 622);
    FinalRoundsStep(m, 622);
  }

  /** From the second on, the word before a word is already the final one when that is written. */
  lemma FinalBefore(m: Mixing, p: nat)
    requires MixingOk(m) && m.i == 2 && 2 <= p < 624
    ensures FinalRounds(m, p - 2).mt[p - 1] == if p == 2 then m.mt[1] else FinalRounds(m, 623).mt[p - 1]
  {
    hide FinalRounds, FinalWord;
    if p == 2 {
      FinalPlace(m, 0);
    } else {
      FinalWordStays(m, p - 1, p - 2);
      FinalWordStays(m, p - 1, 623);
    }
  }

  /** The final loop loses nothing of words 1 to 623. */
  lemma FinalUndone(a: Mixing, b: Mixing)
    requires MixingOk(a) && a.i == 2 && MixingOk(b) && b.i == 2
    requires forall p :: 1 <= p < 624 ==> FinalRounds(a, 623).mt[p] == FinalRounds(b, 623).mt[p]
    ensures forall p :: 1 <= p < 624 ==> a.mt[p] == b.mt[p]
  {
    hide FinalRounds, FinalWord;
    FinalFirstWord(a);
    FinalFirstWord(b);
    FinalWordUndone(FinalRounds(a, 622).mt[623], a.mt[1], b.mt[1], 1);
    forall p | 2 <= p < 624 ensures a.mt[p] == b.mt[p] {
      FinalWordStays(a, p, 623);
      FinalWordStays(b, p, 623);
      FinalBefore(a, p);
      FinalBefore(b, p);
      FinalWordUndone(FinalRounds(a, p - 2).mt[p - 1], a.mt[p], b.mt[p], p);
    }
  }

  // ---- The key loop ----

  /** The word before word `p` is already the keyed one when that is written, from the third on. */
  lemma KeyBefore(m: Mixing, key: seq<Word>, p: nat)
    requires MixingOk(m) && m.i == 1 && key != [] && 3 <= p < 624
    ensures KeyRounds(m, key, p - 1).mt[p - 1] == KeyRounds(m, key, 624).mt[p - 1]
  {
    hide KeyRounds, KeyWord;
    KeyWordStays(m, key, p - 1, p - 1);
    KeyWordStays(m, key, p - 1, 624);
  }

  lemma KeyUndone(m: Mixing, a: seq<Word>, b: seq<Word>, k: nat)
    requires MixingOk(m) && m.i == 1 && |a| == |b| <= 621 && k < |a|
    requires forall p :: 1 <= p < 624 ==> KeyRounds(m, a, 624).mt[p] == KeyRounds(m, b, 624).mt[p]
    ensures a[k] == b[k]
  {
    hide KeyRounds, KeyWord;
    var p := RoundFor(k, |a|);
    KeyWordStays(m, a, p, 624);
    KeyWordStays(m, b, p, 624);
    KeyBefore(m, a, p);
    KeyBefore(m, b, p);
    KeyWordUndone(KeyRounds(m, a, p - 1).mt[p - 1], m.mt[p], k, a[k], b[k]);
  }

  /** A word from 3 to 623 into which key word `k` goes. */
  lemma RoundFor(k: nat, n: nat) returns (p: nat)
    requires k < n <= 621
    ensures 3 <= p < 624 && (p - 1) % n == k
  {
    if k >= 2 {
      p := k + 1;
      DivModUnique(k, n, 0, k);
    } else if k + n >= 2 {
      p := k + n + 1;
      DivModUnique(k + n, n, 1, k);
    } else {
      p := 3;
      DivModUnique(2, n, 2, 0);
    }
  }

  /** Different keys of the same length, up to 621 words, lead to different states. */
  lemma SeedingKeepsKey(a: seq<Word>, b: seq<Word>)
    requires a != [] && |a| == |b| <= 621 && SeedState(a) == SeedState(b)
    ensures a == b
  {
    hide KeyRounds, FinalRounds, Base;
    var m := Mixing(Base(19650218, 623), 1);
    KeyWordStays(m, a, 2, 624);
    KeyWordStays(m, b, 2, 624);
    var ka, kb := KeyRounds(m, a, 624), KeyRounds(m, b, 624);
    forall p | 1 <= p < 624 ensures FinalRounds(ka, 623).mt[p] == FinalRounds(kb, 623).mt[p] {
      assert SeedState(a)[p] == SeedState(b)[p];
    }
    FinalUndone(ka, kb);
    forall k | 0 <= k < |a| ensures a[k] == b[k] {
      KeyUndone(m, a, b, k);
    }
  }
}
