/** Integer widths, powers, bit operations on naturals, and the few division facts the codecs rest on. */
module Arithmetic {
  const U32_END := 0x1_0000_0000
  const U64_END := 0x1_0000_0000_0000_0000

  type Byte = b: int | 0 <= b < 256
  type U32 = x: int | 0 <= x < 0x1_0000_0000
  type U64 = x: int | 0 <= x < 0x1_0000_0000_0000_0000

  type Bytes = seq<Byte>

  function Pow(base: nat, e: nat): nat {
    if e == 0 then 1 else base * Pow(base, e - 1)
  }

  lemma {:induction false} PowPositive(base: nat, e: nat)
    requires base > 0
    ensures Pow(base, e) > 0
  {
    if e > 0 {
      PowPositive(base, e - 1);
    }
  }

  lemma {:induction false} PowAdd(base: nat, a: nat, b: nat)
    ensures Pow(base, a + b) == Pow(base, a) * Pow(base, b)
  {
    if a > 0 {
      PowAdd(base, a - 1, b);
      assert Pow(base, a + b) == base * (Pow(base, a - 1) * Pow(base, b));
      assert (base * Pow(base, a - 1)) * Pow(base, b) == base * (Pow(base, a - 1) * Pow(base, b));
    }
  }

  /** The quotient and remainder of a number written in division form. */
  lemma DivModUnique(x: int, d: int, q: int, r: int)
    requires d > 0 && 0 <= r < d && x == q * d + r
    ensures x / d == q && x % d == r
  {
    DivLess(x, d, q + 1);
    assert (q + 1) * d == q * d + d;
    assert x / d >= q by {
      assert x == d * (x / d) + x % d;
      MulLess(q, x / d + 1, d);
    }
  }

  lemma MulLess(a: int, b: int, c: int)
    requires c > 0 && a * c < b * c
    ensures a < b
  {
    if a >= b {
      MulMono(b, a, c);
    }
  }

  /** `x / d < q` whenever `x < q * d`. */
  lemma DivLess(x: int, d: int, q: int)
    requires d > 0 && x < q * d
    ensures x / d < q
  {
    assert x == d * (x / d) + x % d;
    MulLess(x / d, q, d);
  }

  lemma MulMono(a: int, b: int, c: int)
    requires a <= b && c >= 0
    ensures a * c <= b * c
  {
    assert (b - a) * c >= 0;
  }

  /** Division of a positive number by a radix. */
  lemma DivFacts(v: nat, r: nat)
    requires r >= 2
    ensures v == (v / r) * r + v % r && 0 <= v % r < r && v / r >= 0
    ensures v > 0 ==> v / r < v && (v / r == 0 ==> v % r > 0)
  {
    assert v == r * (v / r) + v % r;
    if v / r < 0 {
      MulMono(v / r, -1, r);
    } else if v > 0 && v / r > 0 {
      MulMono(2, r, v / r);
    }
  }

  /** `x | y` on non-negative integers, bit by bit. */
  function Or(x: nat, y: nat): nat
    decreases x + y
  {
    if x == 0 then y
    else if y == 0 then x
    else 2 * Or(x / 2, y / 2) + (if x % 2 == 1 || y % 2 == 1 then 1 else 0)
  }

  /** `x << n` on non-negative integers. */
  function Shl(x: nat, n: nat): nat { x * Pow(2, n) }

  /** Or-ing in a number shifted past the bits in use is addition. */
  lemma {:induction false} OrDisjoint(x: nat, y: nat, n: nat)
    requires x < Pow(2, n)
    ensures Or(x, Shl(y, n)) == x + Shl(y, n)
    decreases n
  {
    if x > 0 && Shl(y, n) > 0 {
      assert n > 0;
      assert Shl(y, n) == 2 * Shl(y, n - 1) by {
        assert y * (2 * Pow(2, n - 1)) == 2 * (y * Pow(2, n - 1));
      }
      OrDisjoint(x / 2, y, n - 1);
    }
  }
}
