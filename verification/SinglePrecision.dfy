/** Rounding of natural numbers to single precision, as far as a capacity is computed with it. */
module SinglePrecision {
  import Bits

  /** Numbers below this are represented exactly: a significand has 24 bits. */
  const EXACT: nat := 0x100_0000

  /** The gap between neighbouring single precision numbers at `n`. */
  function Gap(n: nat): (u: nat)
    ensures u >= 1
  {
    if n < EXACT then 1 else 2 * Gap(n / 2)
  }

  /** The nearest single precision number, the one with even significand if two are as near. */
  function Round(n: nat): nat {
    var u := Gap(n);
    var q, r := n / u, n % u;
    if 2 * r < u || (2 * r == u && q % 2 == 0) then q * u else (q + 1) * u
  }

  lemma {:induction false} GapIsSmall(n: nat)
    requires n >= EXACT
    ensures Gap(n) * (EXACT / 2) <= n
  {
    if n / 2 >= EXACT {
      GapIsSmall(n / 2);
    } else {
      assert Gap(n / 2) == 1;
    }
  }

  /** The gap is the power of two that leaves a significand of 24 bits. */
  lemma {:induction false} GapIs(n: nat)
    ensures n < 0x100_0000 ==> Gap(n) == 1
    ensures n >= 0x100_0000 ==> 0x80_0000 * Gap(n) <= n < 0x100_0000 * Gap(n)
    ensures exists k: nat :: Gap(n) == Bits.Pow2(k)
  {
    if n < EXACT {
      assert Gap(n) == Bits.Pow2(0);
    } else {
      GapIs(n / 2);
      var k: nat :| Gap(n / 2) == Bits.Pow2(k);
      assert Gap(n) == Bits.Pow2(k + 1);
    }
  }

  /** Rounding gives a multiple of the gap that no other multiple is nearer than, the even one of two. */
  lemma RoundIsNearest(n: nat, q: nat)
    ensures var u, x := Gap(n), Round(n);
      && x % u == 0 && 2 * x <= 2 * n + u && 2 * n <= 2 * x + u
      && (q * u <= n ==> n - q * u >= if x <= n then n - x else x - n)
      && (q * u > n ==> q * u - n >= if x <= n then n - x else x - n)
      && (2 * x == 2 * n + u || 2 * n == 2 * x + u ==> x / u % 2 == 0)
  {
    hide Round, Gap;
    var u := Gap(n);
    Divided(n, u);
    RoundGoes(n, q, u, n / u, n % u);
  }

  lemma RoundGoes(n: nat, q: nat, u: nat, p: nat, t: nat)
    requires u == Gap(n) && p == n / u && t == n % u && n == p * u + t && t < u
    ensures var x := Round(n);
      && x % u == 0 && 2 * x <= 2 * n + u && 2 * n <= 2 * x + u
      && (q * u <= n ==> n - q * u >= if x <= n then n - x else x - n)
      && (q * u > n ==> q * u - n >= if x <= n then n - x else x - n)
      && (2 * x == 2 * n + u || 2 * n == 2 * x + u ==> x / u % 2 == 0)
  {
    var m := if 2 * t < u || (2 * t == u && p % 2 == 0) then p else p + 1;
    assert Round(n) == m * u;
    hide *;
    NextMultiple(p, u);
    MultipleDivides(m, u);
    BelowOrAbove(q, p, u);
    Chosen(t, u, p, m);
    Nearest(n, u, p * u, t, q * u, m * u, m == p);
  }

  lemma Chosen(t: nat, u: nat, p: nat, m: nat)
    requires t < u && m == if 2 * t < u || (2 * t == u && p % 2 == 0) then p else p + 1
    ensures if m == p then 2 * t <= u else 2 * t >= u
    ensures 2 * t == u ==> m % 2 == 0
  {
  }

  lemma BelowOrAbove(q: nat, p: nat, u: nat)
    ensures q * u <= p * u || q * u >= p * u + u
  {
    NextMultiple(p, u);
    if q <= p {
      Multiples(q, p, u);
    } else {
      Multiples(p + 1, q, u);
    }
  }

  /** Of a multiple below and one above, the one taken is as near as any. */
  lemma Nearest(n: nat, u: nat, below: nat, t: nat, other: nat, x: nat, down: bool)
    requires n == below + t && t < u && x == (if down then below else below + u)
    requires if down then 2 * t <= u else 2 * t >= u
    requires other <= below || other >= below + u
    ensures 2 * x <= 2 * n + u && 2 * n <= 2 * x + u
    ensures other <= n ==> n - other >= if x <= n then n - x else x - n
    ensures other > n ==> other - n >= if x <= n then n - x else x - n
    ensures 2 * x == 2 * n + u || 2 * n == 2 * x + u ==> 2 * t == u
  {
  }

  lemma Divided(n: nat, u: nat)
    requires u >= 1
    ensures n == n / u * u + n % u && n % u < u
  {
  }

  lemma MultipleDivides(m: nat, u: nat)
    requires u >= 1
    ensures m * u % u == 0 && m * u / u == m
  {
    Bits.DivUnique(m * u, u, m, 0);
    Bits.ModUnique(m * u, u, m, 0);
  }

  lemma Multiples(p: nat, q: nat, u: nat)
    requires p <= q
    ensures p * u <= q * u
  {
  }

  lemma NextMultiple(q: nat, u: nat)
    ensures (q + 1) * u == q * u + u
  {
  }

  /** Rounding is off by at most one part in `2^24`, and by nothing below that. */
  lemma RoundIsNear(n: nat)
    ensures n < EXACT ==> Round(n) == n
    ensures (EXACT - 1) * n <= EXACT * Round(n) <= (EXACT + 1) * n
  {
    if n >= EXACT {
      var u := Gap(n);
      var q, r := n / u, n % u;
      GapIsSmall(n);
      NextMultiple(q, u);
      assert n == q * u + r;
      assert 2 * Round(n) >= 2 * n - u && 2 * Round(n) <= 2 * n + u;
    }
  }

  /** `(U32) ((F32) n * 1.25f)`: the product is rounded as a multiple of a quarter, and cut off. */
  function FiveQuarters(n: nat): nat {
    Round(5 * Round(n)) / 4
  }

  /** The product is exact while it needs no more than 24 bits, and otherwise hardly off. */
  lemma FiveQuartersIs(n: nat)
    ensures 5 * n < EXACT ==> FiveQuarters(n) == 5 * n / 4
    ensures n <= FiveQuarters(n)
    ensures n < 0x8000_0000 ==> FiveQuarters(n) < 0xA000_0200
    ensures 0x100_0000 * 0x100_0000 * 4 * (FiveQuarters(n) + 1) > 5 * 0xFF_FFFF * 0xFF_FFFF * n
    ensures 0x100_0000 * 0x100_0000 * 4 * FiveQuarters(n) <= 5 * 0x100_0001 * 0x100_0001 * n
  {
    RoundIsNear(n);
    RoundIsNear(5 * Round(n));
    TwoRoundings(n, Round(n), Round(5 * Round(n)));
    hide Round;
  }

  lemma TwoRoundings(n: nat, x: nat, y: nat)
    requires 0xFF_FFFF * n <= 0x100_0000 * x <= 0x100_0001 * n
    requires 0xFF_FFFF * (5 * x) <= 0x100_0000 * y <= 0x100_0001 * (5 * x)
    ensures n <= y / 4 && (n < 0x8000_0000 ==> y / 4 < 0xA000_0200)
    ensures 0x100_0000 * 0x100_0000 * 4 * (y / 4 + 1) > 5 * 0xFF_FFFF * 0xFF_FFFF * n
    ensures 0x100_0000 * 0x100_0000 * 4 * (y / 4) <= 5 * 0x100_0001 * 0x100_0001 * n
  {
  }
}
