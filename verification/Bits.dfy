/** The rounding macros of the utility header, over machine words. */
module Bits {
  type Byte = x: int | 0 <= x < 256

  function Pow2(k: nat): (p: nat)
    ensures p >= 1
  {
    if k == 0 then 1 else 2 * Pow2(k - 1)
  }

  /** Bitwise and, least significant bit first. */
  function And(x: nat, y: nat): nat
    decreases x
  {
    if x == 0 then 0 else (x % 2) * (y % 2) + 2 * And(x / 2, y / 2)
  }

  /** `~x` in a word of `w` bits. */
  function Not(x: nat, w: nat): nat
    requires x < Pow2(w)
  {
    Pow2(w) - 1 - x
  }

  lemma {:induction false} Pow2Sum(j: nat, k: nat)
    ensures Pow2(j + k) == Pow2(j) * Pow2(k)
  {
    if k > 0 {
      Pow2Sum(j, k - 1);
    }
  }

  lemma {:induction false} Pow2Monotone(j: nat, k: nat)
    requires j <= k
    ensures Pow2(j) <= Pow2(k)
  {
    if j < k {
      Pow2Monotone(j, k - 1);
    }
  }

  lemma {:induction false} AndAllOnes(x: nat, w: nat)
    requires x < Pow2(w)
    ensures And(x, Pow2(w) - 1) == x
  {
    if w > 0 && x > 0 {
      assert (Pow2(w) - 1) % 2 == 1 && (Pow2(w) - 1) / 2 == Pow2(w - 1) - 1;
      AndAllOnes(x / 2, w - 1);
    }
  }

  /** Masking off the low `k` bits of a word rounds it down to a multiple of `2^k`. */
  lemma {:induction false} MaskRoundsDown(x: nat, k: nat, w: nat)
    requires k <= w && x < Pow2(w)
    ensures Pow2(k) <= Pow2(w)
    ensures And(x, Not(Pow2(k) - 1, w)) == x / Pow2(k) * Pow2(k)
  {
    Pow2Monotone(k, w);
    if k == 0 {
      AndAllOnes(x, w);
    } else {
      var low := Not(Pow2(k - 1) - 1, w - 1);
      MaskRoundsDown(x / 2, k - 1, w - 1);
      AndEven(x, low);
      assert Not(Pow2(k) - 1, w) == 2 * low;
      HalveQuotient(x, Pow2(k - 1));
    }
  }

  lemma AndEven(x: nat, m: nat)
    ensures And(x, 2 * m) == 2 * And(x / 2, m)
  {
    assert (2 * m) % 2 == 0 && (2 * m) / 2 == m;
  }

  lemma HalveQuotient(x: nat, p: nat)
    requires p > 0
    ensures x / (2 * p) == x / 2 / p
    ensures 2 * (x / 2 / p * p) == x / (2 * p) * (2 * p)
  {
    var q, r := x / 2 / p, x / 2 % p;
    assert x / 2 == q * p + r;
    assert x == (2 * p) * q + (2 * r + x % 2);
    DivUnique(x, 2 * p, q, 2 * r + x % 2);
  }

  lemma DivUnique(x: nat, d: nat, q: nat, r: nat)
    requires d > 0 && r < d && x == d * q + r
    ensures x / d == q
  {
    var q', r' := x / d, x % d;
    assert x == d * q' + r';
    if q' > q {
      MulStep(d, q, q');
    } else if q' < q {
      MulStep(d, q', q);
    }
  }

  lemma MulStep(d: nat, q: nat, q': nat)
    requires q < q'
    ensures d * q + d <= d * q'
  {
    assert d * (q' - q) == d * q' - d * q;
    assert d * (q' - q) == d + d * (q' - q - 1);
  }

  lemma ModUnique(x: nat, m: nat, q: nat, r: nat)
    requires m > 0 && r < m && x == m * q + r
    ensures x % m == r
  {
    DivUnique(x, m, q, r);
    assert x == m * (x / m) + x % m;
  }

  lemma Distributes(m: int, x: int, y: int)
    ensures m * (x + y) == m * x + m * y
  {
  }

  lemma ModAdd(x: nat, y: nat, m: nat)
    requires m > 0
    ensures (x % m + y) % m == (x + y) % m
  {
    var q, q' := x / m, (x % m + y) / m;
    assert x == m * q + x % m;
    assert x % m + y == m * q' + (x % m + y) % m;
    assert x + y == m * (q + q') + (x % m + y) % m;
    ModUnique(x + y, m, q + q', (x % m + y) % m);
  }

  /** Bitwise or, least significant bit first. */
  function Or(x: nat, y: nat): nat
    decreases x + y
  {
    if x == 0 && y == 0 then 0 else (if x % 2 == 1 || y % 2 == 1 then 1 else 0) + 2 * Or(x / 2, y / 2)
  }

  /** Or-ing a low half into a shifted high half adds them. */
  lemma {:induction false} OrOfHalves(x: nat, y: nat, k: nat)
    requires y < Pow2(k)
    ensures Or(x * Pow2(k), y) == x * Pow2(k) + y
  {
    if k == 0 {
      OrZero(x);
    } else {
      var p := x * Pow2(k - 1);
      Twice(x, Pow2(k - 1));
      OrOfHalves(x, y / 2, k - 1);
      hide Or;
      OrEven(p, y);
    }
  }

  lemma Twice(x: nat, y: nat)
    ensures x * (2 * y) == 2 * (x * y)
  {
  }

  lemma OrEven(p: nat, y: nat)
    ensures Or(2 * p, y) == y % 2 + 2 * Or(p, y / 2)
  {
  }

  lemma {:induction false} OrZero(x: nat)
    ensures Or(x, 0) == x
  {
    if x > 0 {
      OrZero(x / 2);
    }
  }

  /** `ALIGN`, in a type wide enough that the sum does not wrap. */
  function Align(n: nat, s: nat): nat
    requires s > 0
  {
    (n + (s - 1)) / s * s
  }

  /** `POW2_ALIGN`: the mask form, in a word of `w` bits, where the sum may wrap. */
  function Pow2Align(n: nat, s: nat, w: nat): nat
    requires 1 <= s <= Pow2(w)
  {
    And((n + (s - 1)) % Pow2(w), Not(s - 1, w))
  }

  /** The least multiple of `s` that is not below `n`. */
  lemma AlignIsLeastMultiple(n: nat, s: nat, m: nat)
    requires s > 0
    ensures n <= Align(n, s) < n + s && Align(n, s) % s == 0
    ensures m >= n && m % s == 0 ==> m >= Align(n, s)
  {
    var x := n + (s - 1);
    assert x == s * (x / s) + x % s;
    assert Align(n, s) == s * (x / s);
    MulMod(s, x / s);
    if m >= n && m % s == 0 {
      var q := m / s;
      assert m == s * q;
      if q < x / s {
        MulStep(s, q, x / s);
      } else if q > x / s {
        MulStep(s, x / s, q);
      }
    }
  }

  lemma MulMod(s: nat, q: nat)
    requires s > 0
    ensures (s * q) % s == 0
  {
    var x := s * q;
    DivUnique(x, s, q, 0);
    assert x == s * (x / s) + x % s;
  }

  /** For a power of two the mask form and the division form are the same rounding. */
  lemma {:induction false} Pow2AlignIsAlign(n: nat, k: nat, w: nat)
    requires k <= w && n + (Pow2(k) - 1) < Pow2(w)
    ensures Pow2(k) <= Pow2(w)
    ensures Pow2Align(n, Pow2(k), w) == Align(n, Pow2(k))
  {
    Pow2Monotone(k, w);
    var x, s := n + (Pow2(k) - 1), Pow2(k);
    MaskRoundsDown(x, k, w);
    SmallMod(x, Pow2(w));
    assert Align(n, s) == x / s * s;
  }

  lemma SmallMod(x: nat, m: nat)
    requires x < m
    ensures x % m == x
  {
  }
}
