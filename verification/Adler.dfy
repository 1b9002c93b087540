/** The Adler-32 checksum: the byte loop, its closed form, and how checksums combine. */
module Adler {
  import Bits

  type Byte = Bits.Byte

  /** The largest prime below `2^16`. */
  const MOD_ADLER: nat := 65521
  const U32_RANGE: nat := 0x1_0000_0000

  // ---------------------------------------------------------------- the modulus

  predicate Divides(d: nat, n: nat) {
    d > 0 && n % d == 0
  }

  ghost predicate IsPrime(n: nat) {
    n >= 2 && forall d: nat :: Divides(d, n) ==> d == 1 || d == n
  }

  /** A divisor and what is left cannot both be large. */
  lemma SmallerFactor(p: nat, q: nat)
    requires 257 <= p && 257 <= q
    ensures p * q >= 257 * 257
  {
    assert p * q >= 257 * q;
  }

  lemma Codivisor(d: nat, n: nat) returns (q: nat)
    requires Divides(d, n) && n > 0
    ensures d * q == n && Divides(q, n)
  {
    q := n / d;
    assert n == d * q;
    assert q > 0;
    Bits.ModUnique(n, q, d, 0);
  }

  /** The modulus is the largest prime below `2^16`. */
  lemma ModulusIsLargestPrime()
    ensures IsPrime(MOD_ADLER) && forall n :: MOD_ADLER < n < 65536 ==> !IsPrime(n)
  {
    forall d: nat | Divides(d, 65521) ensures d == 1 || d == 65521 {
      OnlyTrivialDivisors(d);
    }
    assert Divides(3, 65523) && Divides(5, 65525) && Divides(7, 65527) && Divides(3, 65529);
    assert Divides(19, 65531) && Divides(13, 65533) && Divides(3, 65535);
    forall n | 65521 < n < 65536 ensures !IsPrime(n) {
      assert n % 2 == 0 ==> Divides(2, n);
    }
  }

  lemma OnlyTrivialDivisors(d: nat)
    requires Divides(d, 65521)
    ensures d == 1 || d == 65521
  {
    var q := Codivisor(d, 65521);
    if 2 <= d <= 256 {
      SmallDoesNotDivide(d);
    } else if 2 <= q <= 256 {
      SmallDoesNotDivide(q);
    } else if d >= 257 && q >= 257 {
      SmallerFactor(d, q);
    }
  }

  lemma SmallDoesNotDivide(d: nat)
    requires 2 <= d <= 256
    ensures !Divides(d, 65521)
  {
  }

  // ---------------------------------------------------------------- closed form

  function Sum(s: seq<Byte>): nat {
    if s == [] then 0 else s[0] + Sum(s[1..])
  }

  /** Each byte weighted by the number of bytes from it to the end. */
  function WeightedSum(s: seq<Byte>): nat {
    if s == [] then 0 else |s| * s[0] + WeightedSum(s[1..])
  }

  function A(s: seq<Byte>): (a: nat)
    ensures a < MOD_ADLER
  {
    (1 + Sum(s)) % MOD_ADLER
  }

  function B(s: seq<Byte>): (b: nat)
    ensures b < MOD_ADLER
  {
    (|s| + WeightedSum(s)) % MOD_ADLER
  }

  /** The closed form of section 8.2 of RFC 1950. */
  function Checksum(s: seq<Byte>): nat {
    B(s) * 65536 + A(s)
  }

  // ---------------------------------------------------------------- arithmetic modulo m

  lemma MultipleAndRest(n: nat, x: nat, m: nat, q: nat, y: nat, q': nat, r: nat)
    requires x == m * q + y && n * y == m * q' + r
    ensures n * x == m * (n * q + q') + r
  {
  }

  lemma ModMul(n: nat, x: nat, m: nat)
    requires m > 0
    ensures (n * (x % m)) % m == (n * x) % m
  {
    var q, y := x / m, x % m;
    var q', r := (n * y) / m, (n * y) % m;
    MultipleAndRest(n, x, m, q, y, q', r);
    Bits.ModUnique(n * x, m, n * q + q', r);
  }

  // ---------------------------------------------------------------- sums of concatenations

  lemma {:induction false} SumConcat(x: seq<Byte>, y: seq<Byte>)
    ensures Sum(x + y) == Sum(x) + Sum(y)
  {
    if x == [] {
      assert x + y == y;
    } else {
      assert (x + y)[1..] == x[1..] + y;
      SumConcat(x[1..], y);
    }
  }

  lemma {:induction false} WeightedSumConcat(x: seq<Byte>, y: seq<Byte>)
    ensures WeightedSum(x + y) == WeightedSum(x) + |y| * Sum(x) + WeightedSum(y)
  {
    if x == [] {
      assert x + y == y;
      assert |y| * Sum(x) == 0;
    } else {
      assert (x + y)[1..] == x[1..] + y;
      WeightedSumConcat(x[1..], y);
      assert (|x| + |y|) * x[0] == |x| * x[0] + |y| * x[0];
      assert |y| * (x[0] + Sum(x[1..])) == |y| * x[0] + |y| * Sum(x[1..]);
    }
  }

  // ---------------------------------------------------------------- the loop

  lemma SumsOneMore(s: seq<Byte>, d: Byte)
    ensures Sum(s + [d]) == Sum(s) + d && WeightedSum(s + [d]) == WeightedSum(s) + Sum(s) + d
  {
    assert [d][1..] == [];
    SumConcat(s, [d]);
    WeightedSumConcat(s, [d]);
  }

  /** One turn of the loop, from the closed form of a prefix to that of the next. */
  lemma StepIsClosedForm(s: seq<Byte>, d: Byte)
    ensures A(s + [d]) == (A(s) + d) % MOD_ADLER
    ensures B(s + [d]) == (B(s) + A(s + [d])) % MOD_ADLER
  {
    SumsOneMore(s, d);
    hide Sum, WeightedSum;
    Bits.ModAdd(1 + Sum(s), d, MOD_ADLER);
    var a := 1 + Sum(s) + d;
    Bits.ModAdd(|s| + WeightedSum(s), A(s + [d]), MOD_ADLER);
    Bits.ModAdd(a, |s| + WeightedSum(s), MOD_ADLER);
  }

  lemma EmptyChecksum()
    ensures A([]) == 1 && B([]) == 0
  {
  }

  /** `(b << 16) | a` in a 32 bit word. */
  function Join(b: nat, a: nat): nat {
    Bits.Or(b * 65536 % U32_RANGE, a)
  }

  lemma JoinHalves(b: nat, a: nat)
    requires a < 65536 && b < 65536
    ensures Join(b, a) == b * 65536 + a < U32_RANGE
  {
    Bits.Pow2Sum(8, 8);
    assert Bits.Pow2(8) == 256;
    Bits.OrOfHalves(b, a, 16);
  }

  /** One turn of the loop in 32 bit words: no sum wraps. */
  lemma TurnIsStep(s: seq<Byte>, d: Byte)
    ensures (A(s) + d) % U32_RANGE % MOD_ADLER == A(s + [d])
    ensures (B(s) + A(s + [d])) % U32_RANGE % MOD_ADLER == B(s + [d])
  {
    StepIsClosedForm(s, d);
    hide A, B;
  }

  lemma ChecksumIs(s: seq<Byte>)
    ensures Checksum(s) == B(s) * 65536 + A(s)
    ensures Checksum(s) % 65536 == (1 + Sum(s)) % 65521 && Checksum(s) / 65536 == (|s| + WeightedSum(s)) % 65521
  {
    ChecksumHalves(s);
  }

  /** `adler32`, with every 32 bit operation reduced to 32 bits. */
  method Adler32(buffer: array<Byte>, len: nat) returns (r: nat)
    requires len <= buffer.Length
    ensures r == Checksum(buffer[..len]) < U32_RANGE
    ensures r % 65536 == (1 + Sum(buffer[..len])) % 65521
    ensures r / 65536 == (len + WeightedSum(buffer[..len])) % 65521
  {
    hide A, B, Join, Checksum, Sum, WeightedSum;
    ChecksumIs(buffer[..len]);
    var a, b := 1, 0;
    EmptyChecksum();
    for index := 0 to len
      invariant a == A(buffer[..index]) && b == B(buffer[..index])
    {
      TurnIsStep(buffer[..index], buffer[index]);
      assert buffer[..index + 1] == buffer[..index] + [buffer[index]];
      a := (a + buffer[index]) % U32_RANGE % MOD_ADLER;
      b := (b + a) % U32_RANGE % MOD_ADLER;
    }
    JoinHalves(b, a);
    r := Join(b, a);
  }

  /** The checksum of the nine letters `Wikipedia`. */
  lemma KnownChecksum()
    ensures Checksum([0x57, 0x69, 0x6B, 0x69, 0x70, 0x65, 0x64, 0x69, 0x61]) == 0x11E6_0398
  {
  }

  // ---------------------------------------------------------------- combining checksums

  /** The checksum of a concatenation, from those of its parts and the length of the second. */
  function Combine(first: nat, second: nat, len: nat): nat {
    var a1, b1 := first % 65536, first / 65536;
    var a2, b2 := second % 65536, second / 65536;
    (b1 + b2 + len * (a1 + MOD_ADLER - 1)) % MOD_ADLER * 65536 + (a1 + a2 + MOD_ADLER - 1) % MOD_ADLER
  }

  lemma ChecksumHalves(s: seq<Byte>)
    ensures Checksum(s) % 65536 == A(s) && Checksum(s) / 65536 == B(s)
  {
  }

  lemma ConcatCombines(x: seq<Byte>, y: seq<Byte>)
    ensures Checksum(x + y) == Combine(Checksum(x), Checksum(y), |y|)
  {
    ChecksumHalves(x);
    ChecksumHalves(y);
    ConcatA(x, y);
    ConcatB(x, y);
  }

  lemma ConcatA(x: seq<Byte>, y: seq<Byte>)
    ensures A(x + y) == (A(x) + A(y) + MOD_ADLER - 1) % MOD_ADLER
  {
    hide Sum;
    SumConcat(x, y);
    Bits.ModAdd(1 + Sum(x), A(y) + MOD_ADLER - 1, MOD_ADLER);
    Bits.ModAdd(1 + Sum(y), 1 + Sum(x) + MOD_ADLER - 1, MOD_ADLER);
  }

  /** The first part's weight in front of `n` more bytes, from its reduced sum. */
  lemma Shifted(sum: nat, n: nat)
    ensures (n * ((1 + sum) % MOD_ADLER + MOD_ADLER - 1)) % MOD_ADLER == (n * sum) % MOD_ADLER
  {
    var m := MOD_ADLER;
    var a := (1 + sum) % m + m - 1;
    ModMul(n, a, m);
    Bits.ModAdd(1 + sum, m - 1, m);
    assert a % m == (sum + m) % m == sum % m;
    ModMul(n, sum, m);
  }

  lemma ModSum3(x: nat, y: nat, z: nat, w: nat, m: nat)
    requires m > 0 && w % m == z % m
    ensures (x % m + y % m + w) % m == (x + y + z) % m
  {
    Bits.ModAdd(x, y % m + w, m);
    Bits.ModAdd(y, x + w, m);
    Bits.ModAdd(w, x + y, m);
    Bits.ModAdd(z, x + y, m);
  }

  lemma ConcatB(x: seq<Byte>, y: seq<Byte>)
    ensures B(x + y) == (B(x) + B(y) + |y| * (A(x) + MOD_ADLER - 1)) % MOD_ADLER
  {
    hide Sum, WeightedSum;
    SumConcat(x, y);
    WeightedSumConcat(x, y);
    Shifted(Sum(x), |y|);
    ModSum3(|x| + WeightedSum(x), |y| + WeightedSum(y), |y| * Sum(x), |y| * (A(x) + MOD_ADLER - 1), MOD_ADLER);
  }
}
