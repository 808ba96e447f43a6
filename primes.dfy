/**
 * The number theory under RSA: primality, the gcd that BigInteger.gcd computes,
 * the modular inverse that BigInteger.modInverse computes, Fermat's little theorem
 * and the two-prime case of the Chinese remainder theorem. Everything is proved here;
 * nothing is assumed.
 */
module Primes {
  import opened Arith

  /** d is a non-zero divisor of n. */
  predicate Divides(d: int, n: int) {
    d != 0 && n % d == 0
  }

  predicate IsPrime(n: int) {
    n >= 2 && forall d :: 1 < d < n ==> !Divides(d, n)
  }

  // ---------------------------------------------------------------------
  // gcd and Bezout coefficients
  // ---------------------------------------------------------------------

  /** Euclid's algorithm on non-negative integers; Gcd(a, 0) == a. */
  function Gcd(a: nat, b: nat): nat
    decreases b
  {
    if b == 0 then a else Gcd(b, a % b)
  }

  /** Bezout coefficients (x, y) with a*x + b*y == Gcd(a, b). */
  function ExtGcd(a: nat, b: nat): (r: (int, int))
    ensures a * r.0 + b * r.1 == Gcd(a, b)
    decreases b
  {
    if b == 0 then (1, 0)
    else
      var (x, y) := ExtGcd(b, a % b);
      assert a % b == a - (a / b) * b;
      assert a * y + b * (x - (a / b) * y) == b * x + (a - (a / b) * b) * y;
      (y, x - (a / b) * y)
  }

  /** Bezout's identity: some combination of a and b equals their gcd. */
  lemma {:induction false} Bezout(a: nat, b: nat) returns (x: int, y: int)
    ensures a * x + b * y == Gcd(a, b)
  {
    var xy := ExtGcd(a, b);
    x, y := xy.0, xy.1;
  }

  /** The gcd divides both arguments and is positive unless both are 0. */
  lemma {:induction false} GcdDivides(a: nat, b: nat)
    ensures a > 0 || b > 0 ==> Gcd(a, b) > 0
    ensures Gcd(a, b) > 0 ==> a % Gcd(a, b) == 0 && b % Gcd(a, b) == 0
    decreases b
  {
    if b > 0 {
      GcdDivides(b, a % b);
      var g := Gcd(a, b);
      assert g == Gcd(b, a % b);
      if g > 0 {
        assert a == b * (a / b) + (a % b) * 1;
        DivisorOfCombination(g, b, a % b, a / b, 1);
      }
    }
  }

  /** A common divisor of x and y divides every combination x*s + y*t. */
  lemma {:induction false} DivisorOfCombination(g: int, x: int, y: int, s: int, t: int)
    requires g > 0 && x % g == 0 && y % g == 0
    ensures (x * s + y * t) % g == 0
  {
    var kx, ky := x / g, y / g;
    assert x == g * kx;
    assert y == g * ky;
    assert x * s == g * (kx * s);
    assert y * t == g * (ky * t);
    ModOfMultiple(g, kx * s + ky * t);
  }

  /** A Bezout identity equal to 1 forces the gcd to be 1. */
  lemma {:induction false} BezoutOneGcd(a: nat, b: nat, x: int, y: int)
    requires a * x + b * y == 1
    ensures Gcd(a, b) == 1
  {
    GcdDivides(a, b);
    assert a > 0 || b > 0;
    var g := Gcd(a, b);
    DivisorOfCombination(g, a, b, x, y);
    if g > 1 {
      ModSmall(1, g);
    }
  }

  /**
   * The inverse of a modulo m as BigInteger.modInverse returns it: the unique value in
   * [0, m) whose product with a is 1 modulo m. Java throws when gcd(a mod m, m) != 1.
   */
  function ModInverse(a: int, m: int): (r: int)
    requires m > 0 && Gcd(a % m, m) == 1
    ensures 0 <= r < m && (a * r) % m == 1 % m
  {
    var xy := ExtGcd(a % m, m);
    var r := xy.0 % m;
    assert (a * r) % m == 1 % m by {
      assert (a % m) * xy.0 + m * xy.1 == 1;
      ModAddMul((a % m) * xy.0, m, xy.1);
      MulModLeft(a, xy.0, m);
      MulMod(a, xy.0, m);
      MulMod(a, r, m);
      ModMod(xy.0, m);
    }
    r
  }

  // ---------------------------------------------------------------------
  // Euclid's lemma
  // ---------------------------------------------------------------------

  /** A prime that does not divide a is coprime to it. */
  lemma {:induction false} PrimeCoprime(p: int, a: int)
    requires IsPrime(p) && a % p != 0
    ensures Gcd(a % p, p) == 1
  {
    GcdDivides(a % p, p);
    var g := Gcd(a % p, p);
    if g > p {
      ModSmall(p, g);
    }
    if 1 < g < p {
      assert Divides(g, p);
    }
    if g == p {
      ModSmall(a % p, p);
    }
  }

  /** If a prime divides a product and not the first factor, it divides the second. */
  lemma {:induction false} Euclid(p: int, a: int, b: int)
    requires IsPrime(p) && (a * b) % p == 0 && a % p != 0
    ensures b % p == 0
  {
    PrimeCoprime(p, a);
    var xy := ExtGcd(a % p, p);
    var x, y := xy.0, xy.1;
    assert (a % p) * x + p * y == 1;
    assert b == ((a % p) * b) * x + p * (b * y) by {
      assert b == b * ((a % p) * x + p * y);
    }
    assert ((a % p) * b) % p == 0 by {
      MulModLeft(a, b, p);
    }
    var k := ((a % p) * b) / p;
    assert (a % p) * b == p * k;
    assert b == p * (k * x + b * y);
    ModOfMultiple(p, k * x + b * y);
  }

  // ---------------------------------------------------------------------
  // Binomial theorem
  // ---------------------------------------------------------------------

  /** Pascal's triangle. */
  function Binom(n: nat, k: nat): nat {
    if k == 0 then 1
    else if n == 0 then 0
    else Binom(n - 1, k - 1) + Binom(n - 1, k)
  }

  lemma {:induction false} BinomAbove(n: nat, k: nat)
    requires k > n
    ensures Binom(n, k) == 0
  {
    if n > 0 {
      BinomAbove(n - 1, k - 1);
      BinomAbove(n - 1, k);
    }
  }

  lemma {:induction false} BinomOne(n: nat)
    ensures Binom(n, 1) == n
  {
    if n > 0 {
      BinomOne(n - 1);
    }
  }

  /** (k+1) * C(n+1, k+1) == (n+1) * C(n, k). */
  lemma {:induction false} BinomAbsorb(n: nat, k: nat)
    ensures (k + 1) * Binom(n + 1, k + 1) == (n + 1) * Binom(n, k)
  {
    if n == 0 {
      if k > 0 {
        BinomAbove(1, k + 1);
        BinomAbove(0, k);
      }
    } else if k == 0 {
      BinomOne(n + 1);
    } else {
      BinomAbsorb(n - 1, k - 1);
      BinomAbsorb(n - 1, k);
      var a, b := Binom(n, k), Binom(n, k + 1);
      var c, d := Binom(n - 1, k - 1), Binom(n - 1, k);
      assert Binom(n + 1, k + 1) == a + b;
      assert a == c + d;
      assert k * a == n * c;
      assert (k + 1) * b == n * d;
      AbsorbArith(n, k, a, b, c, d);
    }
  }

  lemma {:induction false} AbsorbArith(n: int, k: int, a: int, b: int, c: int, d: int)
    requires a == c + d && k * a == n * c && (k + 1) * b == n * d
    ensures (k + 1) * (a + b) == (n + 1) * a
  {
    assert (k + 1) * (a + b) == k * a + a + (k + 1) * b;
    assert n * c + n * d == n * (c + d);
  }

  /** A prime p divides C(p, k) for 0 < k < p. */
  lemma {:induction false} BinomPrime(p: int, k: nat)
    requires IsPrime(p) && 0 < k < p
    ensures Binom(p, k) % p == 0
  {
    BinomAbsorb(p - 1, k - 1);
    assert k * Binom(p, k) == p * Binom(p - 1, k - 1);
    ModOfMultiple(p, Binom(p - 1, k - 1));
    ModSmall(k, p);
    Euclid(p, k, Binom(p, k));
  }

  /** The sum over i < j of C(n, i) * a^i. */
  function BinomSum(n: nat, a: int, j: nat): int {
    if j == 0 then 0 else BinomSum(n, a, j - 1) + Binom(n, j - 1) * Pow(a, j - 1)
  }

  lemma {:induction false} BinomSumStep(n: nat, a: int, j: nat)
    ensures BinomSum(n + 1, a, j + 1) == a * BinomSum(n, a, j) + BinomSum(n, a, j + 1)
  {
    if j > 0 {
      BinomSumStep(n, a, j - 1);
      SumStepArith(a, BinomSum(n, a, j - 1), BinomSum(n, a, j), BinomSum(n, a, j + 1),
        Binom(n, j - 1), Binom(n, j), Pow(a, j - 1), Pow(a, j), BinomSum(n + 1, a, j + 1));
    }
  }

  lemma {:induction false} SumStepArith(a: int, x: int, y: int, z: int, c1: int, c2: int, p: int, pj: int, l: int)
    requires l == a * x + y + (c1 + c2) * pj && pj == a * p
    requires y == x + c1 * p && z == y + c2 * pj
    ensures l == a * y + z
  {
    assert (c1 + c2) * pj == c1 * (a * p) + c2 * pj;
    assert a * y == a * x + a * (c1 * p);
    assert c1 * (a * p) == a * (c1 * p);
  }

  /** (a + 1)^n == sum over k <= n of C(n, k) * a^k. */
  lemma {:induction false} BinomialTheorem(a: int, n: nat)
    ensures Pow(a + 1, n) == BinomSum(n, a, n + 1)
  {
    if n > 0 {
      BinomialTheorem(a, n - 1);
      BinomSumStep(n - 1, a, n);
      BinomAbove(n - 1, n);
      assert BinomSum(n - 1, a, n + 1) == BinomSum(n - 1, a, n);
    }
  }

  /** For a prime p, the terms strictly between the ends of the expansion vanish mod p. */
  lemma {:induction false} BinomSumPrime(p: int, a: int, j: nat)
    requires IsPrime(p) && 1 <= j <= p
    ensures (BinomSum(p, a, j) - 1) % p == 0
  {
    if j == 1 {
      ModOfMultiple(p, 0);
    } else {
      BinomSumPrime(p, a, j - 1);
      BinomPrime(p, j - 1);
      SumStepDivisible(p, BinomSum(p, a, j - 1), Binom(p, j - 1), Pow(a, j - 1));
    }
  }

  // ---------------------------------------------------------------------
  // Fermat's little theorem
  // ---------------------------------------------------------------------

  lemma {:induction false} SumStepDivisible(p: int, s: int, c: int, w: int)
    requires p > 0 && (s - 1) % p == 0 && c % p == 0
    ensures (s + c * w - 1) % p == 0
  {
    DivisorOfCombination(p, s - 1, c, 1, w);
    assert (s - 1) * 1 + c * w == s + c * w - 1;
  }

  /** (a + 1)^p == a^p + 1 modulo a prime p. */
  lemma {:induction false} FreshmansDream(p: int, a: int)
    requires IsPrime(p)
    ensures (Pow(a + 1, p) - Pow(a, p) - 1) % p == 0
  {
    BinomialTheorem(a, p);
    BinomSumPrime(p, a, p);
    assert Binom(p, p) == 1 by {
      BinomAbsorb(p - 1, p - 1);
      BinomAbove(p - 1, p);
      BinomDiag(p);
    }
    assert Pow(a + 1, p) - Pow(a, p) - 1 == BinomSum(p, a, p) - 1;
  }

  lemma {:induction false} BinomDiag(n: nat)
    ensures Binom(n, n) == 1
  {
    if n > 0 {
      BinomDiag(n - 1);
      BinomAbove(n - 1, n);
    }
  }

  /** a^p == a modulo p, for every non-negative a. */
  lemma {:induction false} FermatNat(p: int, a: nat)
    requires IsPrime(p)
    ensures Pow(a, p) % p == a % p
  {
    if a == 0 {
      PowZero(p);
    } else {
      FermatNat(p, a - 1);
      FreshmansDream(p, a - 1);
      SubMod(Pow(a - 1, p), a - 1, p);
      FermatStep(p, a, Pow(a, p), Pow(a - 1, p));
    }
  }

  lemma {:induction false} FermatStep(p: int, a: int, x: int, y: int)
    requires p > 0 && (x - y - 1) % p == 0 && (y - (a - 1)) % p == 0
    ensures x % p == a % p
  {
    assert x - a == (x - y - 1) * 1 + (y - (a - 1)) * 1;
    DivisorOfCombination(p, x - y - 1, y - (a - 1), 1, 1);
    SubMod(x, a, p);
  }

  /** Fermat's little theorem: a^p == a modulo a prime p, for every integer a. */
  lemma {:induction false} Fermat(p: int, a: int)
    requires IsPrime(p)
    ensures Pow(a, p) % p == a % p
  {
    PowMod(a, p, p);
    FermatNat(p, a % p);
    ModMod(a, p);
  }

  /** For a not divisible by the prime p, a^(p-1) == 1 modulo p. */
  lemma {:induction false} FermatUnit(p: int, a: int)
    requires IsPrime(p) && a % p != 0
    ensures Pow(a, p - 1) % p == 1
  {
    var y := Pow(a, p - 1);
    assert Pow(a, p) == a * y;
    Fermat(p, a);
    CancelFactor(p, a, y);
    ModSmall(1, p);
  }

  lemma {:induction false} CancelFactor(p: int, a: int, y: int)
    requires IsPrime(p) && a % p != 0 && (a * y) % p == a % p
    ensures y % p == 1 % p
  {
    SubMod(a * y, a, p);
    assert a * y - a == a * (y - 1);
    Euclid(p, a, y - 1);
    SubMod(y, 1, p);
  }

  /** a^(1 + k(p-1)) == a modulo a prime p: the exponent identity behind RSA. */
  lemma {:induction false} FermatPower(p: int, a: int, k: nat)
    requires IsPrime(p)
    ensures Pow(a, 1 + k * (p - 1)) % p == a % p
  {
    var u := Pow(a, p - 1);
    var y := Pow(u, k);
    assert Pow(a, 1 + k * (p - 1)) == a * y by {
      PowAdd(a, 1, (p - 1) * k);
      PowMul(a, p - 1, k);
      assert k * (p - 1) == (p - 1) * k;
    }
    MulMod(a, y, p);
    if a % p == 0 {
      assert (a % p) * (y % p) == 0;
    } else {
      FermatUnit(p, a);
      PowMod(u, k, p);
      PowOne(k);
      ModSmall(1, p);
      assert y % p == 1;
      MulMod(a, 1, p);
    }
  }

  // ---------------------------------------------------------------------
  // Chinese remainder theorem for two distinct primes
  // ---------------------------------------------------------------------

  lemma {:induction false} DistinctPrimesCoprime(p: int, q: int)
    requires IsPrime(p) && IsPrime(q) && p != q
    ensures p % q != 0
  {
    if p < q {
      ModSmall(p, q);
    } else {
      assert !Divides(q, p);
    }
  }

  /** Congruent modulo two distinct primes means congruent modulo their product. */
  lemma {:induction false} Crt(p: int, q: int, x: int, y: int)
    requires IsPrime(p) && IsPrime(q) && p != q
    requires x % p == y % p && x % q == y % q
    ensures x % (p * q) == y % (p * q)
  {
    SubMod(x, y, p);
    SubMod(x, y, q);
    var t := (x - y) / p;
    assert x - y == p * t;
    DistinctPrimesCoprime(p, q);
    Euclid(q, p, t);
    var u := t / q;
    assert x - y == (p * q) * u;
    ModOfMultiple(p * q, u);
    SubMod(x, y, p * q);
  }
}
