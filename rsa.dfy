/**
 * The RSA object: key types, key-pair generation from two strong primes, and textbook
 * encryption and decryption by modular exponentiation.
 *
 * Randomness: BigInteger.probablePrime(b, random) draws b-bit candidates until one
 * passes its primality test; the model draws nondeterministically and takes that test,
 * and the isStrongPrime re-test, as exact primality, so what it returns is prime.
 * Every draw costs one unit of `fuel`; running out of fuel bounds the search, and is
 * what makes the retry loops terminate.
 */
module Rsa {
  import opened Wrappers
  import opened Arith
  import opened Primes
  import opened KotlinInt

  /** The preferred public exponent, the constant E = "65537". */
  const E: int := 65537

  datatype PublicKey = PublicKey(e: int, n: int)

  datatype PrivateKey = PrivateKey(d: int, n: int)

  datatype KeyPair = KeyPair(publicKey: PublicKey, privateKey: PrivateKey)

  /** The exceptions the RSA operations throw, plus the caller's timeout. */
  datatype RsaError =
    | MessageTooLarge     // IllegalArgumentException from encrypt
    | CiphertextTooLarge  // IllegalArgumentException from decrypt
    | ModulusNotPositive  // ArithmeticException from modPow
    | NotInvertible       // ArithmeticException from modPow with a negative exponent
    | BitLengthTooSmall   // ArithmeticException from probablePrime
    | TimedOut            // the caller's withTimeout expired

  function Abs(x: int): nat {
    if x < 0 then -x else x
  }

  // ---------------------------------------------------------------------
  // Encryption and decryption
  // ---------------------------------------------------------------------

  /**
   * BigInteger.modPow: b^x mod m for a positive modulus; for a negative exponent the
   * inverse of b^|x| mod m, which exists only when that value is coprime to m.
   */
  function ModPow(b: int, x: int, m: int): (r: Result<int, RsaError>)
    ensures m <= 0 <==> r == Failure(ModulusNotPositive)
    ensures r.Success? ==> 0 <= r.value < m
    ensures m > 0 && x >= 0 ==> r.Success? && r.value % m == Pow(b, x) % m
    ensures m > 0 && x < 0 ==>
      (r.Success? <==> Gcd(Pow(b, -x) % m, m) == 1)
      && (r.Success? ==> (Pow(b, -x) * r.value) % m == 1 % m)
    ensures m > 0 && r.Failure? ==> r.error == NotInvertible
  {
    if m <= 0 then Failure(ModulusNotPositive)
    else if x >= 0 then
      ModMod(Pow(b, x), m);
      Success(Pow(b, x) % m)
    else
      var base := Pow(b, -x) % m;
      if Gcd(base, m) == 1 then
        ModMod(Pow(b, -x), m);
        MulModLeft(Pow(b, -x), ModInverse(base, m), m);
        Success(ModInverse(base, m))
      else
        Failure(NotInvertible)
  }

  /** RSA.encrypt: rejects message >= n, otherwise message^e mod n. */
  function Encrypt(message: int, publicKey: PublicKey): (r: Result<int, RsaError>)
    ensures message >= publicKey.n <==> r == Failure(MessageTooLarge)
    ensures r.Success? ==> 0 <= r.value < publicKey.n
    ensures message < publicKey.n ==> r == ModPow(message, publicKey.e, publicKey.n)
    ensures message < publicKey.n && publicKey.n > 0 && publicKey.e >= 0 ==>
      r.Success? && r.value == Pow(message, publicKey.e) % publicKey.n
  {
    if message >= publicKey.n then Failure(MessageTooLarge)
    else
      var c := ModPow(message, publicKey.e, publicKey.n);
      assert c.Success? && publicKey.e >= 0 ==> c.value == c.value % publicKey.n by {
        if c.Success? { ModSmall(c.value, publicKey.n); }
      }
      c
  }

  /** RSA.decrypt: rejects ciphertext >= n, otherwise ciphertext^d mod n. */
  function Decrypt(ciphertext: int, privateKey: PrivateKey): (r: Result<int, RsaError>)
    ensures ciphertext >= privateKey.n <==> r == Failure(CiphertextTooLarge)
    ensures r.Success? ==> 0 <= r.value < privateKey.n
    ensures ciphertext < privateKey.n ==> r == ModPow(ciphertext, privateKey.d, privateKey.n)
    ensures ciphertext < privateKey.n && privateKey.n > 0 && privateKey.d >= 0 ==>
      r.Success? && r.value == Pow(ciphertext, privateKey.d) % privateKey.n
  {
    if ciphertext >= privateKey.n then Failure(CiphertextTooLarge)
    else
      var c := ModPow(ciphertext, privateKey.d, privateKey.n);
      assert c.Success? && privateKey.d >= 0 ==> c.value == c.value % privateKey.n by {
        if c.Success? { ModSmall(c.value, privateKey.n); }
      }
      c
  }

  /** m^(e*d) == m modulo p*q when e*d == 1 modulo (p-1)(q-1). */
  lemma {:induction false} ExponentInverse(p: int, q: int, e: nat, d: nat, m: int)
    requires IsPrime(p) && IsPrime(q) && p != q
    requires (e * d) % ((p - 1) * (q - 1)) == 1
    ensures Pow(m, e * d) % (p * q) == m % (p * q)
  {
    var t := (p - 1) * (q - 1);
    var x := e * d;
    PositiveProduct(p - 1, q - 1);
    var k := x / t;
    assert x == t * k + 1;
    ExponentSplit(p, q, k, x);
    FermatPower(p, m, k * (q - 1));
    FermatPower(q, m, k * (p - 1));
    Crt(p, q, Pow(m, x), m);
  }

  lemma {:induction false} PositiveProduct(a: int, b: int)
    requires a > 0 && b > 0
    ensures a * b > 0
  {
  }

  lemma {:induction false} ExponentSplit(p: int, q: int, k: int, x: int)
    requires p >= 2 && q >= 2 && x >= 1 && x == (p - 1) * (q - 1) * k + 1
    ensures k >= 0
    ensures x == 1 + (k * (q - 1)) * (p - 1)
    ensures x == 1 + (k * (p - 1)) * (q - 1)
  {
    PositiveProduct(p - 1, q - 1);
    MulAwayFromZero((p - 1) * (q - 1), k);
  }

  /** The relations between p, q and a key pair that make decryption undo encryption. */
  ghost predicate RsaKeyPair(keyPair: KeyPair, p: int, q: int) {
    && IsPrime(p) && IsPrime(q) && p != q
    && keyPair.publicKey.n == p * q
    && keyPair.privateKey.n == p * q
    && keyPair.publicKey.e >= 0
    && keyPair.privateKey.d >= 0
    && (keyPair.publicKey.e * keyPair.privateKey.d) % ((p - 1) * (q - 1)) == 1
  }

  /**
   * Round trip: for every message below the modulus, decrypting its encryption gives back
   * the message reduced modulo n, so every message in [0, n) comes back unchanged.
   */
  lemma {:induction false} RoundTrip(keyPair: KeyPair, p: int, q: int, message: int)
    requires RsaKeyPair(keyPair, p, q)
    requires message < keyPair.publicKey.n
    ensures Encrypt(message, keyPair.publicKey).Success?
    ensures Decrypt(Encrypt(message, keyPair.publicKey).value, keyPair.privateKey)
      == Success(message % keyPair.publicKey.n)
    ensures 0 <= message ==>
      Decrypt(Encrypt(message, keyPair.publicKey).value, keyPair.privateKey) == Success(message)
  {
    var n, e, d := p * q, keyPair.publicKey.e, keyPair.privateKey.d;
    assert n > 0;
    var c := Pow(message, e) % n;
    assert Encrypt(message, keyPair.publicKey) == Success(c);
    calc {
      Pow(c, d) % n;
      { PowMod(Pow(message, e), d, n); }
      Pow(Pow(message, e), d) % n;
      { PowMul(message, e, d); }
      Pow(message, e * d) % n;
      { ExponentInverse(p, q, e, d, message); }
      message % n;
    }
    if 0 <= message {
      ModSmall(message, n);
    }
  }

  // ---------------------------------------------------------------------
  // Key-pair generation
  // ---------------------------------------------------------------------

  /**
   * BigInteger.probablePrime(bitLength, random): throws for bitLength < 2, otherwise draws
   * bitLength-bit candidates until one is prime; every draw spends one unit of fuel.
   */
  method ProbablePrime(bitLength: int, fuel: nat) returns (r: Result<int, RsaError>, left: nat)
    ensures left <= fuel
    ensures bitLength < 2 ==> r == Failure(BitLengthTooSmall) && left == fuel
    ensures bitLength >= 2 && fuel == 0 ==> r == Failure(TimedOut)
    ensures bitLength >= 2 && r.Failure? ==> r.error == TimedOut
    ensures r.Success? ==> left < fuel && IsPrime(r.value)
    ensures r.Success? ==> Pow(2, bitLength - 1) <= r.value < Pow(2, bitLength)
    ensures r.Success? ==> BitLength(r.value) == bitLength
  {
    if bitLength < 2 {
      return Failure(BitLengthTooSmall), fuel;
    }
    PowPositive(2, bitLength - 1);
    left := fuel;
    while true
      invariant left <= fuel
      decreases left
    {
      if left == 0 {
        return Failure(TimedOut), left;
      }
      var candidate :| Pow(2, bitLength - 1) <= candidate < Pow(2, bitLength);
      left := left - 1;
      if IsPrime(candidate) {
        BitLengthExact(candidate, bitLength);
        return Success(candidate), left;
      }
    }
  }

  /** isStrongPrime: the isProbablePrime(100) re-test, modelled as exact primality. */
  function IsStrongPrime(prime: int): (r: bool)
    ensures r <==> IsPrime(prime)
  {
    IsPrime(prime)
  }

  /** generateStrongPrime: draw until a candidate passes isStrongPrime. */
  method GenerateStrongPrime(bitLength: int, fuel: nat) returns (r: Result<int, RsaError>, left: nat)
    ensures left <= fuel
    ensures r.Success? ==> IsPrime(r.value) && BitLength(r.value) == bitLength && left < fuel
    ensures bitLength < 2 <==> r == Failure(BitLengthTooSmall)
    ensures r.Failure? ==> r.error == BitLengthTooSmall || r.error == TimedOut
  {
    r, left := ProbablePrime(bitLength, fuel);
    while r.Success? && !IsStrongPrime(r.value)
      invariant left < fuel || r.Failure?
      invariant left <= fuel
      invariant r.Success? ==> BitLength(r.value) == bitLength
      invariant bitLength < 2 <==> r == Failure(BitLengthTooSmall)
      invariant r.Failure? ==> r.error == BitLengthTooSmall || r.error == TimedOut
      decreases left + (if r.Success? then 1 else 0)
    {
      r, left := ProbablePrime(bitLength, left);
    }
  }

  /**
   * What a pair returned by generateKeyPair(bitLength) satisfies, for the primes p and q
   * it was built from.
   */
  ghost predicate GeneratedFrom(keyPair: KeyPair, bitLength: int, p: int, q: int) {
    var e, d := keyPair.publicKey.e, keyPair.privateKey.d;
    var totient := (p - 1) * (q - 1);
    && bitLength >= 4
    && IsPrime(p) && IsPrime(q)
    && BitLength(p) == bitLength / 2 && BitLength(q) == bitLength / 2
    && p != q
    && BitLength(Abs(p - q)) >= bitLength / 4
    && keyPair.publicKey.n == p * q
    && keyPair.privateKey.n == p * q
    && totient > 0 && e > 0
    && Gcd(totient, e) == 1
    && (Gcd(totient, E) == 1 ==> e == E)
    && (e == E || (IsPrime(e) && BitLength(e) == 16))
    && 0 <= d < totient
    && (e * d) % totient == 1
  }

  /** Every pair generateKeyPair returns decrypts what it encrypts. */
  lemma {:induction false} GeneratedKeyPairDecrypts(keyPair: KeyPair, bitLength: int, p: int, q: int)
    requires GeneratedFrom(keyPair, bitLength, p, q)
    ensures forall m :: m < keyPair.publicKey.n ==>
      Decrypt(Encrypt(m, keyPair.publicKey).value, keyPair.privateKey) == Success(m % keyPair.publicKey.n)
  {
    assert RsaKeyPair(keyPair, p, q);
    forall m | m < keyPair.publicKey.n
      ensures Decrypt(Encrypt(m, keyPair.publicKey).value, keyPair.privateKey)
        == Success(m % keyPair.publicKey.n)
    {
      RoundTrip(keyPair, p, q, m);
    }
  }

  /** A generated modulus has 2*(bitLength/2) - 1 or 2*(bitLength/2) bits. */
  lemma {:induction false} GeneratedModulusBounds(keyPair: KeyPair, bitLength: int, p: int, q: int)
    requires GeneratedFrom(keyPair, bitLength, p, q)
    ensures Pow(2, 2 * (bitLength / 2) - 2) <= keyPair.publicKey.n < Pow(2, 2 * (bitLength / 2))
  {
    ProductBounds(p, q, bitLength / 2);
  }

  /** Two h-bit positive numbers multiply to 2h - 1 or 2h bits. */
  lemma {:induction false} ProductBounds(p: int, q: int, h: nat)
    requires p > 0 && q > 0 && h >= 1 && BitLength(p) == h && BitLength(q) == h
    ensures Pow(2, 2 * h - 2) <= p * q < Pow(2, 2 * h)
  {
    BitLengthBounds(p);
    BitLengthBounds(q);
    PowPositive(2, h - 1);
    PowAdd(2, h - 1, h - 1);
    PowAdd(2, h, h);
    assert 2 * h - 2 == (h - 1) + (h - 1);
    MulBounds(Pow(2, h - 1), p, Pow(2, h), q);
  }

  lemma {:induction false} MulBounds(a: int, x: int, b: int, y: int)
    requires 0 < a <= x < b && a <= y < b
    ensures a * a <= x * y < b * b
  {
    MulMonotone(a, x, a);
    MulMonotone(a, y, x);
    MulMonotone(y, b, b);
    assert x * y < b * y by {
      assert b * y - x * y == (b - x) * y;
      MulAwayFromZero(y, b - x);
    }
  }


  lemma {:induction false} TotientAtLeastTwo(p: int, q: int)
    requires p >= 2 && q >= 2 && p != q
    ensures (p - 1) * (q - 1) >= 2
  {
    if p < q {
      MulAwayFromZero(p - 1, q - 2);
    } else {
      MulAwayFromZero(q - 1, p - 2);
    }
  }

  /** gcd(t, e) == 1 is what modInverse needs of e modulo t. */
  lemma {:induction false} CoprimeForInverse(t: nat, e: nat)
    requires t > 0 && Gcd(t, e) == 1
    ensures Gcd(e % t, t) == 1
  {
    var x, y := Bezout(t, e);
    var s, r := e / t, e % t;
    assert e == t * s + r;
    BezoutShift(t, e, s, r, x, y);
    BezoutOneGcd(r, t, y, x + s * y);
  }

  lemma {:induction false} BezoutShift(t: int, e: int, s: int, r: int, x: int, y: int)
    requires t * x + e * y == 1 && e == t * s + r
    ensures r * y + t * (x + s * y) == 1
  {
    assert e * y == t * (s * y) + r * y;
  }

  /**
   * The do-while of generateKeyPair: q drawn again until it differs from p and
   * |p - q| has at least bitLength / 4 bits.
   */
  method GenerateSecondPrime(p: int, half: int, quarter: int, fuel: nat)
      returns (r: Result<int, RsaError>, left: nat)
    requires half >= 2
    ensures left <= fuel
    ensures r.Success? ==> IsPrime(r.value) && BitLength(r.value) == half
    ensures r.Success? ==> r.value != p && BitLength(Abs(p - r.value)) >= quarter
    ensures r.Failure? ==> r.error == TimedOut
  {
    r, left := GenerateStrongPrime(half, fuel);
    while r.Success? && (p == r.value || BitLength(Abs(p - r.value)) < quarter)
      invariant left <= fuel
      invariant r.Success? ==> IsPrime(r.value) && BitLength(r.value) == half
      invariant r.Failure? ==> r.error == TimedOut
      decreases left + (if r.Success? then 1 else 0)
    {
      r, left := GenerateStrongPrime(half, left);
    }
  }

  /**
   * The exponent loop of generateKeyPair: e starts at 65537 and is replaced by a
   * 16-bit probablePrime draw while gcd(totient, e) != 1.
   */
  method ChooseExponent(totient: int, fuel: nat) returns (r: Result<int, RsaError>, left: nat)
    requires totient > 0
    ensures left <= fuel
    ensures r.Success? ==> r.value > 0 && Gcd(totient, r.value) == 1
    ensures r.Success? ==> r.value == E || (IsPrime(r.value) && BitLength(r.value) == 16)
    ensures Gcd(totient, E) == 1 ==> r == Success(E)
    ensures r.Failure? ==> r.error == TimedOut
  {
    left := fuel;
    var e: nat := E;
    while Gcd(totient, e) != 1
      invariant left <= fuel
      invariant e > 0 && (e == E || (IsPrime(e) && BitLength(e) == 16))
      invariant Gcd(totient, E) == 1 ==> e == E
      decreases left
    {
      var er;
      er, left := ProbablePrime(16, left);
      if er.Failure? {
        return Failure(er.error), left;
      }
      e := er.value;
    }
    return Success(e), left;
  }

  /**
   * generateKeyPair: p, then q retried until it differs from p by at least bitLength/4 bits,
   * then e = 65537 replaced by 16-bit draws until coprime to the totient, d = e^-1 mod totient.
   * Every generated pair decrypts what it encrypts.
   */
  method GenerateKeyPair(bitLength: int, fuel: nat)
      returns (r: Result<KeyPair, RsaError>, ghost p: int, ghost q: int)
    ensures TruncDiv(bitLength, 2) < 2 <==> r == Failure(BitLengthTooSmall)
    ensures r.Failure? ==> r.error == BitLengthTooSmall || r.error == TimedOut
    ensures r.Success? ==> GeneratedFrom(r.value, bitLength, p, q)
    ensures r.Success? ==> forall m :: m < r.value.publicKey.n ==>
      Decrypt(Encrypt(m, r.value.publicKey).value, r.value.privateKey) == Success(m % r.value.publicKey.n)
  {
    var half := TruncDiv(bitLength, 2);
    var left: nat;
    var pr;
    pr, left := GenerateStrongPrime(half, fuel);
    if pr.Failure? {
      return Failure(pr.error), 0, 0;
    }
    var pv := pr.value;
    var qr;
    qr, left := GenerateSecondPrime(pv, half, TruncDiv(bitLength, 4), left);
    if qr.Failure? {
      return Failure(qr.error), 0, 0;
    }
    var qv := qr.value;
    var n := pv * qv;
    var totient := (pv - 1) * (qv - 1);
    TotientAtLeastTwo(pv, qv);
    var er;
    er, left := ChooseExponent(totient, left);
    if er.Failure? {
      return Failure(er.error), 0, 0;
    }
    var e := er.value;
    CoprimeForInverse(totient, e);
    var d := ModInverse(e, totient);
    ModSmall(1, totient);
    var keyPair := KeyPair(PublicKey(e, n), PrivateKey(d, n));
    p, q := pv, qv;
    assert GeneratedFrom(keyPair, bitLength, p, q);
    GeneratedKeyPairDecrypts(keyPair, bitLength, p, q);
    return Success(keyPair), p, q;
  }
}
