/** Integer facts that the RSA model relies on: powers, Euclidean remainders, bit lengths. */
module Arith {

  /** b raised to the k-th power. */
  function Pow(b: int, k: nat): int
    decreases k
  {
    if k == 0 then 1 else b * Pow(b, k - 1)
  }

  lemma {:induction false} PowPositive(b: int, k: nat)
    requires b > 0
    ensures Pow(b, k) > 0
  {
    if k > 0 {
      PowPositive(b, k - 1);
    }
  }

  lemma {:induction false} PowAdd(b: int, i: nat, j: nat)
    ensures Pow(b, i + j) == Pow(b, i) * Pow(b, j)
  {
    if i > 0 {
      PowAdd(b, i - 1, j);
      assert Pow(b, i + j) == b * Pow(b, i - 1 + j);
    }
  }

  lemma {:induction false} PowMul(b: int, i: nat, j: nat)
    ensures Pow(b, i * j) == Pow(Pow(b, i), j)
  {
    if j > 0 {
      PowMul(b, i, j - 1);
      assert i * j == i + i * (j - 1);
      PowAdd(b, i, i * (j - 1));
    }
  }

  lemma {:induction false} PowOne(k: nat)
    ensures Pow(1, k) == 1
  {
    if k > 0 {
      PowOne(k - 1);
    }
  }

  lemma {:induction false} PowZero(k: nat)
    requires k > 0
    ensures Pow(0, k) == 0
  {
  }

  lemma {:induction false} PowMonotone(b: int, i: nat, j: nat)
    requires b >= 1 && i <= j
    ensures Pow(b, i) <= Pow(b, j)
  {
    if i < j {
      PowMonotone(b, i, j - 1);
      PowPositive(b, j - 1);
      assert Pow(b, j) == b * Pow(b, j - 1) >= Pow(b, j - 1);
    }
  }

  /** 2^(8k) and 256^k are the same number. */
  lemma {:induction false} Pow256(k: nat)
    ensures Pow(2, 8 * k) == Pow(256, k)
  {
    if k > 0 {
      Pow256(k - 1);
      PowAdd(2, 8, 8 * (k - 1));
      assert 8 * k == 8 + 8 * (k - 1);
      assert Pow(2, 8) == 256;
    }
  }

  // ---------------------------------------------------------------------
  // Euclidean remainders (Dafny's % is Euclidean, as is BigInteger.mod)
  // ---------------------------------------------------------------------

  /** A quotient and a remainder in range determine a / m and a % m. */
  lemma {:induction false} ModUnique(a: int, m: int, q: int, r: int)
    requires m > 0 && a == m * q + r && 0 <= r < m
    ensures a % m == r && a / m == q
  {
    var q', r' := a / m, a % m;
    assert m * q' + r' == m * q + r;
    assert m * (q' - q) == r - r';
    MulAwayFromZero(m, q' - q);
  }

  lemma {:induction false} MulAwayFromZero(m: int, t: int)
    requires m > 0
    ensures t > 0 ==> m * t >= m
    ensures t < 0 ==> m * t <= -m
    decreases if t >= 0 then t else -t
  {
    if t > 1 {
      MulAwayFromZero(m, t - 1);
      assert m * t == m * (t - 1) + m;
    } else if t < -1 {
      MulAwayFromZero(m, t + 1);
      assert m * t == m * (t + 1) - m;
    }
  }

  /** Multiplying by a non-negative factor keeps the order. */
  lemma {:induction false} MulMonotone(a: int, b: int, c: int)
    requires a <= b && c >= 0
    ensures a * c <= b * c
  {
    if c > 0 && b > a {
      assert b * c - a * c == c * (b - a);
      MulAwayFromZero(c, b - a);
    }
  }

  lemma {:induction false} ModAddMul(a: int, m: int, k: int)
    requires m > 0
    ensures (a + m * k) % m == a % m
  {
    ModUnique(a + m * k, m, a / m + k, a % m);
  }

  lemma {:induction false} MulMod(x: int, y: int, m: int)
    requires m > 0
    ensures (x * y) % m == ((x % m) * (y % m)) % m
  {
    MulModParts(x, y, m, x / m, x % m, y / m, y % m);
  }

  /** The product modulo m depends only on the factors' remainders. */
  lemma {:induction false} MulModParts(x: int, y: int, m: int, qx: int, rx: int, qy: int, ry: int)
    requires m > 0 && x == m * qx + rx && y == m * qy + ry
    ensures (x * y) % m == (rx * ry) % m
  {
    var k := qx * m * qy + qx * ry + rx * qy;
    var xy := x * y;
    assert xy == rx * ry + m * k by {
      MulSubst(x, y, m * qx + rx, m * qy + ry);
      ExpandProduct(m, qx, rx, qy, ry);
    }
    ModAddMul(rx * ry, m, k);
  }

  lemma {:induction false} MulSubst(x: int, y: int, a: int, b: int)
    requires x == a && y == b
    ensures x * y == a * b
  {
  }

  lemma {:induction false} ExpandProduct(m: int, qx: int, rx: int, qy: int, ry: int)
    ensures (m * qx + rx) * (m * qy + ry) == rx * ry + m * (qx * m * qy + qx * ry + rx * qy)
  {
  }

  lemma {:induction false} MulModLeft(x: int, y: int, m: int)
    requires m > 0
    ensures (x * y) % m == ((x % m) * y) % m
  {
    MulMod(x, y, m);
    MulMod(x % m, y, m);
    ModMod(x, m);
  }

  /** m divides x - y exactly when x and y leave the same remainder. */
  lemma {:induction false} SubMod(x: int, y: int, m: int)
    requires m > 0
    ensures (x - y) % m == 0 <==> x % m == y % m
  {
    var qx, qy := x / m, y / m;
    assert x - y == (x % m) - (y % m) + m * (qx - qy);
    ModAddMul((x % m) - (y % m), m, qx - qy);
    var d := (x % m) - (y % m);
    if d < 0 {
      ModUnique(d, m, -1, d + m);
    } else {
      ModUnique(d, m, 0, d);
    }
  }

  lemma {:induction false} ModOfMultiple(m: int, k: int)
    requires m > 0
    ensures (m * k) % m == 0
  {
    ModAddMul(0, m, k);
  }

  lemma {:induction false} ModSmall(a: int, m: int)
    requires 0 <= a < m
    ensures a % m == a
  {
    ModUnique(a, m, 0, a);
  }

  lemma {:induction false} ModMod(a: int, m: int)
    requires m > 0
    ensures (a % m) % m == a % m
  {
    ModSmall(a % m, m);
  }

  /** The power of a remainder leaves the same remainder as the power. */
  lemma {:induction false} PowMod(b: int, k: nat, m: int)
    requires m > 0
    ensures Pow(b, k) % m == Pow(b % m, k) % m
  {
    if k > 0 {
      PowMod(b, k - 1, m);
      calc {
        Pow(b, k) % m;
        (b * Pow(b, k - 1)) % m;
        { MulMod(b, Pow(b, k - 1), m); }
        ((b % m) * (Pow(b, k - 1) % m)) % m;
        ((b % m) * (Pow(b % m, k - 1) % m)) % m;
        { MulMod(b % m, Pow(b % m, k - 1), m); ModMod(b, m); }
        ((b % m) * Pow(b % m, k - 1)) % m;
        Pow(b % m, k) % m;
      }
    }
  }

  // ---------------------------------------------------------------------
  // Bit length, as java.math.BigInteger.bitLength defines it
  // ---------------------------------------------------------------------

  /** Bits in the minimal two's-complement form of x, sign bit excluded. */
  function BitLength(x: int): nat
    decreases if x >= 0 then x else -x
  {
    if x < 0 then BitLength(-x - 1)
    else if x == 0 then 0
    else 1 + BitLength(x / 2)
  }

  /** For x >= 0 the bit length is the least b with x < 2^b. */
  lemma {:induction false} BitLengthBounds(x: int)
    requires x >= 0
    ensures x < Pow(2, BitLength(x))
    ensures x > 0 ==> Pow(2, BitLength(x) - 1) <= x
  {
    if x > 0 {
      BitLengthBounds(x / 2);
    }
  }

  /** The bit length is exactly b iff x lies in [2^(b-1), 2^b). */
  lemma {:induction false} BitLengthExact(x: int, b: nat)
    requires x >= 0 && b >= 1
    ensures BitLength(x) == b <==> Pow(2, b - 1) <= x < Pow(2, b)
  {
    BitLengthBounds(x);
    var l := BitLength(x);
    if Pow(2, b - 1) <= x < Pow(2, b) {
      if l < b {
        PowMonotone(2, l, b - 1);
      } else if l > b {
        PowMonotone(2, b, l - 1);
      }
    }
  }
}
