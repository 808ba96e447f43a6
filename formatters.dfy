/**
 * The Formatters object: plaintext bytes <-> BigInteger (Java's two's-complement
 * big-endian byte arrays), the "e:n" / "d:n" decimal text form of keys, and the
 * key size shown to the user.
 */
module Formatters {
  import opened Wrappers
  import opened Arith
  import opened Rsa

  /** A Java byte, read as its unsigned value 0..255 (the two's-complement bit pattern). */
  newtype byte = b: int | 0 <= b < 256

  /** Java's NumberFormatException, with the message BigInteger gives it. */
  datatype FormatError = NumberFormat(message: string)

  // ---------------------------------------------------------------------------
  // Bytes <-> BigInteger
  // ---------------------------------------------------------------------------

  /** The bytes read as an unsigned big-endian number. */
  function Unsigned(bs: seq<byte>): (r: nat)
    ensures r < Pow(256, |bs|)
  {
    if |bs| == 0 then 0
    else
      var init := bs[..|bs| - 1];
      assert Unsigned(init) <= Pow(256, |init|) - 1;
      Unsigned(init) * 256 + bs[|bs| - 1] as nat
  }

  /** The len low-order bytes of v, big-endian. */
  function BytesOf(v: nat, len: nat): (r: seq<byte>)
    ensures |r| == len
  {
    if len == 0 then [] else BytesOf(v / 256, len - 1) + [(v % 256) as byte]
  }

  /**
   * toBigInteger: BigInteger(byte[]) reads its argument as a two's-complement
   * big-endian number and throws NumberFormatException on an empty array.
   */
  function FromByteArray(bs: seq<byte>): (r: Result<int, FormatError>)
    ensures |bs| == 0 <==> r.Failure?
    ensures r.Success? ==> (r.value < 0 <==> bs[0] >= 0x80)
    ensures r.Success? ==>
      -128 * Pow(256, |bs| - 1) <= r.value < 128 * Pow(256, |bs| - 1)
    ensures r.Success? ==> Pow(256, |bs|) > 0 && (r.value - Unsigned(bs)) % Pow(256, |bs|) == 0
  {
    if |bs| == 0 then Failure(NumberFormat("Zero length BigInteger"))
    else
      var u := Unsigned(bs);
      UnsignedSign(bs);
      PowPositive(256, |bs|);
      ModOfMultiple(Pow(256, |bs|), -1);
      ModOfMultiple(Pow(256, |bs|), 0);
      Success(if bs[0] >= 0x80 then u - Pow(256, |bs|) else u)
  }

  /** A leading 0x00 before a byte below 0x80 does not change the value read. */
  lemma {:induction false} SignExtendPositive(bs: seq<byte>)
    requires |bs| > 0 && bs[0] < 0x80
    ensures FromByteArray([0x00] + bs) == FromByteArray(bs)
  {
    var xs := [0x00] + bs;
    assert xs[1..] == bs;
    UnsignedFirst(xs);
  }

  /** A leading 0xFF before a byte of 0x80 or more does not change the value read. */
  lemma {:induction false} SignExtendNegative(bs: seq<byte>)
    requires |bs| > 0 && bs[0] >= 0x80
    ensures FromByteArray([0xFF] + bs) == FromByteArray(bs)
  {
    var xs := [0xFF] + bs;
    assert xs[1..] == bs;
    UnsignedFirst(xs);
    UnsignedSign(xs);
  }

  /**
   * toStringValue's byte step: BigInteger.toByteArray() gives the shortest
   * two's-complement form, bitLength/8 + 1 bytes long.
   */
  function ToByteArray(x: int): (r: seq<byte>)
    ensures |r| == BitLength(x) / 8 + 1
  {
    var len := BitLength(x) / 8 + 1;
    PowPositive(256, len);
    BytesOf(x % Pow(256, len), len)
  }

  lemma {:induction false} UnsignedFirst(bs: seq<byte>)
    requires |bs| > 0
    ensures Unsigned(bs) == bs[0] as nat * Pow(256, |bs| - 1) + Unsigned(bs[1..])
    decreases |bs|
  {
    if |bs| > 1 {
      var init := bs[..|bs| - 1];
      UnsignedFirst(init);
      assert init[1..] == bs[1..][..|bs| - 2];
      assert init[0] == bs[0];
      ShiftByte(bs[0] as nat, Pow(256, |bs| - 2), Unsigned(init[1..]), bs[|bs| - 1] as nat);
    }
  }

  lemma {:induction false} ShiftByte(a: nat, p: nat, u: nat, b: nat)
    ensures (a * p + u) * 256 + b == a * (256 * p) + (u * 256 + b)
  {
  }

  /** The first byte carries the sign: it is at least 0x80 exactly when the value is. */
  lemma {:induction false} UnsignedSign(bs: seq<byte>)
    requires |bs| > 0
    ensures Pow(256, |bs|) == 256 * Pow(256, |bs| - 1)
    ensures bs[0] >= 0x80 <==> Unsigned(bs) >= 128 * Pow(256, |bs| - 1)
    ensures bs[0] >= 0x01 <==> Unsigned(bs) >= Pow(256, |bs| - 1)
  {
    UnsignedFirst(bs);
    PowPositive(256, |bs| - 1);
    LeadingDigit(bs[0] as nat, Pow(256, |bs| - 1), Unsigned(bs[1..]));
  }

  lemma {:induction false} LeadingDigit(a: nat, p: nat, u: nat)
    requires a < 256 && p > 0 && u < p
    ensures a >= 128 <==> a * p + u >= 128 * p
    ensures a >= 1 <==> a * p + u >= p
  {
    if a >= 128 {
      MulMonotone(128, a, p);
    } else {
      MulMonotone(a, 127, p);
    }
    if a == 0 {
      assert a * p == 0;
    } else {
      MulMonotone(1, a, p);
    }
  }

  /** BytesOf keeps the value modulo 256^len. */
  lemma {:induction false} UnsignedBytesOf(v: nat, len: nat)
    ensures Pow(256, len) > 0 && Unsigned(BytesOf(v, len)) == v % Pow(256, len)
  {
    PowPositive(256, len);
    if len == 0 {
      ModUnique(v, 1, v, 0);
    } else {
      var bs := BytesOf(v, len);
      assert bs[..len - 1] == BytesOf(v / 256, len - 1);
      UnsignedBytesOf(v / 256, len - 1);
      assert bs[len - 1] as int == v % 256;
      DropLowByte(v, Pow(256, len - 1));
    }
  }

  lemma {:induction false} DropLowByte(v: nat, m: int)
    requires m > 0
    ensures v % (256 * m) == ((v / 256) % m) * 256 + v % 256
  {
    var q, r := (v / 256) / m, (v / 256) % m;
    assert v / 256 == m * q + r;
    assert v == (256 * m) * q + (r * 256 + v % 256);
    ModUnique(v, 256 * m, q, r * 256 + v % 256);
  }

  /** A byte sequence is the len-byte form of its own unsigned value. */
  lemma {:induction false} BytesOfUnsigned(bs: seq<byte>)
    ensures BytesOf(Unsigned(bs), |bs|) == bs
    decreases |bs|
  {
    if |bs| > 0 {
      var init := bs[..|bs| - 1];
      var u := Unsigned(bs);
      ModUnique(u, 256, Unsigned(init), bs[|bs| - 1] as nat);
      BytesOfUnsigned(init);
      assert bs == init + [bs[|bs| - 1]];
    }
  }

  /** x fits in len = bitLength(x)/8 + 1 bytes of two's complement. */
  lemma {:induction false} ByteArrayRange(x: int)
    ensures -128 * Pow(256, BitLength(x) / 8) <= x < 128 * Pow(256, BitLength(x) / 8)
  {
    var k := BitLength(x) / 8;
    var y := if x >= 0 then x else -x - 1;
    assert BitLength(y) == BitLength(x);
    BitLengthBounds(y);
    TopBits(BitLength(y), k);
    assert y < 128 * Pow(256, k);
  }

  /** b bits with b / 8 == k fit below 2^7 * 256^k. */
  lemma {:induction false} TopBits(b: nat, k: nat)
    requires b / 8 == k
    ensures Pow(2, b) <= 128 * Pow(256, k)
  {
    PowMonotone(2, b, 8 * k + 7);
    PowAdd(2, 7, 8 * k);
    Pow256(k);
    assert Pow(2, 7) == 128;
  }

  /** toBigInteger after toByteArray gives back the number, for every integer. */
  lemma {:induction false} FromToByteArray(x: int)
    ensures FromByteArray(ToByteArray(x)) == Success(x)
  {
    var len := BitLength(x) / 8 + 1;
    var m := Pow(256, len - 1);
    PowPositive(256, len - 1);
    ByteArrayRange(x);
    var bs := ToByteArray(x);
    UnsignedSign(bs);
    var v := x % Pow(256, len);
    UnsignedBytesOf(v, len);
    ModMod(x, Pow(256, len));
    if x >= 0 {
      ModSmall(x, 256 * m);
      assert Unsigned(bs) == x;
    } else {
      ModUnique(x, 256 * m, -1, x + 256 * m);
      assert Unsigned(bs) == x + 256 * m;
    }
  }

  /**
   * toByteArray after toBigInteger gives back the bytes when the first byte is
   * 0x01..0x7F: the sign bit is clear and no leading zero byte is dropped.
   */
  lemma {:induction false} ToFromByteArray(bs: seq<byte>)
    requires |bs| > 0 && 0x01 <= bs[0] <= 0x7F
    ensures FromByteArray(bs).Success?
    ensures ToByteArray(FromByteArray(bs).value) == bs
  {
    var len := |bs|;
    var x := Unsigned(bs);
    var m := Pow(256, len - 1);
    UnsignedSign(bs);
    assert FromByteArray(bs).value == x;
    Pow256(len - 1);
    PowAdd(2, 7, 8 * (len - 1));
    assert Pow(2, 7) == 128;
    BitLengthBounds(x);
    var b := BitLength(x);
    if b >= 8 * len {
      PowMonotone(2, 8 * (len - 1) + 7, b - 1);
      assert false;
    }
    if b <= 8 * (len - 1) {
      PowMonotone(2, b, 8 * (len - 1));
      assert false;
    }
    assert b / 8 + 1 == len;
    ModSmall(x, Pow(256, len));
    BytesOfUnsigned(bs);
  }

  /** A leading 0x00 byte is not kept: [0x00, 0x41] comes back as [0x41]. */
  lemma {:induction false} LeadingZeroDropped()
    ensures FromByteArray([0x00, 0x41]) == Success(0x41)
    ensures ToByteArray(0x41) == [0x41]
  {
    ReadsWithLeadingZero();
    WritesShortestForm();
  }

  lemma {:induction false} ReadsWithLeadingZero()
    ensures FromByteArray([0x00, 0x41]) == Success(0x41)
  {
    var bs: seq<byte> := [0x00, 0x41];
    assert bs[..1] == [0x00];
    assert Unsigned(bs) == 0x41;
  }

  lemma {:induction false} WritesShortestForm()
    ensures ToByteArray(0x41) == [0x41]
  {
    BitLengthExact(0x41, 7);
    assert Pow(2, 6) == 64 && Pow(2, 7) == 128;
    assert BitLength(0x41) / 8 + 1 == 1;
    assert Pow(256, 1) == 256;
    assert BytesOf(0x41, 1) == BytesOf(0, 0) + [0x41];
  }

  /** A first byte of 0x80 or more reads as a negative number: [0xFF] is -1. */
  lemma {:induction false} HighBitNegative()
    ensures FromByteArray([0xFF]) == Success(-1)
  {
    assert Unsigned([0xFF]) == 255;
    assert Pow(256, 1) == 256;
  }

  // ---------------------------------------------------------------------------
  // Decimal text (BigInteger(String) and BigInteger.toString())
  // ---------------------------------------------------------------------------

  predicate IsDigit(c: char) {
    '0' <= c <= '9'
  }

  predicate AllDigits(s: string) {
    forall i | 0 <= i < |s| :: IsDigit(s[i])
  }

  function DigitChar(d: nat): (c: char)
    requires d < 10
    ensures IsDigit(c) && (c as int) - ('0' as int) == d
  {
    (('0' as int) + d) as char
  }

  /** The digits read as a base-10 number. */
  function DigitsValue(s: string): (r: nat)
    requires AllDigits(s)
    ensures |s| == 0 ==> r == 0
  {
    if |s| == 0 then 0
    else DigitsValue(s[..|s| - 1]) * 10 + ((s[|s| - 1] as int) - ('0' as int))
  }

  /**
   * BigInteger(String): an optional '+' or '-' followed by one or more digits;
   * anything else is a NumberFormatException, here None.
   */
  function ParseDecimal(s: string): (r: Option<int>)
    ensures |s| == 0 ==> r.None?
    ensures r.Some? ==> (forall i | 0 <= i < |s| :: s[i] != ':')
    ensures r.Some? && r.value < 0 ==> s[0] == '-'
  {
    if |s| > 0 && (s[0] == '-' || s[0] == '+') then
      if |s| > 1 && AllDigits(s[1..]) then
        assert forall i | 1 <= i < |s| :: s[i] == s[1..][i - 1];
        var v: int := DigitsValue(s[1..]);
        Some(if s[0] == '-' then -v else v)
      else None
    else if |s| > 0 && AllDigits(s) then Some(DigitsValue(s))
    else None
  }

  /** BigInteger.toString() of a non-negative number: its digits, no leading zero. */
  function NatToDecimal(n: nat): (r: string)
    ensures |r| > 0 && AllDigits(r)
    ensures DigitsValue(r) == n
    ensures |r| > 1 ==> r[0] != '0'
  {
    if n < 10 then [DigitChar(n)]
    else
      var init := NatToDecimal(n / 10);
      var r := init + [DigitChar(n % 10)];
      assert r[..|r| - 1] == init;
      r
  }

  /** BigInteger.toString(): a '-' before the digits of a negative number. */
  function ToDecimal(x: int): (r: string)
    ensures |r| > 0
    ensures r[0] == '-' <==> x < 0
    ensures forall i | 0 <= i < |r| :: r[i] != ':'
  {
    if x < 0 then "-" + NatToDecimal(-x) else NatToDecimal(x)
  }

  /** Parsing what toString printed gives the number back, negatives included. */
  lemma {:induction false} ParseToDecimal(x: int)
    ensures ParseDecimal(ToDecimal(x)) == Some(x)
  {
    var s := ToDecimal(x);
    if x < 0 {
      assert s[1..] == NatToDecimal(-x);
    }
  }

  // ---------------------------------------------------------------------------
  // Kotlin's CharSequence.split, for a one-character delimiter
  // ---------------------------------------------------------------------------

  function Occurrences(s: string, c: char): (r: nat)
    ensures r <= |s|
    ensures r == 0 <==> (forall i | 0 <= i < |s| :: s[i] != c)
  {
    if |s| == 0 then 0
    else
      assert forall i | 1 <= i < |s| :: s[i] == s[1..][i - 1];
      (if s[0] == c then 1 else 0) + Occurrences(s[1..], c)
  }

  /** split(sep) keeps empty fields, leading and trailing ones included. */
  function Split(s: string, sep: char): (r: seq<string>)
    ensures |r| == Occurrences(s, sep) + 1
    ensures forall k | 0 <= k < |r| :: Occurrences(r[k], sep) == 0
  {
    if |s| == 0 then [""]
    else
      var rest := Split(s[1..], sep);
      if s[0] == sep then [""] + rest
      else
        assert Occurrences([s[0]] + rest[0], sep) == 0 by {
          assert ([s[0]] + rest[0])[1..] == rest[0];
        }
        [[s[0]] + rest[0]] + rest[1..]
  }

  /** The inverse of Split: the fields with sep between them. */
  function Join(fields: seq<string>, sep: char): (r: string)
    requires |fields| > 0
    ensures |fields| == 1 ==> r == fields[0]
  {
    if |fields| == 1 then fields[0] else fields[0] + [sep] + Join(fields[1..], sep)
  }

  /** Joining the fields of a split gives back the string. */
  lemma {:induction false} JoinSplit(s: string, sep: char)
    ensures Join(Split(s, sep), sep) == s
    decreases |s|
  {
    if |s| > 0 {
      var rest := Split(s[1..], sep);
      JoinSplit(s[1..], sep);
      if s[0] == sep {
        assert Split(s, sep)[1..] == rest;
      } else if |rest| > 1 {
        assert Split(s, sep)[1..] == rest[1..];
      }
    }
  }

  lemma {:induction false} SplitNoSeparator(a: string, sep: char)
    requires Occurrences(a, sep) == 0
    ensures Split(a, sep) == [a]
  {
    var r := Split(a, sep);
    JoinSplit(a, sep);
    assert |r| == 1;
  }

  lemma {:induction false} SplitAfterField(a: string, sep: char, t: string)
    requires Occurrences(a, sep) == 0
    ensures Split(a + [sep] + t, sep) == [a] + Split(t, sep)
    decreases |a|
  {
    var s := a + [sep] + t;
    if |a| == 0 {
      assert s[1..] == t;
    } else {
      assert s[1..] == a[1..] + [sep] + t;
      assert Occurrences(a, sep) == Occurrences(a[1..], sep) + (if a[0] == sep then 1 else 0);
      SplitAfterField(a[1..], sep, t);
      assert [a[0]] + a[1..] == a;
    }
  }

  /** Splitting the join of fields free of sep gives back the fields. */
  lemma {:induction false} SplitJoin(fields: seq<string>, sep: char)
    requires |fields| > 0
    requires forall k | 0 <= k < |fields| :: Occurrences(fields[k], sep) == 0
    ensures Split(Join(fields, sep), sep) == fields
    decreases |fields|
  {
    if |fields| == 1 {
      SplitNoSeparator(fields[0], sep);
    } else {
      SplitJoin(fields[1..], sep);
      SplitAfterField(fields[0], sep, Join(fields[1..], sep));
      assert fields == [fields[0]] + fields[1..];
    }
  }

  // ---------------------------------------------------------------------------
  // Key text form
  // ---------------------------------------------------------------------------

  /** "a:b" with both numbers in BigInteger.toString() form. */
  function KeyText(a: int, b: int): (r: string)
    ensures Split(r, ':') == [ToDecimal(a), ToDecimal(b)]
    ensures Occurrences(r, ':') == 1
  {
    var r := ToDecimal(a) + ":" + ToDecimal(b);
    assert r == Join([ToDecimal(a), ToDecimal(b)], ':');
    SplitJoin([ToDecimal(a), ToDecimal(b)], ':');
    r
  }

  /**
   * The shared body of toPublicKey and toPrivateKey: split on ':', keep the result
   * only when there are exactly two fields, and parse each as a BigInteger.
   */
  function KeyFields(s: string): (r: Option<(int, int)>)
    ensures Occurrences(s, ':') != 1 ==> r.None?
    ensures r.Some? ==> |s| >= 3
  {
    var fields := Split(s, ':');
    if |fields| != 2 then None
    else
      match (ParseDecimal(fields[0]), ParseDecimal(fields[1]))
      case (Some(a), Some(b)) =>
        JoinSplit(s, ':');
        assert s == fields[0] + [':'] + fields[1];
        Some((a, b))
      case _ => None
  }

  /** The text's one and only ':' is at index i. */
  predicate SingleColonAt(s: string, i: int) {
    0 <= i < |s| && s[i] == ':' && Occurrences(s, ':') == 1
  }

  /**
   * toPublicKey: null (None) unless the text has exactly one ':'; then e is the
   * number before it and n the number after it, and null if either does not parse.
   */
  function ToPublicKey(s: string): (r: Option<PublicKey>)
    ensures Occurrences(s, ':') != 1 ==> r.None?
    ensures forall i | SingleColonAt(s, i) ::
      r == (if ParseDecimal(s[..i]).Some? && ParseDecimal(s[i + 1..]).Some?
            then Some(PublicKey(ParseDecimal(s[..i]).value, ParseDecimal(s[i + 1..]).value))
            else None)
  {
    var r := match KeyFields(s)
      case Some((e, n)) => Some(PublicKey(e, n))
      case None => None;
    assert forall i | SingleColonAt(s, i) ::
      Split(s, ':') == [s[..i], s[i + 1..]] by {
      forall i | SingleColonAt(s, i) {
        SplitAtOnlySeparator(s, ':', i);
      }
    }
    r
  }

  /** toPrivateKey: the same parse, d before the ':' and n after it. */
  function ToPrivateKey(s: string): (r: Option<PrivateKey>)
    ensures Occurrences(s, ':') != 1 ==> r.None?
    ensures forall i | SingleColonAt(s, i) ::
      r == (if ParseDecimal(s[..i]).Some? && ParseDecimal(s[i + 1..]).Some?
            then Some(PrivateKey(ParseDecimal(s[..i]).value, ParseDecimal(s[i + 1..]).value))
            else None)
    ensures r.Some? <==> ToPublicKey(s).Some?
  {
    var r := match KeyFields(s)
      case Some((d, n)) => Some(PrivateKey(d, n))
      case None => None;
    assert forall i | SingleColonAt(s, i) ::
      Split(s, ':') == [s[..i], s[i + 1..]] by {
      forall i | SingleColonAt(s, i) {
        SplitAtOnlySeparator(s, ':', i);
      }
    }
    r
  }

  /** Occurrences adds up over concatenation. */
  lemma {:induction false} OccurrencesConcat(a: string, b: string, c: char)
    ensures Occurrences(a + b, c) == Occurrences(a, c) + Occurrences(b, c)
    decreases |a|
  {
    if |a| == 0 {
      assert a + b == b;
    } else {
      assert (a + b)[1..] == a[1..] + b;
      OccurrencesConcat(a[1..], b, c);
    }
  }

  /** A text with a single sep, at i, splits into the parts before and after i. */
  lemma {:induction false} SplitAtOnlySeparator(s: string, sep: char, i: int)
    requires 0 <= i < |s| && s[i] == sep && Occurrences(s, sep) == 1
    ensures Split(s, sep) == [s[..i], s[i + 1..]]
  {
    var a, t := s[..i], s[i + 1..];
    assert s == a + [sep] + t;
    OccurrencesConcat(a + [sep], t, sep);
    OccurrencesConcat(a, [sep], sep);
    assert [sep][1..] == [];
    SplitAfterField(a, sep, t);
    SplitNoSeparator(t, sep);
  }

  /** PublicKey.toStringFormat: "e:n". */
  function PublicKeyText(k: PublicKey): (r: string)
    ensures Occurrences(r, ':') == 1
    ensures ToPublicKey(r) == Some(k)
  {
    ParseToDecimal(k.e);
    ParseToDecimal(k.n);
    KeyText(k.e, k.n)
  }

  /** PrivateKey.toStringFormat: "d:n". */
  function PrivateKeyText(k: PrivateKey): (r: string)
    ensures Occurrences(r, ':') == 1
    ensures ToPrivateKey(r) == Some(k)
  {
    ParseToDecimal(k.d);
    ParseToDecimal(k.n);
    KeyText(k.d, k.n)
  }

  /** The text of a key pair read back with the other parser swaps nothing: same numbers. */
  lemma {:induction false} PrivateTextAsPublic(k: PrivateKey)
    ensures ToPublicKey(PrivateKeyText(k)) == Some(PublicKey(k.d, k.n))
  {
    ParseToDecimal(k.d);
    ParseToDecimal(k.n);
  }

  /** Text without exactly one ':' is rejected: "65537" and "1:2:3". */
  lemma {:induction false} WrongFieldCount()
    ensures ToPublicKey("65537") == None
    ensures ToPrivateKey("1:2:3") == None
  {
    assert Occurrences("65537", ':') == 0;
    assert Occurrences("1:2:3", ':') == 2;
  }

  /** An empty field is a NumberFormatException, so "65537:" is rejected. */
  lemma {:induction false} EmptyFieldRejected()
    ensures ToPublicKey("65537:") == None
    ensures ToPrivateKey("65537:") == None
  {
    var text := "65537:";
    assert text == "65537" + [':'] + "";
    SplitAfterField("65537", ':', "");
    assert Split("", ':') == [""];
  }

  /** "65537:119" is the public key (e = 65537, n = 119). */
  lemma {:induction false} ParsesExampleKey()
    ensures ToPublicKey("65537:119") == Some(PublicKey(65537, 119))
  {
    var text := "65537:119";
    assert text == "65537" + [':'] + "119";
    SplitAfterField("65537", ':', "119");
    SplitNoSeparator("119", ':');
    assert Split(text, ':') == ["65537", "119"];
    ParsesExponent();
    ParsesModulus();
  }

  lemma {:induction false} ParsesExponent()
    ensures ParseDecimal("65537") == Some(65537)
  {
    assert "65537"[..4] == "6553" && "6553"[..3] == "655" && "655"[..2] == "65";
    assert "65"[..1] == "6" && "6"[..0] == "";
    DecimalDigits("6", 0, '6');
    DecimalDigits("65", 6, '5');
    DecimalDigits("655", 65, '5');
    DecimalDigits("6553", 655, '3');
    DecimalDigits("65537", 6553, '7');
  }

  lemma {:induction false} ParsesModulus()
    ensures ParseDecimal("119") == Some(119)
  {
    assert "119"[..2] == "11" && "11"[..1] == "1" && "1"[..0] == "";
    DecimalDigits("1", 0, '1');
    DecimalDigits("11", 1, '1');
    DecimalDigits("119", 11, '9');
  }

  /** One step of reading digits: the value of s is ten times its prefix plus its last digit. */
  lemma {:induction false} DecimalDigits(s: string, prefix: nat, last: char)
    requires |s| > 0 && AllDigits(s) && s[|s| - 1] == last
    requires DigitsValue(s[..|s| - 1]) == prefix
    ensures DigitsValue(s) == prefix * 10 + ((last as int) - ('0' as int))
  {
  }

  // ---------------------------------------------------------------------------
  // Key size
  // ---------------------------------------------------------------------------

  /** size() of either key type: bitLength(n) / 8, whole bytes rounded down. */
  function Size(n: int): (r: nat)
    ensures 8 * r <= BitLength(n) < 8 * r + 8
  {
    BitLength(n) / 8
  }

  /** A modulus below 128 reports 0 bytes, one in 128..255 reports 1. */
  lemma {:induction false} SizeOfSmallModulus(n: int)
    requires 0 <= n < 256
    ensures n < 128 ==> Size(n) == 0
    ensures n >= 128 ==> Size(n) == 1
  {
    BitLengthBounds(n);
    assert Pow(2, 7) == 128 && Pow(2, 8) == 256;
    if n > 0 && BitLength(n) >= 9 {
      PowMonotone(2, 8, BitLength(n) - 1);
    }
    if n < 128 && BitLength(n) >= 8 {
      PowMonotone(2, 7, BitLength(n) - 1);
    }
    if n >= 128 && BitLength(n) <= 7 {
      PowMonotone(2, BitLength(n), 7);
    }
  }

  /** A modulus of exactly 2048 bits reports 256 bytes. */
  lemma {:induction false} SizeOf2048BitModulus(n: int)
    requires BitLength(n) == 2048
    ensures Size(n) == 256
  {
  }

  /** A key pair generated with bitLength = 8k reports k or k - 1 bytes. */
  lemma {:induction false} GeneratedKeySize(keyPair: KeyPair, k: nat, p: int, q: int)
    requires GeneratedFrom(keyPair, 8 * k, p, q)
    ensures Size(keyPair.publicKey.n) == k || Size(keyPair.publicKey.n) == k - 1
    ensures Size(keyPair.privateKey.n) == Size(keyPair.publicKey.n)
  {
    GeneratedModulusBounds(keyPair, 8 * k, p, q);
    var n := keyPair.publicKey.n;
    assert 8 * k / 2 == 4 * k;
    assert Pow(2, 8 * k - 2) <= n < Pow(2, 8 * k);
    SizeBetween(n, k);
  }

  lemma {:induction false} SizeBetween(n: int, k: nat)
    requires k >= 1 && Pow(2, 8 * k - 2) <= n < Pow(2, 8 * k)
    ensures Size(n) == k || Size(n) == k - 1
  {
    PowPositive(2, 8 * k - 2);
    BitLengthBounds(n);
    var b := BitLength(n);
    if b > 8 * k {
      PowMonotone(2, 8 * k, b - 1);
    }
    if b < 8 * k - 1 {
      PowMonotone(2, b, 8 * k - 2);
    }
  }
}
