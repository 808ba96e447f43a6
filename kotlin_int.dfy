/** Kotlin's 32-bit Int: its range, its wrap-around and its truncating division. */
module KotlinInt {

  const IntMin: int := -0x8000_0000
  const IntMax: int := 0x7FFF_FFFF

  type Int32 = x: int | IntMin <= x <= IntMax

  /** The value Kotlin Int arithmetic leaves when the exact result is x. */
  function Wrap(x: int): (r: Int32)
    ensures (r - x) % 0x1_0000_0000 == 0
    ensures IntMin <= x <= IntMax ==> r == x
  {
    var r := (x - IntMin) % 0x1_0000_0000 + IntMin;
    assert r - x == 0x1_0000_0000 * (-((x - IntMin) / 0x1_0000_0000));
    r
  }

  /** Kotlin's `/` on Int rounds toward zero; Dafny's rounds toward minus infinity. */
  function TruncDiv(a: int, b: int): (r: int)
    requires b > 0
    ensures a >= 0 ==> 0 <= a - r * b < b
    ensures a < 0 ==> -b < a - r * b <= 0
  {
    if a >= 0 then a / b else -((-a) / b)
  }
}
