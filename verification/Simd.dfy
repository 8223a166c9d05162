/** Packed words and the ARMv7E-M DSP instructions of the decimators.

A 32-bit register that the source treats as a pair of signed 16-bit lanes is a `Lanes`
value, one that it treats as four signed bytes is a `Bytes4` value.  The register width
is explicit: every result is wrapped or saturated as the instruction does it.
 */
module Simd {

  type Int8 = x: int | -0x80 <= x < 0x80
  type Int16 = x: int | -0x8000 <= x < 0x8000
  type Int32 = x: int | -0x8000_0000 <= x < 0x8000_0000
  type Int64 = x: int | -0x8000_0000_0000_0000 <= x < 0x8000_0000_0000_0000

  predicate FitsInt16(x: int) { -0x8000 <= x < 0x8000 }

  predicate FitsInt32(x: int) { -0x8000_0000 <= x < 0x8000_0000 }

  /** Two's-complement truncation to 16, 32 and 64 bits. */
  function Wrap16(x: int): Int16 { (x + 0x8000) % 0x1_0000 - 0x8000 }

  function Wrap32(x: int): Int32 { (x + 0x8000_0000) % 0x1_0000_0000 - 0x8000_0000 }

  function Wrap64(x: int): Int64 {
    (x + 0x8000_0000_0000_0000) % 0x1_0000_0000_0000_0000 - 0x8000_0000_0000_0000
  }

  lemma ProductOrder(a: int, b: int, c: int)
    requires a >= 0 && b <= c
    ensures a * b <= a * c
  {
    assert a * (c - b) >= 0;
  }

  /** The magnitude of a product is at most the product of the magnitudes. */
  lemma ProductWithin(a: int, b: int, m: int, n: int)
    requires -m <= a <= m && -n <= b <= n
    ensures -(m * n) <= a * b <= m * n
  {
    if a >= 0 {
      ProductOrder(a, b, n);
      ProductOrder(a, -n, b);
      ProductOrder(n, a, m);
    } else {
      ProductOrder(-a, b, n);
      ProductOrder(-a, -n, b);
      ProductOrder(n, -a, m);
    }
  }

  lemma FitsUnwrapped(x: int)
    requires FitsInt16(x)
    ensures Wrap16(x) == Wrap32(x) == x && Wrap16(Wrap32(x)) == x
  {
  }

  /** Wrapping at every accumulation step is the same as wrapping once at the end. */
  lemma Wrap32Absorbs(x: int, y: int)
    ensures Wrap32(Wrap32(x) + y) == Wrap32(x + y)
  {
    var q := (x + 0x8000_0000) / 0x1_0000_0000;
    assert Wrap32(x) == x - q * 0x1_0000_0000;
    assert Wrap32(x) + y + 0x8000_0000 == (x + y + 0x8000_0000) - q * 0x1_0000_0000;
  }

  /** A complex sample; the source stores the real part in the low half of a word. */
  datatype Complex = Complex(re: int, im: int) {
    function Plus(c: Complex): Complex { Complex(re + c.re, im + c.im) }

    function Scaled(k: int): Complex { Complex(k * re, k * im) }
  }

  const ZERO := Complex(0, 0)

  type Complex8 = c: Complex | -0x80 <= c.re < 0x80 && -0x80 <= c.im < 0x80 witness ZERO
  type Complex16 = c: Complex | FitsInt16(c.re) && FitsInt16(c.im) witness ZERO
  type Complex32 = c: Complex | FitsInt32(c.re) && FitsInt32(c.im) witness ZERO

  /** Both components truncated to 32 bits. */
  function Wrapped(sum: Complex): Complex32 { Complex(Wrap32(sum.re), Wrap32(sum.im)) }

  /** `lo` is bits 15..0 of the word, `hi` bits 31..16. */
  datatype Lanes = Lanes(lo: Int16, hi: Int16)

  /** `b0` is the least significant byte of the word. */
  datatype Bytes4 = Bytes4(b0: Int8, b1: Int8, b2: Int8, b3: Int8)

  /** Two consecutive complex<int8_t> samples, read as one word. */
  function LoadPair(x0: Complex8, x1: Complex8): Bytes4 { Bytes4(x0.re, x0.im, x1.re, x1.im) }

  function AsLanes(c: Complex16): Lanes { Lanes(c.re, c.im) }

  // Byte and halfword shuffles

  function Rev16(v: Bytes4): Bytes4 { Bytes4(v.b1, v.b0, v.b3, v.b2) }

  function PkhbtBytes(v: Bytes4, w: Bytes4): Bytes4 { Bytes4(v.b0, v.b1, w.b2, w.b3) }

  function Pkhbt16(v: Lanes, w: Lanes): Lanes { Lanes(v.lo, w.lo) }

  function Pkhtb16(v: Lanes, w: Lanes): Lanes { Lanes(w.hi, v.hi) }

  /** Sign-extends bytes 0 and 2 of the word rotated right by 8 * `bytes` bits. */
  function Sxtb16(v: Bytes4, bytes: nat): Lanes
    requires bytes < 4
  {
    match bytes
    case 0 => Lanes(v.b0, v.b2)
    case 1 => Lanes(v.b1, v.b3)
    case 2 => Lanes(v.b2, v.b0)
    case _ => Lanes(v.b3, v.b1)
  }

  // Multiply and accumulate

  function Smlad(a: Lanes, b: Lanes, acc: int): Int32 { Wrap32(acc + a.lo * b.lo + a.hi * b.hi) }

  function Smlsd(a: Lanes, b: Lanes, acc: int): Int32 { Wrap32(acc + a.lo * b.lo - a.hi * b.hi) }

  function Smladx(a: Lanes, b: Lanes, acc: int): Int32 { Wrap32(acc + a.lo * b.hi + a.hi * b.lo) }

  function Smuad(a: Lanes, b: Lanes): Int32 { Smlad(a, b, 0) }

  function Smuadx(a: Lanes, b: Lanes): Int32 { Smladx(a, b, 0) }

  function Smusd(a: Lanes, b: Lanes): Int32 { Smlsd(a, b, 0) }

  function Smusdx(a: Lanes, b: Lanes): Int32 { Wrap32(a.lo * b.hi - a.hi * b.lo) }

  function Smlsld(a: Lanes, b: Lanes, acc: int): Int64 { Wrap64(acc + a.lo * b.lo - a.hi * b.hi) }

  function Smlaldx(a: Lanes, b: Lanes, acc: int): Int64 { Wrap64(acc + a.lo * b.hi + a.hi * b.lo) }

  function Smlabb(a: Lanes, b: Lanes, acc: int): Int32 { Wrap32(acc + a.lo * b.lo) }

  function Smlatb(a: Lanes, b: Lanes, acc: int): Int32 { Wrap32(acc + a.hi * b.lo) }

  // Saturation and rounding

  function Saturate16(x: int): Int16 { if x < -0x8000 then -0x8000 else if x > 0x7FFF then 0x7FFF else x }

  function Qadd16(a: Lanes, b: Lanes): Lanes { Lanes(Saturate16(a.lo + b.lo), Saturate16(a.hi + b.hi)) }

  function Qsub16(a: Lanes, b: Lanes): Lanes { Lanes(Saturate16(a.lo - b.lo), Saturate16(a.hi - b.hi)) }

  /** The high word of the 64-bit product, rounded. */
  function Smmulr(a: Int32, b: Int32): int { (a * b + 0x8000_0000) / 0x1_0000_0000 }

  /** C++ integer division: the quotient is truncated toward zero. */
  function TruncDiv(a: int, b: int): int
    requires b != 0
  {
    if a >= 0 then a / b else -((-a) / b)
  }

  function ScaleRoundAndPack(value: Complex32, scale: Int32): Complex16 {
    Complex(Saturate16(Smmulr(value.re, scale)), Saturate16(Smmulr(value.im, scale)))
  }
}
