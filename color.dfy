/**
 * The GPU's colour (gpu/src/color.rs): four bytes, a few named colours, and
 * the decoding of a colour packed into the low 32 bits of an i64.
 */
module Colors {
  import opened Bytes

  /** `struct Color`. */
  datatype Color = Color(r: byte, g: byte, b: byte, a: byte)

  /** `new_rgb`: an opaque colour. */
  function NewRgb(r: byte, g: byte, b: byte): (c: Color)
    ensures c.a == 255 && c.r == r && c.g == g && c.b == b
  {
    Color(r, g, b, 255)
  }

  /** `new_rgba`: every component as given. */
  function NewRgba(r: byte, g: byte, b: byte, a: byte): (c: Color)
    ensures c.r == r && c.g == g && c.b == b && c.a == a
  {
    Color(r, g, b, a)
  }

  /** `red()`. */
  function Red(): Color { NewRgb(255, 0, 0) }

  /** `green()`. */
  function Green(): Color { NewRgb(0, 255, 0) }

  /** `blue()`. */
  function Blue(): Color { NewRgb(0, 0, 255) }

  /** `white()`. */
  function White(): Color { NewRgb(255, 255, 255) }

  /** `black()`. */
  function Black(): Color { NewRgb(0, 0, 0) }

  /** The named colours: the three opaque primaries, opaque white and opaque black. */
  lemma NamedColours()
    ensures Red() == Color(255, 0, 0, 255) && Green() == Color(0, 255, 0, 255) && Blue() == Color(0, 0, 255, 255)
    ensures White() == Color(255, 255, 255, 255) && Black() == Color(0, 0, 0, 255)
    ensures Pack(White()) == 0xFFFF_FFFF && Pack(Black()) == 0xFF00_0000
  {
  }

  /**
   * `(value >> shift) as u8` on an i64: the shift is arithmetic, which is
   * division rounding down, and the cast keeps the low eight bits, which is
   * the non-negative remainder modulo 256. Dafny's `/` and `%` by a
   * positive divisor are exactly these.
   */
  function ByteOf(value: int, divisor: nat): byte
    requires divisor > 0
  {
    (value / divisor) % 256
  }

  /** `From<i64> for Color`: red from bits 0-7, green from 8-15, blue from 16-23, alpha from 24-31. */
  function FromI64(value: i64): Color {
    NewRgba(ByteOf(value, 1), ByteOf(value, 0x100), ByteOf(value, 0x1_0000), ByteOf(value, 0x100_0000))
  }

  /** `r | g << 8 | b << 16 | a << 24`: the packing `FromI64` reads; the four bytes occupy disjoint bits. */
  function Pack(c: Color): (v: i64)
    ensures 0 <= v < 0x1_0000_0000
  {
    c.r + 0x100 * c.g + 0x1_0000 * c.b + 0x100_0000 * c.a
  }

  /** Decoding a packed colour gives its four components back. */
  lemma FromPacked(c: Color)
    ensures FromI64(Pack(c)) == NewRgba(c.r, c.g, c.b, c.a)
  {
    var v := Pack(c);
    assert v / 0x100 == c.g + 0x100 * c.b + 0x1_0000 * c.a;
    assert v / 0x1_0000 == c.b + 0x100 * c.a;
    assert v / 0x100_0000 == c.a;
  }

  /** Decoding reads only the low 32 bits: a value decodes as its remainder modulo 2^32 does. */
  lemma DecodesAsLowBits(value: i64)
    ensures FromI64(value) == FromI64(value % 0x1_0000_0000)
  {
    var h, low := value / 0x1_0000_0000, value % 0x1_0000_0000;
    assert value == h * 0x1_0000_0000 + low;
    DivAddMultiple(h * 0x100_0000, low, 0x100);
    assert ByteOf(value, 1) == ByteOf(low, 1);
    DivAddMultiple(h * 0x100_0000, low, 0x100);
    DivAddMultiple(h * 0x1_0000, low / 0x100, 0x100);
    assert ByteOf(value, 0x100) == ByteOf(low, 0x100);
    DivAddMultiple(h * 0x1_0000, low, 0x1_0000);
    DivAddMultiple(h * 0x100, low / 0x1_0000, 0x100);
    assert ByteOf(value, 0x1_0000) == ByteOf(low, 0x1_0000);
    DivAddMultiple(h * 0x100, low, 0x100_0000);
    DivAddMultiple(h, low / 0x100_0000, 0x100);
    assert ByteOf(value, 0x100_0000) == ByteOf(low, 0x100_0000);
  }

  /** A value below 2^32 is its four bytes in base 256. */
  lemma PackOfLowBits(low: i64)
    requires 0 <= low < 0x1_0000_0000
    ensures Pack(FromI64(low)) == low
  {
    DivDiv(low, 0x100, 0x100);
    DivDiv(low, 0x1_0000, 0x100);
    var q1, q2, q3 := low / 0x100, low / 0x1_0000, low / 0x100_0000;
    assert low == low % 0x100 + 0x100 * q1;
    assert q1 == q1 % 0x100 + 0x100 * q2;
    assert q2 == q2 % 0x100 + 0x100 * q3;
    assert q3 < 0x100;
  }

  /**
   * Decoding keeps the low 32 bits of the value and nothing else: packing
   * the decoded colour gives the value modulo 2^32, its two's complement
   * low bits, so values that differ only above bit 31 decode alike.
   */
  lemma HighBitsIgnored(value: i64)
    ensures Pack(FromI64(value)) == value % 0x1_0000_0000
  {
    DecodesAsLowBits(value);
    PackOfLowBits(value % 0x1_0000_0000);
  }
}
