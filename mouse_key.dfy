/**
 * The mouse buttons (hid/src/mouse/mouse_key.rs): their register offsets and
 * their decoding from a byte.
 */
module MouseKeys {
  import opened Bytes

  /** MMIO offset of the first button register. */
  const KEYS_OFFSET: nat := 0x100

  /**
   * `#[repr(u8)] enum MouseKey` (Left = 0, Right = 1, Middle = 2,
   * Unknown = 0xFF), together with `Undeclared(code)`: what a `transmute`
   * of any other byte yields, which is no value of the Rust enum at all.
   */
  datatype MouseKey = Left | Right | Middle | Unknown | Undeclared(code: byte) {
    /** The discriminant, the byte the value is stored as. */
    function Discriminant(): byte {
      match this
      case Left => 0
      case Right => 1
      case Middle => 2
      case Unknown => 0xFF
      case Undeclared(c) => c
    }

    /** One of the four declared variants. */
    predicate Declared() {
      !Undeclared?
    }

    /** A `transmute` can give this value: an undeclared one carries an undeclared code. */
    predicate Producible() {
      Undeclared? ==> code != 0 && code != 1 && code != 2 && code != 0xFF
    }

    /** `offset()`: the discriminant past KEYS_OFFSET. */
    function Offset(): (o: nat)
      ensures KEYS_OFFSET <= o <= KEYS_OFFSET + 0xFF
      ensures o - KEYS_OFFSET == Discriminant()
    {
      Discriminant() as nat + KEYS_OFFSET
    }
  }

  /** `transmute` of a byte into the enum. */
  function Transmute(value: byte): MouseKey {
    if value == 0 then Left
    else if value == 1 then Right
    else if value == 2 then Middle
    else if value == 0xFF then Unknown
    else Undeclared(value)
  }

  /**
   * `From<u8> for MouseKey`. The guard, a value from `Left as u8` to
   * `Unknown as u8`, holds for every byte, so every byte is transmuted:
   * 0, 1, 2 and 0xFF give their variants, the other 252 bytes give no
   * declared variant, and the `Unknown` fallback arm is never taken.
   */
  function FromU8(value: byte): (k: MouseKey)
    ensures k.Producible() && k.Discriminant() == value
    ensures k.Declared() <==> value == 0 || value == 1 || value == 2 || value == 0xFF
  {
    if value >= Left.Discriminant() && value <= Unknown.Discriminant() then Transmute(value)
    else Unknown
  }

  /** The guard of `FromU8` holds for every byte. */
  lemma GuardAlwaysHolds(value: byte)
    ensures value >= Left.Discriminant() && value <= Unknown.Discriminant()
    ensures FromU8(value) == Transmute(value)
  {
  }

  /**
   * A key decodes from its own discriminant, and distinct keys have
   * distinct offsets: Left, Right, Middle and Unknown sit at 0x100, 0x101,
   * 0x102 and 0x1FF.
   */
  lemma RoundTrip(a: MouseKey, b: MouseKey)
    requires a.Producible() && b.Producible()
    ensures FromU8(a.Discriminant()) == a
    ensures a.Offset() == b.Offset() ==> a == b
    ensures Left.Offset() == 0x100 && Right.Offset() == 0x101 && Middle.Offset() == 0x102 && Unknown.Offset() == 0x1FF
  {
    assert FromU8(a.Discriminant()) == a && FromU8(b.Discriminant()) == b;
  }
}
