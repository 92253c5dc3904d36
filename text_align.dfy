/** Text alignment of the GPU (gpu/src/text_align.rs) and its decoding from a byte. */
module TextAligns {
  import opened Bytes

  /** `#[repr(u8)] enum TextAlign`, discriminants implicit from Left = 0, so up to Right = 2. */
  datatype TextAlign = Left | Center | Right {
    /** The declared discriminant. */
    function Discriminant(): (d: byte)
      ensures d <= 2
    {
      match this
      case Left => 0
      case Center => 1
      case Right => 2
    }
  }

  /** `transmute` of a byte into the enum, for the discriminants the guard of `FromU8` lets through. */
  function Transmute(value: byte): TextAlign
    requires value <= Right.Discriminant()
  {
    match value
    case 0 => Left
    case 1 => Center
    case _ => Right
  }

  /**
   * `From<u8> for TextAlign`: a declared discriminant names its variant and
   * every other byte falls back to `Left`. The lower bound of the guard,
   * `value >= Left as u8`, holds for every byte.
   */
  function FromU8(value: byte): (r: TextAlign)
    ensures value <= 2 ==> r.Discriminant() == value
    ensures value > 2 ==> r == Left
  {
    if value >= Left.Discriminant() && value <= Right.Discriminant() then Transmute(value) else Left
  }

  /** Every variant decodes from its own discriminant, so distinct variants have distinct discriminants. */
  lemma RoundTrip(a: TextAlign, b: TextAlign)
    ensures FromU8(a.Discriminant()) == a
    ensures a.Discriminant() == b.Discriminant() ==> a == b
  {
    assert FromU8(a.Discriminant()) == a && FromU8(b.Discriminant()) == b;
  }
}
