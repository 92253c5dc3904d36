/** The kinds of GPU object (gpu/src/object.rs) and their decoding from a byte. */
module ObjectTypes {
  import opened Bytes

  /** `#[repr(u8)] enum ObjectType`, discriminants Points = 0 up to Typeface = 3 in declaration order. */
  datatype ObjectType = Points | Vertices | Text | Typeface {
    /** The declared discriminant. */
    function Discriminant(): (d: byte)
      ensures d <= 3
    {
      match this
      case Points => 0
      case Vertices => 1
      case Text => 2
      case Typeface => 3
    }
  }

  /** `transmute` of a byte into the enum, for the discriminants the guard of `FromU8` lets through. */
  function Transmute(value: byte): ObjectType
    requires value <= Typeface.Discriminant()
  {
    match value
    case 0 => Points
    case 1 => Vertices
    case 2 => Text
    case _ => Typeface
  }

  /**
   * `From<u8> for ObjectType`: a declared discriminant names its variant and
   * every other byte falls back to `Points`. The lower bound of the guard,
   * `value >= Points as u8`, holds for every byte.
   */
  function FromU8(value: byte): (r: ObjectType)
    ensures value <= 3 ==> r.Discriminant() == value
    ensures value > 3 ==> r == Points
  {
    if value >= Points.Discriminant() && value <= Typeface.Discriminant() then Transmute(value) else Points
  }

  /** Every variant decodes from its own discriminant, so distinct variants have distinct discriminants. */
  lemma RoundTrip(a: ObjectType, b: ObjectType)
    ensures FromU8(a.Discriminant()) == a
    ensures a.Discriminant() == b.Discriminant() ==> a == b
  {
    assert FromU8(a.Discriminant()) == a && FromU8(b.Discriminant()) == b;
  }
}
