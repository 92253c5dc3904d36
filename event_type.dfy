/** The kinds of mouse event (hid/src/mouse/event_type.rs) and their decoding from a byte. */
module MouseEventTypes {
  import opened Bytes

  /** `#[repr(u8)] enum MouseEventType`, discriminants None = 0 up to Move = 2 in declaration order. */
  datatype MouseEventType = None | Key | Move {
    /** The declared discriminant. */
    function Discriminant(): (d: byte)
      ensures d <= 2
    {
      match this
      case None => 0
      case Key => 1
      case Move => 2
    }
  }

  /** `transmute` of a byte into the enum, for the discriminants the guard of `FromU8` lets through. */
  function Transmute(value: byte): MouseEventType
    requires value <= Move.Discriminant()
  {
    match value
    case 0 => None
    case 1 => Key
    case _ => Move
  }

  /**
   * `From<u8> for MouseEventType`: a declared discriminant names its variant and
   * every other byte falls back to `None`. The lower bound of the guard,
   * `value >= None as u8`, holds for every byte.
   */
  function FromU8(value: byte): (r: MouseEventType)
    ensures value <= 2 ==> r.Discriminant() == value
    ensures value > 2 ==> r == None
  {
    if value >= None.Discriminant() && value <= Move.Discriminant() then Transmute(value) else None
  }

  /** Every variant decodes from its own discriminant, so distinct variants have distinct discriminants. */
  lemma RoundTrip(a: MouseEventType, b: MouseEventType)
    ensures FromU8(a.Discriminant()) == a
    ensures a.Discriminant() == b.Discriminant() ==> a == b
  {
    assert FromU8(a.Discriminant()) == a && FromU8(b.Discriminant()) == b;
  }
}
