/** The state of a keyboard key (hid/src/key_state.rs) and its decoding from a byte. */
module KeyStates {
  import opened Bytes

  /** `#[repr(u8)] enum KeyState`, discriminants Up = 0 up to Down = 2 in declaration order. */
  datatype KeyState = Up | Repeat | Down {
    /** The declared discriminant. */
    function Discriminant(): (d: byte)
      ensures d <= 2
    {
      match this
      case Up => 0
      case Repeat => 1
      case Down => 2
    }
  }

  /** `transmute` of a byte into the enum, for the discriminants the guard of `FromU8` lets through. */
  function Transmute(value: byte): KeyState
    requires value <= Down.Discriminant()
  {
    match value
    case 0 => Up
    case 1 => Repeat
    case _ => Down
  }

  /**
   * `From<u8> for KeyState`: a declared discriminant names its variant and
   * every other byte falls back to `Up`. The lower bound of the guard,
   * `value >= Up as u8`, holds for every byte.
   */
  function FromU8(value: byte): (r: KeyState)
    ensures value <= 2 ==> r.Discriminant() == value
    ensures value > 2 ==> r == Up
  {
    if value >= Up.Discriminant() && value <= Down.Discriminant() then Transmute(value) else Up
  }

  /** Every variant decodes from its own discriminant, so distinct variants have distinct discriminants. */
  lemma RoundTrip(a: KeyState, b: KeyState)
    ensures FromU8(a.Discriminant()) == a
    ensures a.Discriminant() == b.Discriminant() ==> a == b
  {
    assert FromU8(a.Discriminant()) == a && FromU8(b.Discriminant()) == b;
  }
}
