/** The mode of a network hub port (net_hub/src/port_mode.rs) and its decoding from a byte. */
module PortModes {
  import opened Bytes

  /** `#[repr(u8)] enum PortMode`, discriminants Simple = 0 up to Complex = 1 in declaration order. */
  datatype PortMode = Simple | Complex {
    /** The declared discriminant. */
    function Discriminant(): (d: byte)
      ensures d <= 1
    {
      match this
      case Simple => 0
      case Complex => 1
    }
  }

  /** `transmute` of a byte into the enum, for the discriminants the guard of `FromU8` lets through. */
  function Transmute(value: byte): PortMode
    requires value <= Complex.Discriminant()
  {
    match value
    case 0 => Simple
    case _ => Complex
  }

  /**
   * `From<u8> for PortMode`: a declared discriminant names its variant and
   * every other byte falls back to `Simple`. The lower bound of the guard,
   * `value >= Simple as u8`, holds for every byte.
   */
  function FromU8(value: byte): (r: PortMode)
    ensures value <= 1 ==> r.Discriminant() == value
    ensures value > 1 ==> r == Simple
  {
    if value >= Simple.Discriminant() && value <= Complex.Discriminant() then Transmute(value) else Simple
  }

  /** Every variant decodes from its own discriminant, so distinct variants have distinct discriminants. */
  lemma RoundTrip(a: PortMode, b: PortMode)
    ensures FromU8(a.Discriminant()) == a
    ensures a.Discriminant() == b.Discriminant() ==> a == b
  {
    assert FromU8(a.Discriminant()) == a && FromU8(b.Discriminant()) == b;
  }
}
