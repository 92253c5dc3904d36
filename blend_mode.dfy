/** The GPU painter's blend modes (gpu/src/blend_mode.rs) and their decoding from a byte. */
module BlendModes {
  import opened Bytes

  /** `#[repr(u8)] enum BlendMode`, discriminants Clear = 0 up to Luminosity = 28 in declaration order. */
  datatype BlendMode = Clear | Src | Dst | SrcOver | DstOver | SrcIn | DstIn | SrcOut | DstOut | SrcATop | DstATop | Xor | Plus | Modulate | Screen | Overlay | Darken | Lighten | ColorDodge | ColorBurn | HardLight | SoftLight | Difference | Exclusion | Multiply | Hue | Saturation | Color | Luminosity {
    /** The declared discriminant. */
    function Discriminant(): (d: byte)
      ensures d <= 28
    {
      match this
      case Clear => 0
      case Src => 1
      case Dst => 2
      case SrcOver => 3
      case DstOver => 4
      case SrcIn => 5
      case DstIn => 6
      case SrcOut => 7
      case DstOut => 8
      case SrcATop => 9
      case DstATop => 10
      case Xor => 11
      case Plus => 12
      case Modulate => 13
      case Screen => 14
      case Overlay => 15
      case Darken => 16
      case Lighten => 17
      case ColorDodge => 18
      case ColorBurn => 19
      case HardLight => 20
      case SoftLight => 21
      case Difference => 22
      case Exclusion => 23
      case Multiply => 24
      case Hue => 25
      case Saturation => 26
      case Color => 27
      case Luminosity => 28
    }
  }

  /** `transmute` of a byte into the enum, for the discriminants the guard of `FromU8` lets through. */
  function Transmute(value: byte): BlendMode
    requires value <= Luminosity.Discriminant()
  {
    match value
    case 0 => Clear
    case 1 => Src
    case 2 => Dst
    case 3 => SrcOver
    case 4 => DstOver
    case 5 => SrcIn
    case 6 => DstIn
    case 7 => SrcOut
    case 8 => DstOut
    case 9 => SrcATop
    case 10 => DstATop
    case 11 => Xor
    case 12 => Plus
    case 13 => Modulate
    case 14 => Screen
    case 15 => Overlay
    case 16 => Darken
    case 17 => Lighten
    case 18 => ColorDodge
    case 19 => ColorBurn
    case 20 => HardLight
    case 21 => SoftLight
    case 22 => Difference
    case 23 => Exclusion
    case 24 => Multiply
    case 25 => Hue
    case 26 => Saturation
    case 27 => Color
    case _ => Luminosity
  }

  /**
   * `From<u8> for BlendMode`: a declared discriminant names its variant and
   * every other byte falls back to `Clear`. The lower bound of the guard,
   * `value >= Clear as u8`, holds for every byte.
   */
  function FromU8(value: byte): (r: BlendMode)
    ensures value <= 28 ==> r.Discriminant() == value
    ensures value > 28 ==> r == Clear
  {
    if value >= Clear.Discriminant() && value <= Luminosity.Discriminant() then Transmute(value) else Clear
  }

  /** Every variant decodes from its own discriminant, so distinct variants have distinct discriminants. */
  lemma RoundTrip(a: BlendMode, b: BlendMode)
    ensures FromU8(a.Discriminant()) == a
    ensures a.Discriminant() == b.Discriminant() ==> a == b
  {
    Decodes(a);
    Decodes(b);
  }

  /** One variant decoded from its own discriminant. */
  lemma Decodes(a: BlendMode)
    ensures FromU8(a.Discriminant()) == a
  {
  }
}
