/** The font hinting levels of the GPU painter (gpu/src/hinting_level.rs) and their decoding from a status word. */
module HintingLevels {
  import opened Bytes

  /** `#[repr(C)] enum HintingLevel`. */
  datatype HintingLevel = NoHinting | Slight | Normal | Full {
    /** The declared discriminant. */
    function Discriminant(): i64 {
      match this
      case NoHinting => 0
      case Slight => 1
      case Normal => 2
      case Full => 3
    }
  }

  /**
   * `From<i64> for HintingLevel`: a `match` naming each code from 1 to 3,
   * with every other value, 0 and the negative codes included, falling to
   * `NoHinting`. No `transmute` is involved.
   */
  function FromI64(value: i64): (r: HintingLevel)
    ensures 1 <= value <= 3 ==> r.Discriminant() == value
    ensures !(1 <= value <= 3) ==> r == NoHinting
  {
    if value == 1 then Slight
    else if value == 2 then Normal
    else if value == 3 then Full
    else NoHinting
  }

  /** Every variant decodes from its own discriminant, so distinct variants have distinct discriminants. */
  lemma RoundTrip(a: HintingLevel, b: HintingLevel)
    ensures FromI64(a.Discriminant()) == a
    ensures a.Discriminant() == b.Discriminant() ==> a == b
  {
    assert FromI64(a.Discriminant()) == a && FromI64(b.Discriminant()) == b;
  }
}
