/** The image filter qualities of the GPU painter (gpu/src/filter_quality.rs) and their decoding from a status word. */
module FilterQualities {
  import opened Bytes

  /** `#[repr(C)] enum FilterQuality`. */
  datatype FilterQuality = None | Low | Medium | High {
    /** The declared discriminant. */
    function Discriminant(): i64 {
      match this
      case None => 0
      case Low => 1
      case Medium => 2
      case High => 3
    }
  }

  /**
   * `From<i64> for FilterQuality`: a `match` naming each code from 1 to 3,
   * with every other value, 0 and the negative codes included, falling to
   * `None`. No `transmute` is involved.
   */
  function FromI64(value: i64): (r: FilterQuality)
    ensures 1 <= value <= 3 ==> r.Discriminant() == value
    ensures !(1 <= value <= 3) ==> r == None
  {
    if value == 1 then Low
    else if value == 2 then Medium
    else if value == 3 then High
    else None
  }

  /** Every variant decodes from its own discriminant, so distinct variants have distinct discriminants. */
  lemma RoundTrip(a: FilterQuality, b: FilterQuality)
    ensures FromI64(a.Discriminant()) == a
    ensures a.Discriminant() == b.Discriminant() ==> a == b
  {
    assert FromI64(a.Discriminant()) == a && FromI64(b.Discriminant()) == b;
  }
}
