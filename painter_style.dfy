/** The GPU painter's drawing styles (gpu/src/painter_style.rs) and their decoding from a status word. */
module PainterStyles {
  import opened Bytes

  /** `#[repr(C)] enum PainterStyle`. */
  datatype PainterStyle = Fill | Stroke | StrokeAndFill {
    /** The declared discriminant. */
    function Discriminant(): i64 {
      match this
      case Fill => 0
      case Stroke => 1
      case StrokeAndFill => 2
    }
  }

  /**
   * `From<i64> for PainterStyle`: a `match` naming each code from 1 to 2,
   * with every other value, 0 and the negative codes included, falling to
   * `Fill`. No `transmute` is involved.
   */
  function FromI64(value: i64): (r: PainterStyle)
    ensures 1 <= value <= 2 ==> r.Discriminant() == value
    ensures !(1 <= value <= 2) ==> r == Fill
  {
    if value == 1 then Stroke
    else if value == 2 then StrokeAndFill
    else Fill
  }

  /** Every variant decodes from its own discriminant, so distinct variants have distinct discriminants. */
  lemma RoundTrip(a: PainterStyle, b: PainterStyle)
    ensures FromI64(a.Discriminant()) == a
    ensures a.Discriminant() == b.Discriminant() ==> a == b
  {
    assert FromI64(a.Discriminant()) == a && FromI64(b.Discriminant()) == b;
  }
}
