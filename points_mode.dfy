/** How the GPU draws a point buffer (gpu/src/points_mode.rs) and its decoding from a status word. */
module PointModes {
  import opened Bytes

  /** `#[repr(C)] enum PointMode`. */
  datatype PointMode = Points | Lines | Polygons {
    /** The declared discriminant. */
    function Discriminant(): i64 {
      match this
      case Points => 0
      case Lines => 1
      case Polygons => 2
    }
  }

  /**
   * `From<i64> for PointMode`: a `match` naming each code from 1 to 2,
   * with every other value, 0 and the negative codes included, falling to
   * `Points`. No `transmute` is involved.
   */
  function FromI64(value: i64): (r: PointMode)
    ensures 1 <= value <= 2 ==> r.Discriminant() == value
    ensures !(1 <= value <= 2) ==> r == Points
  {
    if value == 1 then Lines
    else if value == 2 then Polygons
    else Points
  }

  /** Every variant decodes from its own discriminant, so distinct variants have distinct discriminants. */
  lemma RoundTrip(a: PointMode, b: PointMode)
    ensures FromI64(a.Discriminant()) == a
    ensures a.Discriminant() == b.Discriminant() ==> a == b
  {
    assert FromI64(a.Discriminant()) == a && FromI64(b.Discriminant()) == b;
  }
}
