/** The errors the GPU reports (gpu/src/gpu_error.rs) and their decoding from a negative status. */
module GpuErrors {
  import opened Bytes

  /** `#[repr(C)] enum GpuError`. */
  datatype GpuError = NotInitialized | InvalidSize | UnknownBuffer | InvalidBuffer | NotEnoughMemory | Unknown {
    /** The declared discriminant. */
    function Discriminant(): i64 {
      match this
      case NotInitialized => -1
      case InvalidSize => -2
      case UnknownBuffer => -3
      case InvalidBuffer => -4
      case NotEnoughMemory => -5
      case Unknown => 0xFF_FFFF
    }
  }

  /**
   * `From<i64> for GpuError`: a `match` naming each code from -5 to -1,
   * with every other value, 0xFF_FFFF (the discriminant of Unknown) included, falling to
   * `Unknown`. No `transmute` is involved.
   */
  function FromI64(value: i64): (r: GpuError)
    ensures -5 <= value <= -1 ==> r.Discriminant() == value
    ensures !(-5 <= value <= -1) ==> r == Unknown
  {
    if value == -1 then NotInitialized
    else if value == -2 then InvalidSize
    else if value == -3 then UnknownBuffer
    else if value == -4 then InvalidBuffer
    else if value == -5 then NotEnoughMemory
    else Unknown
  }

  /** Every variant decodes from its own discriminant, so distinct variants have distinct discriminants. */
  lemma RoundTrip(a: GpuError, b: GpuError)
    ensures FromI64(a.Discriminant()) == a
    ensures a.Discriminant() == b.Discriminant() ==> a == b
  {
    assert FromI64(a.Discriminant()) == a && FromI64(b.Discriminant()) == b;
  }
}
