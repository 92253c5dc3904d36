/** The errors the network hub reports (net_hub/src/net_hub_error.rs) and their decoding from a negative status. */
module NetHubErrors {
  import opened Bytes

  /** `#[repr(i64)] enum NetHubError`. */
  datatype NetHubError = InvalidPort | InvalidPortMode | InvalidSize | Unknown {
    /** The declared discriminant. */
    function Discriminant(): i64 {
      match this
      case InvalidPort => -1
      case InvalidPortMode => -2
      case InvalidSize => -3
      case Unknown => 0xFF_FFFF
    }
  }

  /**
   * `transmute` of an i64 into the enum, for the declared discriminants. Only
   * the guard of `FromI64` could lead here, and no value passes that guard.
   */
  function Transmute(value: i64): NetHubError {
    if value == -1 then InvalidPort
    else if value == -2 then InvalidPortMode
    else if value == -3 then InvalidSize
    else Unknown
  }

  /**
   * `From<i64> for NetHubError`. The guard asks for a value at least -1 and
   * at most -3, which no value is, so every code decodes to `Unknown`: the
   * declared codes -1, -2 and -3 never produce their variants, and the
   * `transmute` is never reached.
   */
  function FromI64(value: i64): (e: NetHubError)
    ensures e == Unknown
  {
    if value >= InvalidPort.Discriminant() && value <= InvalidSize.Discriminant() then Transmute(value)
    else Unknown
  }

  /** The guard of `FromI64` is empty: it is no test of the declared codes. */
  lemma GuardEmpty(value: i64)
    ensures !(value >= InvalidPort.Discriminant() && value <= InvalidSize.Discriminant())
    ensures Transmute(InvalidPort.Discriminant()) == InvalidPort && FromI64(InvalidPort.Discriminant()) == Unknown
  {
  }
}
