/** The error vocabulary shared by every disk (`DiskError` in disk/src/disk/mod.rs). */
module DiskErrors {

  /** The four variants, in declaration order; `derive(PartialOrd, Ord)` orders them so. */
  datatype DiskError = InvalidAddress | InvalidSize | DiskIsMissing | Unknown {

    /** Position in the declaration, which is what the derived ordering compares. */
    function Rank(): (k: nat)
      ensures k < 4
    {
      match this
      case InvalidAddress => 0
      case InvalidSize => 1
      case DiskIsMissing => 2
      case Unknown => 3
    }

    /** The derived `<`. */
    predicate Less(other: DiskError) {
      Rank() < other.Rank()
    }
  }

  /**
   * The derived order is a strict total order with
   * InvalidAddress < InvalidSize < DiskIsMissing < Unknown.
   */
  lemma DerivedOrder(a: DiskError, b: DiskError)
    ensures a.Less(b) || a == b || b.Less(a)
    ensures !(a.Less(b) && b.Less(a))
    ensures InvalidAddress.Less(InvalidSize) && InvalidSize.Less(DiskIsMissing) && DiskIsMissing.Less(Unknown)
  {
  }
}
