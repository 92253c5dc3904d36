/**
 * The floppy drive backend (floppy_drive/): its largest transfer, its error
 * codes and how a negative status is decoded into them.
 */
module FloppyDrives {
  import opened Bytes
  import opened BulkOps

  /** Largest transfer the drive accepts in one operation (floppy_drive/src/lib.rs). */
  const MAX_READ_WRITE_SIZE: nat := 65536

  /** `#[repr(i64)] enum FloppyDriveError`. */
  datatype FloppyDriveError = InvalidAddress | InvalidSize | FloppyDriveIsEmpty | Unknown {
    /** The declared discriminant. */
    function Discriminant(): i64 {
      match this
      case InvalidAddress => -1
      case InvalidSize => -2
      case FloppyDriveIsEmpty => -3
      case Unknown => 0xFF_FFFF
    }
  }

  /**
   * `transmute` of an i64 into the enum, for the declared discriminants. Only
   * the guard of `FromCode` could lead here, and no value passes that guard,
   * so the value chosen for an undeclared discriminant is never observed.
   */
  function Transmute(value: i64): FloppyDriveError {
    if value == -1 then InvalidAddress
    else if value == -2 then InvalidSize
    else if value == -3 then FloppyDriveIsEmpty
    else Unknown
  }

  /**
   * `From<i64> for FloppyDriveError`. The guard asks for a value at least -1
   * and at most -3, which no value is, so every code decodes to `Unknown`,
   * the declared codes -1, -2 and -3 included.
   */
  function FromCode(value: i64): (e: FloppyDriveError)
    ensures e == Unknown
  {
    if value >= InvalidAddress.Discriminant() && value <= FloppyDriveIsEmpty.Discriminant() then Transmute(value)
    else Unknown
  }

  /** `enum FloppyDriveOp`: the bulk operation shared with the hard disk backend. */
  type FloppyDriveOp = BulkOp
}
