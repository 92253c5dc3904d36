/**
 * The hard disk backend (hdd/): its largest transfer, its error codes and
 * how a negative status is decoded into them, and its argument registers.
 */
module Hdds {
  import opened Bytes
  import opened BulkOps

  /** Largest transfer the disk accepts in one operation (hdd/src/lib.rs). */
  const MAX_READ_WRITE_SIZE: nat := 65536

  /** `#[repr(i64)] enum HddError`. */
  datatype HddError = InvalidAddress | InvalidSize | Unknown {
    /** The declared discriminant. */
    function Discriminant(): i64 {
      match this
      case InvalidAddress => -1
      case InvalidSize => -2
      case Unknown => 0xFF_FFFF
    }
  }

  /**
   * `transmute` of an i64 into the enum, for the declared discriminants. Only
   * the guard of `FromCode` could lead here, and no value passes it.
   */
  function Transmute(value: i64): HddError {
    if value == -1 then InvalidAddress
    else if value == -2 then InvalidSize
    else Unknown
  }

  /**
   * `From<i64> for HddError`. The guard asks for a value at least -1 and at
   * most -2, which no value is, so every code decodes to `Unknown`, the
   * declared codes -1 and -2 included.
   */
  function FromCode(value: i64): (e: HddError)
    ensures e == Unknown
  {
    if value >= InvalidAddress.Discriminant() && value <= InvalidSize.Discriminant() then Transmute(value)
    else Unknown
  }

  /** `enum HddOp`: the bulk operation shared with the floppy backend. */
  type HddOp = BulkOp

  /** MMIO offset of the first argument register. */
  const ARGUMENTS_OFFSET: nat := 0x100

  /** `#[repr(u8)] enum HddArgument`: the ten argument registers. */
  datatype HddArgument = Arg0 | Arg1 | Arg2 | Arg3 | Arg4 | Arg5 | Arg6 | Arg7 | Arg8 | Arg9 {
    /** The declared discriminant, 0 for Arg0 up to 9 for Arg9. */
    function Index(): (i: nat)
      ensures i <= 9
    {
      match this
      case Arg0 => 0 case Arg1 => 1 case Arg2 => 2 case Arg3 => 3 case Arg4 => 4
      case Arg5 => 5 case Arg6 => 6 case Arg7 => 7 case Arg8 => 8 case Arg9 => 9
    }

    /** `offset()`: the register's MMIO offset, one after another from ARGUMENTS_OFFSET. */
    function Offset(): (o: nat)
      ensures ARGUMENTS_OFFSET <= o <= ARGUMENTS_OFFSET + 9
      ensures o == ARGUMENTS_OFFSET + Index()
    {
      Index() + ARGUMENTS_OFFSET
    }
  }

  /** `transmute` of a byte into the enum, for the declared discriminants. */
  function TransmuteArgument(value: byte): HddArgument
    requires value <= 9
  {
    match value
    case 0 => Arg0 case 1 => Arg1 case 2 => Arg2 case 3 => Arg3 case 4 => Arg4
    case 5 => Arg5 case 6 => Arg6 case 7 => Arg7 case 8 => Arg8 case _ => Arg9
  }

  /** `From<u8> for HddArgument`: a declared discriminant names its register; any other byte falls back to Arg0. */
  function FromU8(value: byte): (a: HddArgument)
    ensures value <= 9 ==> a.Index() == value
    ensures value > 9 ==> a == Arg0
  {
    if value >= Arg0.Index() && value <= Arg9.Index() then TransmuteArgument(value) else Arg0
  }

  /**
   * Decoding a register's own discriminant gives it back, distinct registers
   * have distinct offsets, and the registers run from 0x100 (Arg0) to 0x109 (Arg9).
   */
  lemma ArgumentRoundTrip(a: HddArgument, b: HddArgument)
    ensures FromU8(a.Index()) == a
    ensures a.Offset() == b.Offset() ==> a == b
    ensures Arg0.Offset() == 0x100 && Arg9.Offset() == 0x109
  {
  }
}
