/** The GPU's argument registers (gpu/src/gpu_argument.rs). */
module GpuArguments {

  /** MMIO offset of the first argument register. */
  const ARGUMENTS_OFFSET: nat := 0x100

  /** `enum GpuArgument`: the ten argument registers. */
  datatype GpuArgument = Arg0 | Arg1 | Arg2 | Arg3 | Arg4 | Arg5 | Arg6 | Arg7 | Arg8 | Arg9 {
    /** The register's number, the `match` of `offset()`. */
    function Index(): nat {
      match this
      case Arg0 => 0 case Arg1 => 1 case Arg2 => 2 case Arg3 => 3 case Arg4 => 4
      case Arg5 => 5 case Arg6 => 6 case Arg7 => 7 case Arg8 => 8 case Arg9 => 9
    }

    /** `offset()`: the register's number past ARGUMENTS_OFFSET. */
    function Offset(): (o: nat)
      ensures ARGUMENTS_OFFSET <= o <= ARGUMENTS_OFFSET + 9
      ensures o - ARGUMENTS_OFFSET == Index()
    {
      Index() + ARGUMENTS_OFFSET
    }
  }

  /** The argument with a given number. */
  function Numbered(n: nat): (a: GpuArgument)
    requires n <= 9
    ensures a.Index() == n
  {
    match n
    case 0 => Arg0 case 1 => Arg1 case 2 => Arg2 case 3 => Arg3 case 4 => Arg4
    case 5 => Arg5 case 6 => Arg6 case 7 => Arg7 case 8 => Arg8 case _ => Arg9
  }

  /**
   * The offsets are 0x100 to 0x109, one argument each: distinct arguments
   * have distinct offsets, and every offset in that range belongs to one.
   */
  lemma OffsetsBijective(a: GpuArgument, b: GpuArgument, o: nat)
    ensures a.Offset() == b.Offset() ==> a == b
    ensures ARGUMENTS_OFFSET <= o <= ARGUMENTS_OFFSET + 9 ==> Numbered(o - ARGUMENTS_OFFSET).Offset() == o
    ensures Arg0.Offset() == 0x100 && Arg9.Offset() == 0x109
  {
  }
}
