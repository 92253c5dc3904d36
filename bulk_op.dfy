/**
 * The bulk operation both block backends understand (floppy_drive/src/floppy_drive_op.rs
 * and hdd/src/hdd_op.rs declare the same enum twice, with the same variants
 * and the same ids), and what a well-behaved device answers to it.
 */
module BulkOps {
  import opened Bytes

  /**
   * `FloppyDriveOp` / `HddOp`: a transfer of `size` bytes between device
   * `address` and the caller's buffer. The buffer pointer is modelled as the
   * position of the chunk in the caller's buffer.
   */
  datatype BulkOp =
    | BulkRead(address: nat, size: nat, dstAddress: nat)
    | BulkWrite(address: nat, size: nat, srcAddress: nat)
  {
    /** `id()`: the opcode written to the CALL_OP register. */
    function Id(): (id: u32)
      ensures id == 0 <==> BulkRead?
      ensures id == 1 <==> BulkWrite?
    {
      match this
      case BulkRead(_, _, _) => 0x0
      case BulkWrite(_, _, _) => 0x1
    }

    /** The buffer address `call_op` passes as its third argument, whichever the variant. */
    function Pointer(): (p: nat)
      ensures p == (if BulkRead? then dstAddress else srcAddress)
    {
      match this
      case BulkRead(_, _, dst) => dst
      case BulkWrite(_, _, src) => src
    }
  }

  /** The id tells the two variants apart and depends on nothing else. */
  lemma IdsDistinct(a: BulkOp, b: BulkOp)
    ensures a.Id() == b.Id() <==> a.BulkRead? == b.BulkRead?
  {
  }

  /**
   * A device whose answers are `status` (negative = failure) and whose disk
   * holds `size` bytes refuses every operation that reaches past the end.
   */
  ghost predicate Refuses(status: BulkOp -> i64, size: nat) {
    forall op: BulkOp :: op.address + op.size > size ==> status(op) < 0
  }
}
