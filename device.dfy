/**
 * A block backend as the drivers see it (floppy_drive/src/lib.rs and
 * hdd/src/lib.rs): a disk of bytes, a 32-bit size register, and `call_op`,
 * which hands one bulk operation to the device and reads back its status.
 * The MMIO marshalling (arguments written as f64 registers, the status read
 * back as f64) is not modelled, and neither is the conversion of a negative
 * status into the backend's error enum, which each disk adapter applies.
 */
module Devices {
  import opened Bytes
  import opened Wrappers
  import opened BulkOps

  /**
   * The device. Its disk holds `media`; `status` is what it answers to each
   * operation; `issued` records every operation sent, in order.
   */
  class BulkDevice {
    var media: seq<byte>
    const status: BulkOp -> i64
    ghost var issued: seq<BulkOp>

    /** The size register is 32 bits wide, and the device refuses every operation past the end of its disk. */
    ghost predicate Valid()
      reads this
    {
      |media| <= U32_MAX && Refuses(status, |media|)
    }

    constructor (media: seq<byte>, status: BulkOp -> i64)
      requires |media| <= U32_MAX && Refuses(status, |media|)
      ensures Valid()
      ensures this.media == media && this.status == status && issued == []
    {
      this.media := media;
      this.status := status;
      issued := [];
    }

    /** `size()`: the disk's byte count, read from the 32-bit size register. */
    method Size() returns (n: u32)
      requires Valid()
      ensures n == |media|
    {
      n := |media|;
    }

    /**
     * `call_op` on a `BulkWrite`: a negative status is reported as it is and
     * nothing is stored; otherwise the op's `size` bytes at its buffer
     * address are stored at device `address`.
     */
    method CallWrite(op: BulkOp, src: seq<byte>) returns (r: Result<i64, i64>)
      requires Valid() && op.BulkWrite? && op.srcAddress + op.size <= |src|
      modifies this
      ensures Valid()
      ensures issued == old(issued) + [op]
      ensures status(op) < 0 ==> r == Err(status(op)) && media == old(media)
      ensures status(op) >= 0 ==>
        && r == Ok(status(op))
        && op.address + op.size <= |old(media)|
        && media == Overwrite(old(media), op.address, src[op.srcAddress..op.srcAddress + op.size])
    {
      issued := issued + [op];
      var code := status(op);
      if code < 0 {
        return Err(code);
      }
      media := Overwrite(media, op.address, src[op.srcAddress..op.srcAddress + op.size]);
      return Ok(code);
    }

    /**
     * `call_op` on a `BulkRead`: a negative status is reported as it is and
     * the buffer is untouched; otherwise the device bytes at `address` are
     * copied to the op's buffer address.
     */
    method CallRead(op: BulkOp, dst: array<byte>) returns (r: Result<i64, i64>)
      requires Valid() && op.BulkRead? && op.dstAddress + op.size <= dst.Length
      modifies this, dst
      ensures Valid() && media == old(media)
      ensures issued == old(issued) + [op]
      ensures status(op) < 0 ==> r == Err(status(op)) && dst[..] == old(dst[..])
      ensures status(op) >= 0 ==>
        && r == Ok(status(op))
        && op.address + op.size <= |media|
        && dst[..] == Overwrite(old(dst[..]), op.dstAddress, media[op.address..op.address + op.size])
    {
      issued := issued + [op];
      var code := status(op);
      if code < 0 {
        return Err(code);
      }
      forall i | op.dstAddress <= i < op.dstAddress + op.size {
        dst[i] := media[op.address + (i - op.dstAddress)];
      }
      assert dst[..] == Overwrite(old(dst[..]), op.dstAddress, media[op.address..op.address + op.size]);
      return Ok(code);
    }
  }
}
