/**
 * The two `Disk` implementations, `FloppyDisk` (disk/src/disk/floppy_disk.rs)
 * and `HddDisk` (disk/src/disk/hdd_disk.rs). Their transfer loops are the
 * same but for the backend they drive and the way its errors are translated,
 * so they are modelled by one class whose `backend` says which of the two it
 * is. (The hard disk's `read_inner` takes its destination as `&[u8]`, not
 * `&mut [u8]`, and `HddDisk` derives `Clone`; the class does not tell the two
 * apart there: both read into a mutable array.) Each
 * transfer is cut into chunks of at most the backend's largest transfer, one
 * bulk operation per chunk, and the loops are proved against the
 * chunked-transfer specification of module Chunking.
 */
module MediaDisks {
  import opened Bytes
  import opened Wrappers
  import opened DiskErrors
  import opened BulkOps
  import opened Devices
  import opened Chunking
  import opened Partitions
  import FloppyDrives
  import Hdds

  /** Which adapter: `FloppyDisk` over a floppy drive or `HddDisk` over a hard disk. */
  datatype Backend = Floppy | Hdd {
    /** The backend's MAX_READ_WRITE_SIZE, the chunk size of every transfer. */
    function MaxTransfer(): (n: nat)
      ensures n > 0
    {
      match this
      case Floppy => FloppyDrives.MAX_READ_WRITE_SIZE
      case Hdd => Hdds.MAX_READ_WRITE_SIZE
    }
  }

  /** The `map_err` closure of the floppy adapter's `write_inner` and `read_inner`. */
  function MapFloppyError(e: FloppyDrives.FloppyDriveError): (d: DiskError)
    ensures d == DiskIsMissing <==> e == FloppyDrives.FloppyDriveIsEmpty
    ensures d == InvalidAddress <==> e == FloppyDrives.InvalidAddress
    ensures d == InvalidSize <==> e == FloppyDrives.InvalidSize
  {
    match e
    case InvalidAddress => DiskError.InvalidAddress
    case InvalidSize => DiskError.InvalidSize
    case FloppyDriveIsEmpty => DiskError.DiskIsMissing
    case Unknown => DiskError.Unknown
  }

  /** The `map_err` closure of the hard disk adapter: `DiskIsMissing` is never produced. */
  function MapHddError(e: Hdds.HddError): (d: DiskError)
    ensures d != DiskIsMissing
    ensures d == InvalidAddress <==> e == Hdds.InvalidAddress
    ensures d == InvalidSize <==> e == Hdds.InvalidSize
  {
    match e
    case InvalidAddress => DiskError.InvalidAddress
    case InvalidSize => DiskError.InvalidSize
    case Unknown => DiskError.Unknown
  }

  /**
   * What a negative status becomes at the disk: the backend's `From<i64>`
   * (applied by its `call_op`), then the adapter's translation. Because both
   * decoders always answer `Unknown`, so does this.
   */
  function Translate(backend: Backend, code: i64): (d: DiskError)
    ensures d == DiskError.Unknown
  {
    match backend
    case Floppy => MapFloppyError(FloppyDrives.FromCode(code))
    case Hdd => MapHddError(Hdds.FromCode(code))
  }

  /**
   * A backend result at the disk (the `map_err` before every `?`): the value
   * is kept, a failing status is translated.
   */
  function Lift<T>(backend: Backend, r: Result<T, i64>): (d: Result<T, DiskError>)
    ensures d.Ok? <==> r.Ok?
    ensures d.Ok? ==> d.value == r.value
    ensures d.Err? ==> d.error == Translate(backend, r.error) == DiskError.Unknown
  {
    match r
    case Ok(v) => Ok(v)
    case Err(code) => Err(Translate(backend, code))
  }

  class MediaDisk {
    const backend: Backend
    const device: BulkDevice

    /** `FloppyDisk::new` / `HddDisk::new`. */
    constructor (backend: Backend, device: BulkDevice)
      ensures this.backend == backend && this.device == device
    {
      this.backend := backend;
      this.device := device;
    }

    ghost predicate Valid()
      reads device
    {
      device.Valid()
    }

    /** `write_inner`: one bulk write of src[lo..hi]; success reports the chunk length, whatever the device answered. */
    method WriteInner(address: nat, src: seq<byte>, lo: nat, hi: nat) returns (r: Result<nat, DiskError>)
      requires Valid() && lo <= hi <= |src|
      modifies device
      ensures Valid()
      ensures var op := BulkWrite(address, hi - lo, lo);
        && device.issued == old(device.issued) + [op]
        && (device.status(op) < 0 ==> r == Err(Translate(backend, device.status(op))) && device.media == old(device.media))
        && (device.status(op) >= 0 ==>
              && r == Ok(hi - lo)
              && address + (hi - lo) <= |old(device.media)|
              && device.media == Overwrite(old(device.media), address, src[lo..hi]))
    {
      var res := device.CallWrite(BulkWrite(address, hi - lo, lo), src);
      match res
      case Err(code) => return Err(Translate(backend, code));
      case Ok(_) => return Ok(hi - lo);
    }

    /** `read_inner`: one bulk read into dst[lo..hi]; success reports the chunk length. */
    method ReadInner(address: nat, dst: array<byte>, lo: nat, hi: nat) returns (r: Result<nat, DiskError>)
      requires Valid() && lo <= hi <= dst.Length
      modifies device, dst
      ensures Valid() && device.media == old(device.media)
      ensures var op := BulkRead(address, hi - lo, lo);
        && device.issued == old(device.issued) + [op]
        && (device.status(op) < 0 ==> r == Err(Translate(backend, device.status(op))) && dst[..] == old(dst[..]))
        && (device.status(op) >= 0 ==>
              && r == Ok(hi - lo)
              && address + (hi - lo) <= |device.media|
              && dst[..] == Overwrite(old(dst[..]), lo, device.media[address..address + (hi - lo)]))
    {
      var res := device.CallRead(BulkRead(address, hi - lo, lo), dst);
      match res
      case Err(code) => return Err(Translate(backend, code));
      case Ok(_) => return Ok(hi - lo);
    }

    /**
     * The write loop's invariant at buffer position `pos`: `bytes` counted
     * and `done` issued so far, `log` the device's log before the transfer,
     * and `whole` the specified transfer from position 0, which is what is
     * done so far followed by the specified transfer from `pos` on.
     */
    ghost predicate WriteLoop(address: nat, src: seq<byte>, pos: nat, bytes: nat, done: seq<BulkOp>,
                              log: seq<BulkOp>, whole: WriteOutcome)
      reads device
    {
      && Valid() && pos <= |src|
      && whole == AfterWrites(bytes, done, ChunkedWrite(device.status, backend.MaxTransfer(), device.media, address, src, pos))
      && device.issued == log + done
    }

    /**
     * One turn of the write loop: `write_inner` on the chunk starting at
     * `pos`. Success keeps the loop invariant at the next chunk; failure
     * leaves the device as the whole transfer specifies.
     */
    method WriteChunk(address: nat, src: seq<byte>, pos: nat, ghost bytes: nat, ghost done: seq<BulkOp>,
                      ghost log: seq<BulkOp>, ghost whole: WriteOutcome)
        returns (n: Result<nat, DiskError>, end: nat)
      requires WriteLoop(address, src, pos, bytes, done, log, whole) && pos < |src|
      modifies device
      ensures pos < end <= |src|
      ensures n.Ok? ==>
        && n.value == end - pos
        && WriteLoop(address, src, end, bytes + n.value, done + [BulkWrite(address, end - pos, pos)], log, whole)
      ensures n.Err? ==>
        && Valid() && n == Lift(backend, whole.result)
        && device.media == whole.media && device.issued == log + whole.issued
    {
      end := ChunkEnd(|src|, pos, backend.MaxTransfer());
      ghost var op := BulkWrite(address, end - pos, pos);
      WriteStep(device.status, backend.MaxTransfer(), device.media, address, src, pos);
      n := WriteInner(address, src, pos, end);
      if n.Ok? {
        AfterWritesTwice(bytes, done, end - pos, [op], ChunkedWrite(device.status, backend.MaxTransfer(), device.media, address, src, end));
      } else {
        assert done + [op] == (done + [op]) + [];
      }
    }

    /**
     * `Disk::write`: one `write_inner` per chunk of `src`, every one at the
     * same `address`, adding up the lengths and stopping at the first error.
     */
    method Write(address: nat, src: seq<byte>) returns (r: Result<nat, DiskError>)
      requires Valid()
      modifies device
      ensures Valid()
      ensures var o := ChunkedWrite(device.status, backend.MaxTransfer(), old(device.media), address, src, 0);
        && r == Lift(backend, o.result)
        && device.media == o.media
        && device.issued == old(device.issued) + o.issued
    {
      ghost var whole := ChunkedWrite(device.status, backend.MaxTransfer(), device.media, address, src, 0);
      ghost var done: seq<BulkOp> := [];
      var bytesWrote: nat := 0;
      var pos: nat := 0;
      while pos < |src|
        invariant WriteLoop(address, src, pos, bytesWrote, done, old(device.issued), whole)
        decreases |src| - pos
      {
        var n, end := WriteChunk(address, src, pos, bytesWrote, done, old(device.issued), whole);
        if n.Err? {
          return n;
        }
        done := done + [BulkWrite(address, end - pos, pos)];
        bytesWrote := bytesWrote + n.value;
        pos := end;
      }
      return Ok(bytesWrote);
    }

    /**
     * The read loop's invariant at buffer position `pos`, as `WriteLoop`;
     * besides, the device's disk is still `media`, the buffer before `pos`
     * holds what the chunks so far read and from `pos` on still holds `init`,
     * its contents before the transfer.
     */
    ghost predicate ReadLoop(address: nat, dst: array<byte>, pos: nat, bytes: nat, done: seq<BulkOp>,
                             log: seq<BulkOp>, media: seq<byte>, init: seq<byte>, whole: ReadOutcome)
      reads device, dst
    {
      && Valid() && pos <= dst.Length && |init| == dst.Length && device.media == media
      && whole == AfterReads(bytes, dst[..pos], done, ChunkedRead(device.status, backend.MaxTransfer(), media, address, dst.Length, pos))
      && dst[pos..] == init[pos..]
      && device.issued == log + done
    }

    /** One turn of the read loop: `read_inner` on the chunk starting at `pos`, as `WriteChunk`. */
    method ReadChunk(address: nat, dst: array<byte>, pos: nat, ghost bytes: nat, ghost done: seq<BulkOp>,
                     ghost log: seq<BulkOp>, ghost media: seq<byte>, ghost init: seq<byte>, ghost whole: ReadOutcome)
        returns (n: Result<nat, DiskError>, end: nat)
      requires ReadLoop(address, dst, pos, bytes, done, log, media, init, whole) && pos < dst.Length
      modifies device, dst
      ensures pos < end <= dst.Length
      ensures n.Ok? ==>
        && n.value == end - pos
        && ReadLoop(address, dst, end, bytes + n.value, done + [BulkRead(address, end - pos, pos)], log, media, init, whole)
      ensures n.Err? ==>
        && Valid() && device.media == media && n == Lift(backend, whole.result)
        && dst[..] == whole.filled + init[|whole.filled|..] && device.issued == log + whole.issued
    {
      end := ChunkEnd(dst.Length, pos, backend.MaxTransfer());
      ghost var op := BulkRead(address, end - pos, pos);
      ghost var before := dst[..];
      ReadStep(device.status, backend.MaxTransfer(), media, address, dst.Length, pos);
      n := ReadInner(address, dst, pos, end);
      if n.Ok? {
        ghost var chunk := media[address..address + (end - pos)];
        AfterReadsTwice(bytes, before[..pos], done, end - pos, chunk, [op],
                        ChunkedRead(device.status, backend.MaxTransfer(), media, address, dst.Length, end));
        assert dst[..end] == before[..pos] + chunk;
        assert dst[end..] == init[end..] by {
          assert before[pos..][end - pos..] == before[end..];
        }
      } else {
        assert dst[..] == before[..pos] + [] + init[pos..];
        assert done + [op] == (done + [op]) + [];
      }
    }

    /**
     * `Disk::read`: one `read_inner` per chunk of `dst`, every one from the
     * same `address`, adding up the lengths and stopping at the first error.
     * The buffer then holds what the successful chunks read, the rest of it
     * untouched.
     */
    method Read(address: nat, dst: array<byte>) returns (r: Result<nat, DiskError>)
      requires Valid()
      modifies device, dst
      ensures Valid() && device.media == old(device.media)
      ensures var o := ChunkedRead(device.status, backend.MaxTransfer(), device.media, address, dst.Length, 0);
        && r == Lift(backend, o.result)
        && dst[..] == o.filled + old(dst[..])[|o.filled|..]
        && device.issued == old(device.issued) + o.issued
    {
      ghost var whole := ChunkedRead(device.status, backend.MaxTransfer(), device.media, address, dst.Length, 0);
      ghost var done: seq<BulkOp> := [];
      var bytesRead: nat := 0;
      var pos: nat := 0;
      while pos < dst.Length
        invariant ReadLoop(address, dst, pos, bytesRead, done, old(device.issued), old(device.media), old(dst[..]), whole)
        decreases dst.Length - pos
      {
        var n, end := ReadChunk(address, dst, pos, bytesRead, done, old(device.issued), old(device.media), old(dst[..]), whole);
        if n.Err? {
          return n;
        }
        done := done + [BulkRead(address, end - pos, pos)];
        bytesRead := bytesRead + n.value;
        pos := end;
      }
      assert dst[..] == dst[..pos];
      return Ok(bytesRead);
    }

    /** `Disk::size`: the backend's 32-bit size widened to `usize`, read anew on every call. */
    method Size() returns (n: usize)
      requires Valid()
      ensures n == |device.media|
    {
      var s := device.Size();
      n := s;
    }

    /** `Partitionable::start` of a disk: a disk starts at byte 0. */
    function Start(): (s: usize)
      ensures s == 0
    {
      0
    }

    /** `Partitionable::end` of a disk: its size. */
    method End() returns (e: usize)
      requires Valid()
      ensures e == |device.media|
    {
      e := Size();
    }

    /** `Partitionable::as_partition` of a disk: the partition covering the whole disk. */
    method AsPartition() returns (p: Partition)
      requires Valid()
      ensures p.Start() == 0 && p.End() == |device.media|
    {
      var e := End();
      p := New(Start(), e);
    }
  }
}
