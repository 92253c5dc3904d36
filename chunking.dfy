/**
 * The chunked transfer both disk adapters perform (disk/src/disk/floppy_disk.rs
 * and disk/src/disk/hdd_disk.rs have the same two loops): the caller's buffer
 * is split as `slice::chunks(max)` splits it, one backend bulk operation is
 * issued per chunk, the chunk lengths are added up, and the first failing
 * chunk ends the transfer. Every chunk is issued at the caller's `address`;
 * only the buffer position moves.
 *
 * The device is described by `status`, what it answers to each operation
 * (negative = failure), and `max`, its largest transfer. A failed transfer
 * is specified by the failing status code; each adapter translates that code
 * into a `DiskError`.
 */
module Chunking {
  import opened Bytes
  import opened Wrappers
  import opened BulkOps

  /** End of the chunk starting at `pos` when `len` elements are cut into pieces of at most `max`. */
  function ChunkEnd(len: nat, pos: nat, max: nat): (e: nat)
    requires pos < len && max > 0
    ensures pos < e <= len && e - pos <= max
    ensures e < len ==> e == pos + max
  {
    if pos + max < len then pos + max else len
  }

  /** The number of pieces `slice::chunks(max)` yields for `len` elements: one per `max`, the last possibly shorter. */
  function ChunkCount(len: nat, max: nat): nat
    requires max > 0
    decreases len
  {
    if len == 0 then 0 else if len <= max then 1 else 1 + ChunkCount(len - max, max)
  }

  /** Start of the last chunk at or after `pos`. */
  function LastChunkStart(len: nat, pos: nat, max: nat): (s: nat)
    requires pos < len && max > 0
    ensures pos <= s < len && len - s <= max
    decreases len - pos
  {
    if pos + max < len then LastChunkStart(len, pos + max, max) else pos
  }

  /** Buffer position of the k-th chunk after `pos`: pos + k * max, written without multiplication. */
  function ChunkAt(pos: nat, k: nat, max: nat): nat
    decreases k
  {
    if k == 0 then pos else ChunkAt(pos + max, k - 1, max)
  }

  lemma {:induction false} ChunkAtIsLinear(pos: nat, k: nat, max: nat)
    ensures ChunkAt(pos, k, max) == pos + k * max
    decreases k
  {
    if k > 0 {
      ChunkAtIsLinear(pos + max, k - 1, max);
      assert (k - 1) * max + max == k * max;
    }
  }

  /**
   * What a buffer of `len` bytes holds from `pos` on after every chunk of it
   * was read from the same device `address`: each chunk holds the device
   * bytes at `address`, as many as the chunk is long.
   */
  function SameAddressImage(media: seq<byte>, address: nat, len: nat, pos: nat, max: nat): (s: seq<byte>)
    requires max > 0 && pos <= len
    requires pos < len ==> address + (ChunkEnd(len, pos, max) - pos) <= |media|
    ensures |s| == len - pos
    decreases len - pos
  {
    if pos == len then []
    else
      var end := ChunkEnd(len, pos, max);
      media[address..address + (end - pos)] + SameAddressImage(media, address, len, end, max)
  }

  /** The image starts with the device bytes at `address` and then repeats with period `max`. */
  lemma {:induction false} SameAddressImageRepeats(media: seq<byte>, address: nat, len: nat, pos: nat, max: nat)
    requires max > 0 && pos <= len
    requires pos < len ==> address + (ChunkEnd(len, pos, max) - pos) <= |media|
    ensures var s := SameAddressImage(media, address, len, pos, max);
      && (forall i :: 0 <= i < |s| && i < max ==> s[i] == media[address + i])
      && (forall i :: max <= i < |s| ==> s[i] == s[i - max])
    decreases len - pos
  {
    if pos < len {
      var end := ChunkEnd(len, pos, max);
      var s := SameAddressImage(media, address, len, pos, max);
      SameAddressImageRepeats(media, address, len, end, max);
      assert var t := SameAddressImage(media, address, len, end, max);
        && (forall j :: 0 <= j < |t| && j < max ==> t[j] == media[address + j])
        && (forall j :: max <= j < |t| ==> t[j] == t[j - max]);
      var t := SameAddressImage(media, address, len, end, max);
      assert s == media[address..address + (end - pos)] + t;
      forall i | max <= i < |s|
        ensures s[i] == s[i - max]
      {
        assert end - pos == max;
        assert s[i] == t[i - max];
        if i - max >= max {
          assert s[i - max] == t[i - max - max];
        }
      }
    }
  }

  /** `bytes += n` applied to a running result; an error stays the error. */
  function AddBytes(r: Result<nat, i64>, n: nat): Result<nat, i64> {
    match r
    case Ok(v) => Ok(v + n)
    case Err(e) => Err(e)
  }

  /** Adding twice is adding the sum. */
  lemma AddBytesTwice(r: Result<nat, i64>, a: nat, b: nat)
    ensures AddBytes(AddBytes(r, b), a) == AddBytes(r, a + b)
  {
  }

  /** What a chunked write did: the result returned, the device bytes afterwards, the operations issued. */
  datatype WriteOutcome = WriteOutcome(result: Result<nat, i64>, media: seq<byte>, issued: seq<BulkOp>)

  /**
   * What a chunked read did: the result returned, the bytes the successful
   * chunks placed into the buffer from the start position on, and the
   * operations issued.
   */
  datatype ReadOutcome = ReadOutcome(result: Result<nat, i64>, filled: seq<byte>, issued: seq<BulkOp>)

  /** The write loop from buffer position `pos` on, against a device holding `media`. */
  ghost function ChunkedWrite(status: BulkOp -> i64, max: nat, media: seq<byte>, address: nat, src: seq<byte>, pos: nat): (o: WriteOutcome)
    requires max > 0 && Refuses(status, |media|)
    ensures |o.media| == |media|
    decreases |src| - pos
  {
    if pos >= |src| then WriteOutcome(Ok(0), media, [])
    else
      var end := ChunkEnd(|src|, pos, max);
      var op := BulkWrite(address, end - pos, pos);
      if status(op) < 0 then WriteOutcome(Err(status(op)), media, [op])
      else
        var rest := ChunkedWrite(status, max, Overwrite(media, address, src[pos..end]), address, src, end);
        WriteOutcome(AddBytes(rest.result, end - pos), rest.media, [op] + rest.issued)
  }

  /**
   * The read loop from buffer position `pos` on, for a buffer of `len` bytes
   * and a device holding `media`. A refused chunk keeps what the chunks before
   * it placed.
   */
  ghost function ChunkedRead(status: BulkOp -> i64, max: nat, media: seq<byte>, address: nat, len: nat, pos: nat): (o: ReadOutcome)
    requires max > 0 && Refuses(status, |media|) && pos <= len
    ensures pos + |o.filled| <= len
    ensures o.result.Ok? ==> pos + |o.filled| == len
    decreases len - pos
  {
    if pos == len then ReadOutcome(Ok(0), [], [])
    else
      var end := ChunkEnd(len, pos, max);
      var op := BulkRead(address, end - pos, pos);
      if status(op) < 0 then ReadOutcome(Err(status(op)), [], [op])
      else
        var rest := ChunkedRead(status, max, media, address, len, end);
        ReadOutcome(AddBytes(rest.result, end - pos), media[address..address + (end - pos)] + rest.filled, [op] + rest.issued)
  }

  /**
   * A write seen from an earlier position: `bytes` already counted and
   * `done` already issued before the transfer `rest` that follows.
   */
  function AfterWrites(bytes: nat, done: seq<BulkOp>, rest: WriteOutcome): WriteOutcome {
    WriteOutcome(AddBytes(rest.result, bytes), rest.media, done + rest.issued)
  }

  lemma AfterWritesTwice(b1: nat, d1: seq<BulkOp>, b2: nat, d2: seq<BulkOp>, rest: WriteOutcome)
    ensures AfterWrites(b1, d1, AfterWrites(b2, d2, rest)) == AfterWrites(b1 + b2, d1 + d2, rest)
  {
    assert d1 + (d2 + rest.issued) == (d1 + d2) + rest.issued;
  }

  /**
   * A read seen from an earlier position: `bytes` already counted, `filled`
   * already placed and `done` already issued before the transfer `rest`.
   */
  function AfterReads(bytes: nat, filled: seq<byte>, done: seq<BulkOp>, rest: ReadOutcome): ReadOutcome {
    ReadOutcome(AddBytes(rest.result, bytes), filled + rest.filled, done + rest.issued)
  }

  lemma AfterReadsTwice(b1: nat, f1: seq<byte>, d1: seq<BulkOp>, b2: nat, f2: seq<byte>, d2: seq<BulkOp>, rest: ReadOutcome)
    ensures AfterReads(b1, f1, d1, AfterReads(b2, f2, d2, rest)) == AfterReads(b1 + b2, f1 + f2, d1 + d2, rest)
  {
    assert d1 + (d2 + rest.issued) == (d1 + d2) + rest.issued;
    assert f1 + (f2 + rest.filled) == (f1 + f2) + rest.filled;
  }

  /** One step of the write loop: the chunk at `pos` either fails, ending the transfer, or is stored and the loop goes on. */
  lemma WriteStep(status: BulkOp -> i64, max: nat, media: seq<byte>, address: nat, src: seq<byte>, pos: nat)
    requires max > 0 && Refuses(status, |media|) && pos < |src|
    ensures var end := ChunkEnd(|src|, pos, max);
      var op := BulkWrite(address, end - pos, pos);
      var o := ChunkedWrite(status, max, media, address, src, pos);
      && (status(op) < 0 ==> o == WriteOutcome(Err(status(op)), media, [op]))
      && (status(op) >= 0 ==>
            && address + (end - pos) <= |media|
            && o == AfterWrites(end - pos, [op], ChunkedWrite(status, max, Overwrite(media, address, src[pos..end]), address, src, end)))
  {
  }

  /** One step of the read loop: the chunk at `pos` either fails, ending the transfer, or is read and the loop goes on. */
  lemma ReadStep(status: BulkOp -> i64, max: nat, media: seq<byte>, address: nat, len: nat, pos: nat)
    requires max > 0 && Refuses(status, |media|) && pos < len
    ensures var end := ChunkEnd(len, pos, max);
      var op := BulkRead(address, end - pos, pos);
      var o := ChunkedRead(status, max, media, address, len, pos);
      && (status(op) < 0 ==> o == ReadOutcome(Err(status(op)), [], [op]))
      && (status(op) >= 0 ==>
            && address + (end - pos) <= |media|
            && o == AfterReads(end - pos, media[address..address + (end - pos)], [op], ChunkedRead(status, max, media, address, len, end)))
  {
  }

  /** The piece count is ceil(len / max), the count `slice::chunks` documents. */
  lemma {:induction false} ChunkCountIsCeil(len: nat, max: nat)
    requires max > 0
    ensures ChunkCount(len, max) == (len + max - 1) / max
    decreases len
  {
    if len == 0 {
      DivUnique(max - 1, max, 0, max - 1);
    } else if len <= max {
      DivUnique(len + max - 1, max, 1, len - 1);
    } else {
      ChunkCountIsCeil(len - max, max);
      var y := len - 1;
      var q, r := y / max, y % max;
      assert (q + 1) * max == q * max + max;
      DivUnique(y + max, max, q + 1, r);
      assert len - max + max - 1 == y;
    }
  }

  /** On success the reported count is the sum of the chunk lengths, i.e. every byte of src[pos..]. */
  lemma {:induction false} WriteReportsLength(status: BulkOp -> i64, max: nat, media: seq<byte>, address: nat, src: seq<byte>, pos: nat)
    requires max > 0 && Refuses(status, |media|) && pos <= |src|
    ensures var o := ChunkedWrite(status, max, media, address, src, pos);
      o.result.Ok? ==> o.result.value == |src| - pos
    decreases |src| - pos
  {
    if pos < |src| {
      var end := ChunkEnd(|src|, pos, max);
      if status(BulkWrite(address, end - pos, pos)) >= 0 {
        WriteReportsLength(status, max, Overwrite(media, address, src[pos..end]), address, src, end);
      }
    }
  }

  /** How many operations a write issues: ceil((|src| - pos) / max) on success, no more on failure. */
  lemma {:induction false} WriteIssuesChunkCount(status: BulkOp -> i64, max: nat, media: seq<byte>, address: nat, src: seq<byte>, pos: nat)
    requires max > 0 && Refuses(status, |media|) && pos <= |src|
    ensures var o := ChunkedWrite(status, max, media, address, src, pos);
      && |o.issued| <= ChunkCount(|src| - pos, max)
      && (o.result.Ok? ==> |o.issued| == ChunkCount(|src| - pos, max))
    decreases |src| - pos
  {
    if pos < |src| {
      var end := ChunkEnd(|src|, pos, max);
      if status(BulkWrite(address, end - pos, pos)) >= 0 {
        WriteIssuesChunkCount(status, max, Overwrite(media, address, src[pos..end]), address, src, end);
      }
    }
  }

  /**
   * The k-th operation a write issues carries the k-th chunk: its length, its
   * buffer position ChunkAt(pos, k) = pos + k * max, and always the same
   * device `address`.
   */
  lemma {:induction false} WriteIssuesChunkInOrder(status: BulkOp -> i64, max: nat, media: seq<byte>, address: nat, src: seq<byte>, pos: nat)
    requires max > 0 && Refuses(status, |media|) && pos <= |src|
    ensures var o := ChunkedWrite(status, max, media, address, src, pos);
      forall k :: 0 <= k < |o.issued| ==>
        var at := ChunkAt(pos, k, max);
        at < |src| && o.issued[k] == BulkWrite(address, ChunkEnd(|src|, at, max) - at, at)
    decreases |src| - pos
  {
    if pos < |src| {
      var end := ChunkEnd(|src|, pos, max);
      var op := BulkWrite(address, end - pos, pos);
      if status(op) >= 0 {
        var m' := Overwrite(media, address, src[pos..end]);
        WriteIssuesChunkInOrder(status, max, m', address, src, end);
        var o := ChunkedWrite(status, max, media, address, src, pos);
        var rest := ChunkedWrite(status, max, m', address, src, end);
        assert o.issued == [op] + rest.issued;
        assert end == |src| ==> rest.issued == [];
        forall k | 1 <= k < |o.issued|
          ensures ChunkAt(pos, k, max) == ChunkAt(end, k - 1, max)
          ensures o.issued[k] == rest.issued[k - 1]
        {
        }
      }
    }
  }

  /**
   * A run of operations that stops at the first refusal: every operation
   * before the last one was accepted, a failed run ends with the refused
   * operation and reports its code, and the run succeeds exactly when every
   * operation was accepted.
   */
  ghost predicate StopsAtFirstFailure(status: BulkOp -> i64, issued: seq<BulkOp>, result: Result<nat, i64>) {
    && (forall k :: 0 <= k < |issued| - 1 ==> status(issued[k]) >= 0)
    && (result.Err? ==> issued != [] && status(issued[|issued| - 1]) < 0
                        && result.error == status(issued[|issued| - 1]))
    && (result.Ok? <==> forall k :: 0 <= k < |issued| ==> status(issued[k]) >= 0)
  }

  /** An accepted operation in front of such a run, with the run's outcome, is such a run. */
  lemma StopsAtFirstFailureCons(status: BulkOp -> i64, op: BulkOp, rest: seq<BulkOp>, r: Result<nat, i64>, n: nat)
    requires status(op) >= 0 && StopsAtFirstFailure(status, rest, r)
    ensures StopsAtFirstFailure(status, [op] + rest, AddBytes(r, n))
  {
    var issued := [op] + rest;
    assert forall k :: 1 <= k < |issued| ==> issued[k] == rest[k - 1];
    if r.Err? {
      assert issued[|issued| - 1] == rest[|rest| - 1];
    }
  }

  /**
   * The transfer fails exactly when some operation is refused; that refused
   * operation is then the last one issued, every earlier one succeeded, and
   * the result is its translated code.
   */
  lemma {:induction false} WriteStopsAtFirstFailure(status: BulkOp -> i64, max: nat, media: seq<byte>, address: nat, src: seq<byte>, pos: nat)
    requires max > 0 && Refuses(status, |media|)
    ensures var o := ChunkedWrite(status, max, media, address, src, pos);
      StopsAtFirstFailure(status, o.issued, o.result)
    decreases |src| - pos
  {
    if pos < |src| {
      var end := ChunkEnd(|src|, pos, max);
      var op := BulkWrite(address, end - pos, pos);
      if status(op) >= 0 {
        var m' := Overwrite(media, address, src[pos..end]);
        WriteStopsAtFirstFailure(status, max, m', address, src, end);
        var rest := ChunkedWrite(status, max, m', address, src, end);
        StopsAtFirstFailureCons(status, op, rest.issued, rest.result, end - pos);
      }
    }
  }

  /**
   * A buffer of at most one chunk is one operation: on success the device
   * holds the bytes at `address`, on failure it is unchanged.
   */
  lemma WriteSingleChunk(status: BulkOp -> i64, max: nat, media: seq<byte>, address: nat, src: seq<byte>)
    requires max > 0 && Refuses(status, |media|) && 0 < |src| <= max
    ensures var o := ChunkedWrite(status, max, media, address, src, 0);
      && o.issued == [BulkWrite(address, |src|, 0)]
      && (o.result.Ok? ==> address + |src| <= |media| && o.media == Overwrite(media, address, src))
      && (o.result.Err? ==> o.media == media)
  {
    assert src[0..|src|] == src;
  }

  /**
   * With several chunks every chunk lands on the same device bytes, so after
   * a successful write the bytes at `address` are those of the LAST chunk,
   * not the start of `src`.
   */
  lemma {:induction false} WriteLastChunkWins(status: BulkOp -> i64, max: nat, media: seq<byte>, address: nat, src: seq<byte>, pos: nat)
    requires max > 0 && Refuses(status, |media|) && pos < |src|
    ensures var o := ChunkedWrite(status, max, media, address, src, pos);
      var last := LastChunkStart(|src|, pos, max);
      o.result.Ok? ==> address + (|src| - last) <= |media| && o.media[address..address + (|src| - last)] == src[last..]
    decreases |src| - pos
  {
    var end := ChunkEnd(|src|, pos, max);
    if status(BulkWrite(address, end - pos, pos)) >= 0 {
      var m' := Overwrite(media, address, src[pos..end]);
      if end < |src| {
        WriteLastChunkWins(status, max, m', address, src, end);
      } else {
        assert ChunkedWrite(status, max, m', address, src, end).media == m';
      }
    }
  }

  /** On success the reported count is every byte of the buffer from `pos` on. */
  lemma {:induction false} ReadReportsLength(status: BulkOp -> i64, max: nat, media: seq<byte>, address: nat, len: nat, pos: nat)
    requires max > 0 && Refuses(status, |media|) && pos <= len
    ensures var o := ChunkedRead(status, max, media, address, len, pos);
      o.result.Ok? ==> o.result.value == len - pos
    decreases len - pos
  {
    if pos < len {
      var end := ChunkEnd(len, pos, max);
      if status(BulkRead(address, end - pos, pos)) >= 0 {
        ReadReportsLength(status, max, media, address, len, end);
      }
    }
  }

  /** How many operations a read issues: ceil((len - pos) / max) on success, no more on failure. */
  lemma {:induction false} ReadIssuesChunkCount(status: BulkOp -> i64, max: nat, media: seq<byte>, address: nat, len: nat, pos: nat)
    requires max > 0 && Refuses(status, |media|) && pos <= len
    ensures var o := ChunkedRead(status, max, media, address, len, pos);
      && |o.issued| <= ChunkCount(len - pos, max)
      && (o.result.Ok? ==> |o.issued| == ChunkCount(len - pos, max))
    decreases len - pos
  {
    if pos < len {
      var end := ChunkEnd(len, pos, max);
      if status(BulkRead(address, end - pos, pos)) >= 0 {
        ReadIssuesChunkCount(status, max, media, address, len, end);
      }
    }
  }

  /** The k-th read operation fills the k-th chunk, at buffer position pos + k * max, from the same device `address`. */
  lemma {:induction false} ReadIssuesChunkInOrder(status: BulkOp -> i64, max: nat, media: seq<byte>, address: nat, len: nat, pos: nat)
    requires max > 0 && Refuses(status, |media|) && pos <= len
    ensures var o := ChunkedRead(status, max, media, address, len, pos);
      forall k :: 0 <= k < |o.issued| ==>
        var at := ChunkAt(pos, k, max);
        at < len && o.issued[k] == BulkRead(address, ChunkEnd(len, at, max) - at, at)
    decreases len - pos
  {
    if pos < len {
      var end := ChunkEnd(len, pos, max);
      var op := BulkRead(address, end - pos, pos);
      if status(op) >= 0 {
        ReadIssuesChunkInOrder(status, max, media, address, len, end);
        var o := ChunkedRead(status, max, media, address, len, pos);
        var rest := ChunkedRead(status, max, media, address, len, end);
        assert o.issued == [op] + rest.issued;
        assert end == len ==> rest.issued == [];
        forall k | 1 <= k < |o.issued|
          ensures ChunkAt(pos, k, max) == ChunkAt(end, k - 1, max)
          ensures o.issued[k] == rest.issued[k - 1]
        {
        }
      }
    }
  }

  /** The read fails exactly when some operation is refused, the last one issued, and reports its translated code. */
  lemma {:induction false} ReadStopsAtFirstFailure(status: BulkOp -> i64, max: nat, media: seq<byte>, address: nat, len: nat, pos: nat)
    requires max > 0 && Refuses(status, |media|) && pos <= len
    ensures var o := ChunkedRead(status, max, media, address, len, pos);
      StopsAtFirstFailure(status, o.issued, o.result)
    decreases len - pos
  {
    if pos < len {
      var end := ChunkEnd(len, pos, max);
      var op := BulkRead(address, end - pos, pos);
      if status(op) >= 0 {
        ReadStopsAtFirstFailure(status, max, media, address, len, end);
        var rest := ChunkedRead(status, max, media, address, len, end);
        StopsAtFirstFailureCons(status, op, rest.issued, rest.result, end - pos);
      }
    }
  }


  /**
   * What a successful read places in the buffer from `pos` on: the device
   * bytes at `address` once per chunk, because every chunk is read from the
   * same `address`.
   */
  lemma {:induction false} ReadFillsFromSameAddress(status: BulkOp -> i64, max: nat, media: seq<byte>, address: nat, len: nat, pos: nat)
    requires max > 0 && Refuses(status, |media|) && pos <= len
    ensures var o := ChunkedRead(status, max, media, address, len, pos);
      o.result.Ok? ==>
        && (pos < len ==> address + (ChunkEnd(len, pos, max) - pos) <= |media|)
        && o.filled == SameAddressImage(media, address, len, pos, max)
    decreases len - pos
  {
    if pos < len {
      var end := ChunkEnd(len, pos, max);
      if status(BulkRead(address, end - pos, pos)) >= 0 {
        ReadFillsFromSameAddress(status, max, media, address, len, end);
      }
    }
  }


  /** A buffer of at most one chunk is one operation; on success it holds device bytes [address, address + len). */
  lemma ReadSingleChunk(status: BulkOp -> i64, max: nat, media: seq<byte>, address: nat, len: nat)
    requires max > 0 && Refuses(status, |media|) && 0 < len <= max
    ensures var o := ChunkedRead(status, max, media, address, len, 0);
      && o.issued == [BulkRead(address, len, 0)]
      && (o.result.Ok? ==> address + len <= |media| && o.filled == media[address..address + len])
      && (o.result.Err? ==> o.filled == [])
  {
    var o := ChunkedRead(status, max, media, address, len, 0);
    if o.result.Ok? {
      assert o.filled == media[address..address + len] + [];
    }
  }
}
