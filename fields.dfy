/**
 * The field-by-field transfers of the partition table (disk/src/partitions/sgpt.rs):
 * a run of `offset += disk.write(offset, field)?` or
 * `offset += disk.read(offset, &mut field)?` statements, each at the offset
 * the previous ones advanced by the count the disk returned, the first
 * error ending the run. Every field there is at most 128 bytes, far below
 * either backend's largest transfer, so each field is one operation:
 * `FieldWrite` and `FieldRead` are a one-chunk `Disk::write` and
 * `Disk::read`, `WriteAll` and `ReadAll` specify a run of them, and `Put`
 * and `Get` are one statement of a run on a disk.
 */
module FieldIo {
  import opened Bytes
  import opened Wrappers
  import opened DiskErrors
  import opened BulkOps
  import opened Devices
  import opened Chunking
  import opened MediaDisks

  /** The fields laid end to end. */
  function Flatten(fields: seq<seq<byte>>): seq<byte>
    decreases |fields|
  {
    if fields == [] then [] else fields[0] + Flatten(fields[1..])
  }

  /** The total of the sizes. */
  function Sum(sizes: seq<nat>): nat
    decreases |sizes|
  {
    if sizes == [] then 0 else sizes[0] + Sum(sizes[1..])
  }

  /** The fields have the given sizes, one each. */
  predicate Shaped(fields: seq<seq<byte>>, sizes: seq<nat>) {
    |fields| == |sizes| && forall i :: 0 <= i < |fields| ==> |fields[i]| == sizes[i]
  }

  /** `disk.write(offset, field)` for a field of one chunk: one operation, from buffer position 0. */
  ghost function FieldWrite(status: BulkOp -> i64, media: seq<byte>, offset: nat, field: seq<byte>): (o: WriteOutcome)
    requires Refuses(status, |media|)
    ensures |o.media| == |media|
  {
    var op := BulkWrite(offset, |field|, 0);
    if status(op) < 0 then WriteOutcome(Err(status(op)), media, [op])
    else WriteOutcome(Ok(|field|), Overwrite(media, offset, field), [op])
  }

  /** `disk.read(offset, &mut field)` for a field of `size` bytes, one chunk. */
  ghost function FieldRead(status: BulkOp -> i64, media: seq<byte>, offset: nat, size: nat): (o: ReadOutcome)
    requires Refuses(status, |media|)
  {
    var op := BulkRead(offset, size, 0);
    if status(op) < 0 then ReadOutcome(Err(status(op)), [], [op])
    else ReadOutcome(Ok(size), media[offset..offset + size], [op])
  }

  /** A field of one chunk is written by the chunked write exactly as `FieldWrite` says. */
  lemma WriteOfOneChunk(status: BulkOp -> i64, max: nat, media: seq<byte>, offset: nat, field: seq<byte>)
    requires max > 0 && Refuses(status, |media|) && 0 < |field| <= max
    ensures ChunkedWrite(status, max, media, offset, field, 0) == FieldWrite(status, media, offset, field)
  {
    assert field[0..|field|] == field;
  }

  /** A field of one chunk is read by the chunked read exactly as `FieldRead` says. */
  lemma ReadOfOneChunk(status: BulkOp -> i64, max: nat, media: seq<byte>, offset: nat, size: nat)
    requires max > 0 && Refuses(status, |media|) && 0 < size <= max
    ensures ChunkedRead(status, max, media, offset, size, 0) == FieldRead(status, media, offset, size)
  {
    var o := ChunkedRead(status, max, media, offset, size, 0);
    if o.result.Ok? {
      assert o.filled == media[offset..offset + size] + [];
    }
  }

  /** A run of field writes starting at `offset`: the result counts the bytes written. */
  ghost function WriteAll(status: BulkOp -> i64, media: seq<byte>, offset: nat, fields: seq<seq<byte>>): (o: WriteOutcome)
    requires Refuses(status, |media|)
    ensures |o.media| == |media|
    decreases |fields|
  {
    if fields == [] then WriteOutcome(Ok(0), media, [])
    else
      var first := FieldWrite(status, media, offset, fields[0]);
      if first.result.Err? then first
      else AfterWrites(|fields[0]|, first.issued, WriteAll(status, first.media, offset + |fields[0]|, fields[1..]))
  }

  /** What a run of field reads did: the fields read, or the failing status, and the operations issued. */
  datatype ReadsOutcome = ReadsOutcome(result: Result<seq<seq<byte>>, i64>, issued: seq<BulkOp>)

  /** A run of field reads starting at `offset`, one field of each size. */
  ghost function ReadAll(status: BulkOp -> i64, media: seq<byte>, offset: nat, sizes: seq<nat>): (o: ReadsOutcome)
    requires Refuses(status, |media|)
    decreases |sizes|
  {
    if sizes == [] then ReadsOutcome(Ok([]), [])
    else
      var first := FieldRead(status, media, offset, sizes[0]);
      if first.result.Err? then ReadsOutcome(Err(first.result.error), first.issued)
      else AfterReadsAll([first.filled], first.issued, ReadAll(status, media, offset + sizes[0], sizes[1..]))
  }

  /** A run of reads seen from an earlier point: `got` already read and `done` already issued before `rest`. */
  function AfterReadsAll(got: seq<seq<byte>>, done: seq<BulkOp>, rest: ReadsOutcome): ReadsOutcome {
    match rest.result
    case Ok(vs) => ReadsOutcome(Ok(got + vs), done + rest.issued)
    case Err(c) => ReadsOutcome(Err(c), done + rest.issued)
  }

  lemma AfterReadsAllTwice(g1: seq<seq<byte>>, d1: seq<BulkOp>, g2: seq<seq<byte>>, d2: seq<BulkOp>, rest: ReadsOutcome)
    ensures AfterReadsAll(g1, d1, AfterReadsAll(g2, d2, rest)) == AfterReadsAll(g1 + g2, d1 + d2, rest)
  {
    assert d1 + (d2 + rest.issued) == (d1 + d2) + rest.issued;
    if rest.result.Ok? {
      assert g1 + (g2 + rest.result.value) == (g1 + g2) + rest.result.value;
    }
  }

  /** A run's result at the disk: `Ok(())`, or the failing status translated. */
  function Done(backend: Backend, r: Result<nat, i64>): (d: Result<Unit, DiskError>)
    ensures d.Ok? <==> r.Ok?
    ensures d.Err? ==> d.error == Translate(backend, r.error)
  {
    match r
    case Ok(_) => Ok(Unit)
    case Err(code) => Err(Translate(backend, code))
  }

  /**
   * A successful run of field writes stores the fields end to end from
   * `offset` and counts every byte of them.
   */
  lemma {:induction false} WriteAllLays(status: BulkOp -> i64, media: seq<byte>, offset: nat, fields: seq<seq<byte>>)
    requires Refuses(status, |media|) && fields != []
    ensures var o := WriteAll(status, media, offset, fields);
      o.result.Ok? ==>
        && o.result.value == |Flatten(fields)|
        && offset + |Flatten(fields)| <= |media|
        && o.media == Overwrite(media, offset, Flatten(fields))
    decreases |fields|
  {
    var o := WriteAll(status, media, offset, fields);
    if o.result.Ok? {
      var f := fields[0];
      var first := FieldWrite(status, media, offset, f);
      var rest := WriteAll(status, first.media, offset + |f|, fields[1..]);
      assert first.result.Ok? && rest.result.Ok?;
      assert o.result.value == |f| + rest.result.value && o.media == rest.media;
      assert Flatten(fields) == f + Flatten(fields[1..]);
      if fields[1..] == [] {
        assert Flatten(fields) == f;
      } else {
        WriteAllLays(status, first.media, offset + |f|, fields[1..]);
        OverwriteConsecutive(media, offset, f, Flatten(fields[1..]));
      }
    }
  }

  /**
   * A run of field writes issues one operation per field until the first
   * refused one, whose status it reports: all of them on success, on failure
   * the refused one last.
   */
  lemma {:induction false} WriteAllStopsAtFailure(status: BulkOp -> i64, media: seq<byte>, offset: nat, fields: seq<seq<byte>>)
    requires Refuses(status, |media|)
    ensures var o := WriteAll(status, media, offset, fields);
      && |o.issued| <= |fields|
      && (o.result.Ok? ==> |o.issued| == |fields|)
      && (o.result.Err? ==> o.issued != [] && o.result.error == status(o.issued[|o.issued| - 1]) < 0)
    decreases |fields|
  {
    if fields != [] {
      var first := FieldWrite(status, media, offset, fields[0]);
      if first.result.Ok? {
        var rest := WriteAll(status, first.media, offset + |fields[0]|, fields[1..]);
        WriteAllStopsAtFailure(status, first.media, offset + |fields[0]|, fields[1..]);
        assert WriteAll(status, media, offset, fields).issued == first.issued + rest.issued;
      }
    }
  }

  /** Every operation a run of field writes issues before its last one was accepted, and on success the last one too. */
  lemma {:induction false} WriteAllAcceptedBefore(status: BulkOp -> i64, media: seq<byte>, offset: nat, fields: seq<seq<byte>>, k: nat)
    requires Refuses(status, |media|)
    requires var o := WriteAll(status, media, offset, fields); k < |o.issued| && (o.result.Ok? || k < |o.issued| - 1)
    ensures status(WriteAll(status, media, offset, fields).issued[k]) >= 0
    decreases |fields|
  {
    var first := FieldWrite(status, media, offset, fields[0]);
    var o := WriteAll(status, media, offset, fields);
    if k > 0 {
      var rest := WriteAll(status, first.media, offset + |fields[0]|, fields[1..]);
      assert o.issued == first.issued + rest.issued && o.result.Ok? == rest.result.Ok?;
      WriteAllAcceptedBefore(status, first.media, offset + |fields[0]|, fields[1..], k - 1);
    }
  }

  /** A successful run of field reads returns the device bytes laid end to end from `offset`. */
  lemma {:induction false} ReadAllSlices(status: BulkOp -> i64, media: seq<byte>, offset: nat, sizes: seq<nat>)
    requires Refuses(status, |media|) && sizes != []
    ensures var o := ReadAll(status, media, offset, sizes);
      o.result.Ok? ==>
        && offset + Sum(sizes) <= |media|
        && Flatten(o.result.value) == media[offset..offset + Sum(sizes)]
    decreases |sizes|
  {
    var o := ReadAll(status, media, offset, sizes);
    if o.result.Ok? {
      var n := sizes[0];
      ReadAllCons(status, media, offset, sizes);
      var vs := ReadAll(status, media, offset + n, sizes[1..]).result.value;
      assert o.result.value == [media[offset..offset + n]] + vs;
      assert Sum(sizes) == n + Sum(sizes[1..]);
      if sizes[1..] == [] {
        assert Flatten(vs) == [];
        FlattenCons(media[offset..offset + n], vs);
        assert media[offset..offset + n] + [] == media[offset..offset + n];
      } else {
        ReadAllSlices(status, media, offset + n, sizes[1..]);
        ConsSlice(media, offset, n, Sum(sizes[1..]), vs);
      }
    }
  }

  /** A successful run of reads is its first field, the device bytes at `offset`, followed by the run after it. */
  lemma ReadAllCons(status: BulkOp -> i64, media: seq<byte>, offset: nat, sizes: seq<nat>)
    requires Refuses(status, |media|) && sizes != []
    ensures var o := ReadAll(status, media, offset, sizes);
      var rest := ReadAll(status, media, offset + sizes[0], sizes[1..]);
      o.result.Ok? ==>
        && offset + sizes[0] <= |media| && rest.result.Ok?
        && o.result.value == [media[offset..offset + sizes[0]]] + rest.result.value
  {
  }

  lemma FlattenCons(f: seq<byte>, vs: seq<seq<byte>>)
    ensures Flatten([f] + vs) == f + Flatten(vs)
  {
    assert ([f] + vs)[1..] == vs;
  }

  /** The bytes at `offset` followed by fields laid out right after them lay out the bytes from `offset` on. */
  lemma ConsSlice(media: seq<byte>, offset: nat, n: nat, t: nat, vs: seq<seq<byte>>)
    requires offset + n + t <= |media| && Flatten(vs) == media[offset + n..offset + n + t]
    ensures Flatten([media[offset..offset + n]] + vs) == media[offset..offset + n + t]
  {
    FlattenCons(media[offset..offset + n], vs);
    assert media[offset..offset + n + t] == media[offset..offset + n] + media[offset + n..offset + n + t];
  }

  /** A successful run of field reads returns one field of each size. */
  lemma {:induction false} ReadAllLengths(status: BulkOp -> i64, media: seq<byte>, offset: nat, sizes: seq<nat>)
    requires Refuses(status, |media|)
    ensures var o := ReadAll(status, media, offset, sizes);
      o.result.Ok? ==> Shaped(o.result.value, sizes)
    decreases |sizes|
  {
    var o := ReadAll(status, media, offset, sizes);
    if sizes != [] && o.result.Ok? {
      var first := FieldRead(status, media, offset, sizes[0]);
      var rest := ReadAll(status, media, offset + sizes[0], sizes[1..]);
      ReadAllLengths(status, media, offset + sizes[0], sizes[1..]);
      var vs := o.result.value;
      assert vs == [first.filled] + rest.result.value;
      forall i | 1 <= i < |vs|
        ensures |vs[i]| == sizes[i]
      {
        assert vs[i] == rest.result.value[i - 1] && sizes[i] == sizes[1..][i - 1];
      }
    }
  }

  /**
   * A run of field reads issues one operation per field until the first
   * refused one, whose status it reports: all of them on success, on failure
   * the refused one last.
   */
  lemma {:induction false} ReadAllStopsAtFailure(status: BulkOp -> i64, media: seq<byte>, offset: nat, sizes: seq<nat>)
    requires Refuses(status, |media|)
    ensures var o := ReadAll(status, media, offset, sizes);
      && |o.issued| <= |sizes|
      && (o.result.Ok? ==> |o.issued| == |sizes|)
      && (o.result.Err? ==> o.issued != [] && o.result.error == status(o.issued[|o.issued| - 1]) < 0)
    decreases |sizes|
  {
    if sizes != [] {
      var first := FieldRead(status, media, offset, sizes[0]);
      if first.result.Ok? {
        var rest := ReadAll(status, media, offset + sizes[0], sizes[1..]);
        ReadAllStopsAtFailure(status, media, offset + sizes[0], sizes[1..]);
        assert ReadAll(status, media, offset, sizes).issued == first.issued + rest.issued;
      }
    }
  }

  /** Every operation a run of field reads issues before its last one was accepted, and on success the last one too. */
  lemma {:induction false} ReadAllAcceptedBefore(status: BulkOp -> i64, media: seq<byte>, offset: nat, sizes: seq<nat>, k: nat)
    requires Refuses(status, |media|)
    requires var o := ReadAll(status, media, offset, sizes); k < |o.issued| && (o.result.Ok? || k < |o.issued| - 1)
    ensures status(ReadAll(status, media, offset, sizes).issued[k]) >= 0
    decreases |sizes|
  {
    var first := FieldRead(status, media, offset, sizes[0]);
    var o := ReadAll(status, media, offset, sizes);
    if k > 0 {
      var rest := ReadAll(status, media, offset + sizes[0], sizes[1..]);
      assert o.issued == first.issued + rest.issued && o.result.Ok? == rest.result.Ok?;
      ReadAllAcceptedBefore(status, media, offset + sizes[0], sizes[1..], k - 1);
    }
  }

  /** Fields of the same sizes laid out the same are the same fields. */
  lemma {:induction false} FlattenInjective(a: seq<seq<byte>>, b: seq<seq<byte>>, sizes: seq<nat>)
    requires Shaped(a, sizes) && Shaped(b, sizes) && Flatten(a) == Flatten(b)
    ensures a == b
    decreases |a|
  {
    if a != [] {
      var n := |a[0]|;
      assert |b[0]| == n;
      assert Flatten(a) == a[0] + Flatten(a[1..]) && Flatten(b) == b[0] + Flatten(b[1..]);
      assert a[0] == Flatten(a)[..n] && b[0] == Flatten(b)[..n];
      assert Flatten(a[1..]) == Flatten(a)[n..] && Flatten(b[1..]) == Flatten(b)[n..];
      assert Shaped(a[1..], sizes[1..]) by {
        forall i | 0 <= i < |a[1..]| ensures |a[1..][i]| == sizes[1..][i] {
          assert a[1..][i] == a[i + 1];
        }
      }
      assert Shaped(b[1..], sizes[1..]) by {
        forall i | 0 <= i < |b[1..]| ensures |b[1..][i]| == sizes[1..][i] {
          assert b[1..][i] == b[i + 1];
        }
      }
      FlattenInjective(a[1..], b[1..], sizes[1..]);
      assert a == [a[0]] + a[1..] && b == [b[0]] + b[1..];
    }
  }

  /**
   * Fields written successfully and read back successfully, with the sizes
   * they were written with, from the same offset, are the fields written.
   */
  lemma WriteThenRead(status: BulkOp -> i64, media: seq<byte>, offset: nat, fields: seq<seq<byte>>, sizes: seq<nat>)
    requires Refuses(status, |media|) && fields != [] && Shaped(fields, sizes)
    ensures var w := WriteAll(status, media, offset, fields);
      var o := ReadAll(status, w.media, offset, sizes);
      w.result.Ok? && o.result.Ok? ==> o.result.value == fields
  {
    var w := WriteAll(status, media, offset, fields);
    var o := ReadAll(status, w.media, offset, sizes);
    if w.result.Ok? && o.result.Ok? {
      var flat := Flatten(fields);
      WriteAllLays(status, media, offset, fields);
      FlattenLength(fields, sizes);
      assert w.media[offset..offset + Sum(sizes)] == flat;
      ReadAllSlices(status, w.media, offset, sizes);
      ReadAllLengths(status, w.media, offset, sizes);
      assert Flatten(o.result.value) == flat;
      FlattenInjective(o.result.value, fields, sizes);
    }
  }

  /** Fields laid out as zero bytes are each zero bytes. */
  lemma {:induction false} ZeroedFields(fields: seq<seq<byte>>)
    requires Zeroed(Flatten(fields))
    ensures forall k :: 0 <= k < |fields| ==> Zeroed(fields[k])
    decreases |fields|
  {
    if fields != [] {
      var flat := Flatten(fields);
      assert flat == fields[0] + Flatten(fields[1..]);
      assert Zeroed(fields[0]) by {
        forall i | 0 <= i < |fields[0]| ensures fields[0][i] == 0 {
          assert flat[i] == fields[0][i];
        }
      }
      assert Zeroed(Flatten(fields[1..])) by {
        forall i | 0 <= i < |Flatten(fields[1..])| ensures Flatten(fields[1..])[i] == 0 {
          assert flat[|fields[0]| + i] == Flatten(fields[1..])[i];
        }
      }
      ZeroedFields(fields[1..]);
      forall k | 0 <= k < |fields| ensures Zeroed(fields[k]) {
        if k > 0 {
          assert fields[k] == fields[1..][k - 1];
        }
      }
    }
  }

  /** The sizes add up to the length of the laid-out fields. */
  lemma {:induction false} FlattenLength(fields: seq<seq<byte>>, sizes: seq<nat>)
    requires Shaped(fields, sizes)
    ensures |Flatten(fields)| == Sum(sizes)
    decreases |fields|
  {
    if fields != [] {
      assert Shaped(fields[1..], sizes[1..]) by {
        forall i | 0 <= i < |fields[1..]| ensures |fields[1..][i]| == sizes[1..][i] {
          assert fields[1..][i] == fields[i + 1];
        }
      }
      FlattenLength(fields[1..], sizes[1..]);
    }
  }

  /**
   * The state of a run of field writes on `disk` at `offset`, with `rest`
   * still to write: `bytes` counted and `done` issued so far, `log` the
   * device's log before the run, `whole` the specified run from its start.
   */
  ghost predicate Writing(disk: MediaDisk, offset: nat, rest: seq<seq<byte>>, bytes: nat, done: seq<BulkOp>,
                          log: seq<BulkOp>, whole: WriteOutcome)
    reads disk.device
  {
    && disk.Valid()
    && whole == AfterWrites(bytes, done, WriteAll(disk.device.status, disk.device.media, offset, rest))
    && disk.device.issued == log + done
  }

  /** A run of field writes with nothing left to write has succeeded with what it wrote. */
  lemma WritingDone(disk: MediaDisk, offset: nat, bytes: nat, done: seq<BulkOp>, log: seq<BulkOp>, whole: WriteOutcome)
    requires Writing(disk, offset, [], bytes, done, log, whole)
    ensures whole.result == Ok(bytes) && disk.device.media == whole.media && disk.device.issued == log + whole.issued
  {
  }

  /**
   * `offset += disk.write(offset, src)?`: one field write. Success gives the
   * advanced offset, and `count'` adds the bytes written to `count`.
   */
  method Put(disk: MediaDisk, offset: nat, src: seq<byte>, ghost rest: seq<seq<byte>>, ghost count: nat,
             ghost done: seq<BulkOp>, ghost log: seq<BulkOp>, ghost whole: WriteOutcome)
      returns (r: Result<nat, DiskError>, ghost count': nat, ghost done': seq<BulkOp>)
    requires rest != [] && rest[0] == src && 0 < |src| <= disk.backend.MaxTransfer()
    requires Writing(disk, offset, rest, count, done, log, whole)
    modifies disk.device
    ensures r.Ok? ==> r.value == offset + |src| && count' == count + |src|
    ensures r.Ok? ==> Writing(disk, r.value, rest[1..], count', done', log, whole)
    ensures r.Err? ==>
      && disk.Valid() && whole.result.Err? && r.error == Translate(disk.backend, whole.result.error)
      && disk.device.media == whole.media && disk.device.issued == log + whole.issued
  {
    ghost var status, media := disk.device.status, disk.device.media;
    ghost var first := FieldWrite(status, media, offset, src);
    WriteOfOneChunk(status, disk.backend.MaxTransfer(), media, offset, src);
    var w := disk.Write(offset, src);
    done', count' := done + first.issued, count + |src|;
    if w.Err? {
      return Err(w.error), count', done';
    }
    ghost var after := WriteAll(status, first.media, offset + |src|, rest[1..]);
    assert disk.device.media == first.media && disk.device.status == status;
    assert WriteAll(status, media, offset, rest) == AfterWrites(|src|, first.issued, after);
    AfterWritesTwice(count, done, |src|, first.issued, after);
    return Ok(offset + w.value), count', done';
  }

  /**
   * The state of a run of field reads on `disk` at `offset`, with `rest`
   * still to read: `got` read and `done` issued so far, `log` the device's
   * log before the run, `media` its (unchanged) disk, `whole` the specified
   * run from its start.
   */
  ghost predicate Reading(disk: MediaDisk, offset: nat, rest: seq<nat>, got: seq<seq<byte>>, done: seq<BulkOp>,
                          log: seq<BulkOp>, media: seq<byte>, whole: ReadsOutcome)
    reads disk.device
  {
    && disk.Valid() && disk.device.media == media
    && whole == AfterReadsAll(got, done, ReadAll(disk.device.status, media, offset, rest))
    && disk.device.issued == log + done
  }

  /** A run of field reads with nothing left to read has succeeded with what it read. */
  lemma ReadingDone(disk: MediaDisk, offset: nat, got: seq<seq<byte>>, done: seq<BulkOp>, log: seq<BulkOp>,
                    media: seq<byte>, whole: ReadsOutcome)
    requires Reading(disk, offset, [], got, done, log, media, whole)
    ensures whole.result == Ok(got) && disk.device.issued == log + whole.issued
  {
    assert got + [] == got && done + [] == done;
  }

  /**
   * `let mut b = [0u8; size]; offset += disk.read(offset, &mut b)?`: one
   * field read into a fresh zeroed buffer, whose contents are returned.
   * Success gives the advanced offset.
   */
  method Get(disk: MediaDisk, offset: nat, size: nat, ghost rest: seq<nat>, ghost got: seq<seq<byte>>,
             ghost done: seq<BulkOp>, ghost log: seq<BulkOp>, ghost media: seq<byte>, ghost whole: ReadsOutcome)
      returns (r: Result<nat, DiskError>, bytes: seq<byte>, ghost done': seq<BulkOp>)
    requires rest != [] && rest[0] == size && 0 < size <= disk.backend.MaxTransfer()
    requires Reading(disk, offset, rest, got, done, log, media, whole)
    modifies disk.device
    ensures |bytes| == size
    ensures r.Ok? ==> r.value == offset + size
    ensures r.Ok? ==> Reading(disk, r.value, rest[1..], got + [bytes], done', log, media, whole)
    ensures r.Err? ==>
      && disk.Valid() && disk.device.media == media
      && whole.result.Err? && r.error == Translate(disk.backend, whole.result.error)
      && disk.device.issued == log + whole.issued
  {
    ghost var first := FieldRead(disk.device.status, media, offset, size);
    ReadOfOneChunk(disk.device.status, disk.backend.MaxTransfer(), media, offset, size);
    var buffer := new byte[size](_ => 0);
    var g := disk.Read(offset, buffer);
    bytes := buffer[..];
    done' := done + first.issued;
    if g.Err? {
      return Err(g.error), bytes, done';
    }
    assert bytes == first.filled;
    AfterReadsAllTwice(got, done, [first.filled], first.issued, ReadAll(disk.device.status, media, offset + size, rest[1..]));
    return Ok(offset + g.value), bytes, done';
  }
}
