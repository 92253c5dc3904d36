/**
 * sGPT, the "simple GPT" partition table (disk/src/partitions/sgpt.rs): a
 * header at byte 0 followed by partition records, all stored field by field
 * through `Disk::write` and read back through `Disk::read` (module FieldIo).
 *
 * The properties proved here are those of the code as it stands: the
 * default header stores its signature big-endian while `try_parse` expects
 * it little-endian, so a freshly written default table is never recognised;
 * the UUID is stored as `as_bytes` but read back through `from_bytes_le`;
 * the record type is stored little-endian but read big-endian; and record
 * `i` starts at 40 * i, so records overlap each other and record 0 overlaps
 * the header.
 */
module Sgpt {
  import opened Bytes
  import opened Wrappers
  import opened DiskErrors
  import opened BulkOps
  import opened Devices
  import opened Chunking
  import opened MediaDisks
  import opened Partitions
  import opened Uuids
  import opened FieldIo

  // ---------------------------------------------------------------- types

  /**
   * `#[repr(u32)] enum SGptPartitionType`. `Undeclared(code)` is what
   * `transmute` makes of a code in 2 ..= 0xFFFF_FFFE, which has no declared
   * variant; `ty as u32` gives that code back.
   */
  datatype SGptPartitionType = Boot | Unknown | Undeclared(code: u32) {
    /** `ty as u32`. */
    function Code(): u32 {
      match this
      case Boot => 1
      case Unknown => U32_MAX
      case Undeclared(c) => c
    }

    /** A value `From<u32>` can produce: an undeclared code is never a declared one. */
    predicate Producible() {
      Undeclared? ==> 2 <= code < U32_MAX
    }
  }

  /** `transmute` of a code strictly between `Unknown` and below it into the enum. */
  function Transmute(value: u32): SGptPartitionType
    requires Boot.Code() <= value < SGptPartitionType.Unknown.Code()
  {
    if value == Boot.Code() then Boot else Undeclared(value)
  }

  /** `From<u32> for SGptPartitionType`: codes from `Boot` up to, not including, `Unknown` are transmuted. */
  function TypeFromU32(value: u32): (t: SGptPartitionType)
    ensures t.Producible()
    ensures 1 <= value < U32_MAX ==> t.Code() == value
    ensures !(1 <= value < U32_MAX) ==> t == SGptPartitionType.Unknown
  {
    if value >= Boot.Code() && value < SGptPartitionType.Unknown.Code() then Transmute(value) else SGptPartitionType.Unknown
  }

  /** Every producible type converts back from its code; 0 is the one code that names no type's own code. */
  lemma TypeRoundTrip(t: SGptPartitionType)
    requires t.Producible()
    ensures TypeFromU32(t.Code()) == t
    ensures t.Code() != 0 && TypeFromU32(0) == SGptPartitionType.Unknown
  {
  }

  /** A partition name: 128 bytes. */
  type Name = s: seq<byte> | |s| == 128 witness seq(128, _ => 0)

  /** `struct SGptHeader`. */
  datatype SGptHeader = SGptHeader(signature: u64, headerSize: u32, uuid: Uuid, partitions: u32, partitionSize: u32)

  /** `struct SGptPartition`. */
  datatype SGptPartition = SGptPartition(ty: SGptPartitionType, uuid: Uuid, start: u64, end: u64, name: Name) {
    /** `is_empty`: a record whose end is 0 is unused. */
    predicate IsEmpty() {
      end == 0
    }

    /** `Partitionable::start`: `start as usize`. */
    function Start(): (s: usize)
      ensures s == start
    {
      start
    }

    /** `Partitionable::end`: `end as usize`. */
    function End(): (e: usize)
      ensures e == end
    {
      end
    }

    /** `Partitionable::as_partition`: the span the record describes. */
    function AsPartition(): (p: Partition)
      ensures p.Start() == start && p.End() == end
    {
      Partitions.New(Start(), End())
    }
  }

  /** `struct SGpt`: the table, known by its header. */
  datatype SGpt = SGpt(header: SGptHeader)

  // ------------------------------------------------------------ constants

  /**
   * `size_of::<SGptHeader>()` under `repr(C)`: 8 + 4 + 16 + 4 + 4 = 36 bytes
   * of fields, padded to the 8-byte alignment of `signature`.
   */
  const HEADER_SIZE: nat := 40

  /** The sizes of the header fields as written and read, in order. */
  const HEADER_SIZES: seq<nat> := [8, 4, 16, 4, 4]

  /** The sizes of the record fields as written and read, in order. */
  const RECORD_SIZES: seq<nat> := [4, 16, 8, 8, 128]

  /** `*b"EFI PART"`. */
  const EFI_PART: seq<byte> := [0x45, 0x46, 0x49, 0x20, 0x50, 0x41, 0x52, 0x54]

  /** The signature `try_parse` accepts and the one `Default` stores, as numbers. */
  lemma SignatureValues()
    ensures FromLe(EFI_PART) == 0x5452_4150_2049_4645
    ensures FromBe(EFI_PART) == 0x4546_4920_5041_5254
  {
    var s := EFI_PART;
    assert FromLe(s[7..]) == 0x54 by { assert s[7..][1..] == []; }
    assert FromLe(s[6..]) == 0x5452 by { assert s[6..][1..] == s[7..]; }
    assert FromLe(s[5..]) == 0x54_5241 by { assert s[5..][1..] == s[6..]; }
    assert FromLe(s[4..]) == 0x5452_4150 by { assert s[4..][1..] == s[5..]; }
    assert FromLe(s[3..]) == 0x54_5241_5020 by { assert s[3..][1..] == s[4..]; }
    assert FromLe(s[2..]) == 0x5452_4150_2049 by { assert s[2..][1..] == s[3..]; }
    assert FromLe(s[1..]) == 0x54_5241_5020_4946 by { assert s[1..][1..] == s[2..]; }
    assert FromBe(s[..1]) == 0x45 by { assert s[..1][..0] == []; }
    assert FromBe(s[..2]) == 0x4546 by { assert s[..2][..1] == s[..1]; }
    assert FromBe(s[..3]) == 0x45_4649 by { assert s[..3][..2] == s[..2]; }
    assert FromBe(s[..4]) == 0x4546_4920 by { assert s[..4][..3] == s[..3]; }
    assert FromBe(s[..5]) == 0x45_4649_2050 by { assert s[..5][..4] == s[..4]; }
    assert FromBe(s[..6]) == 0x4546_4920_5041 by { assert s[..6][..5] == s[..5]; }
    assert FromBe(s[..7]) == 0x45_4649_2050_4152 by { assert s[..7][..6] == s[..6]; }
    assert s[..8][..7] == s[..7] && s[..8] == s;
  }

  /**
   * `SGptHeader::default()` with `Uuid::new_v4()` supplied as `uuid`: the
   * signature is `from_be_bytes(*b"EFI PART")`, which is not the value the
   * table is recognised by.
   */
  function DefaultHeader(uuid: Uuid): (h: SGptHeader)
    ensures h.signature != FromLe(EFI_PART)
    ensures h.headerSize == HEADER_SIZE && h.partitions == MAX_PARTITIONS && h.partitionSize == 128 && h.uuid == uuid
  {
    SignatureValues();
    SGptHeader(FromBe(EFI_PART), HEADER_SIZE, uuid, MAX_PARTITIONS, 128)
  }

  /** `SGpt::default()`. */
  function Default(uuid: Uuid): (t: SGpt)
    ensures t.header == DefaultHeader(uuid)
  {
    SGpt(DefaultHeader(uuid))
  }

  // --------------------------------------------------------------- header

  /** The five fields `SGptHeader::write` stores, in order: integers little-endian, the UUID as `as_bytes`. */
  function HeaderFields(h: SGptHeader): (f: seq<seq<byte>>)
    ensures Shaped(f, HEADER_SIZES)
  {
    Pow256Widths();
    [ToLe(h.signature, 8), ToLe(h.headerSize, 4), h.uuid, ToLe(h.partitions, 4), ToLe(h.partitionSize, 4)]
  }

  /** How `SGptHeader::read` decodes the five fields it read: integers little-endian, the UUID by `from_bytes_le`. */
  function DecodeHeader(vals: seq<seq<byte>>): SGptHeader
    requires Shaped(vals, HEADER_SIZES)
  {
    Pow256Widths();
    SGptHeader(FromLe(vals[0]), FromLe(vals[1]), FromBytesLe(vals[2]), FromLe(vals[3]), FromLe(vals[4]))
  }

  /** Decoding the stored fields gives the header back, except that the UUID comes back permuted. */
  lemma DecodeHeaderFields(h: SGptHeader)
    ensures DecodeHeader(HeaderFields(h)) == h.(uuid := FromBytesLe(h.uuid))
  {
    Pow256Widths();
    FromLeToLe(h.signature, 8);
    FromLeToLe(h.headerSize, 4);
    FromLeToLe(h.partitions, 4);
    FromLeToLe(h.partitionSize, 4);
  }

  /** `SGptHeader::read` against a device holding `media`: the header decoded, or the first failing status. */
  ghost function HeaderRead(status: BulkOp -> i64, media: seq<byte>): Result<SGptHeader, i64>
    requires Refuses(status, |media|)
  {
    var o := ReadAll(status, media, 0, HEADER_SIZES);
    match o.result
    case Err(c) => Err(c)
    case Ok(vals) => ReadAllLengths(status, media, 0, HEADER_SIZES); Ok(DecodeHeader(vals))
  }

  /**
   * What `try_parse` makes of the header read: a read error is reported, a
   * header is a table only with the little-endian "EFI PART" signature and
   * the 40-byte header size.
   */
  function Check(r: Result<SGptHeader, DiskError>): (t: Option<Result<SGpt, DiskError>>)
    ensures r.Err? ==> t == Some(Err(r.error))
    ensures r.Ok? ==> (t.Some? <==> r.value.signature == FromLe(EFI_PART) && r.value.headerSize == HEADER_SIZE)
    ensures r.Ok? && t.Some? ==> t.value == Ok(SGpt(r.value))
  {
    match r
    case Err(e) => Some(Err(e))
    case Ok(h) =>
      if h.signature != FromLe(EFI_PART) then None
      else if h.headerSize != HEADER_SIZE then None
      else Some(Ok(SGpt(h)))
  }

  /**
   * A header written successfully and read back successfully is the header
   * written, with its UUID permuted by `from_bytes_le`.
   */
  lemma HeaderRoundTrip(status: BulkOp -> i64, media: seq<byte>, h: SGptHeader)
    requires Refuses(status, |media|)
    ensures var w := WriteAll(status, media, 0, HeaderFields(h));
      var r := HeaderRead(status, w.media);
      w.result.Ok? && r.Ok? ==> r.value == h.(uuid := FromBytesLe(h.uuid))
  {
    WriteThenRead(status, media, 0, HeaderFields(h), HEADER_SIZES);
    DecodeHeaderFields(h);
  }

  /**
   * A default table written successfully is not recognised when read back:
   * `try_parse` of the device returns `None` whenever the read succeeds.
   */
  lemma DefaultNotRecognised(status: BulkOp -> i64, media: seq<byte>, backend: Backend, uuid: Uuid)
    requires Refuses(status, |media|)
    ensures var w := WriteAll(status, media, 0, HeaderFields(DefaultHeader(uuid)));
      var r := HeaderRead(status, w.media);
      w.result.Ok? && r.Ok? ==> Check(Lift(backend, r)) == None
  {
    HeaderRoundTrip(status, media, DefaultHeader(uuid));
  }

  /**
   * A header with the little-endian signature and the 40-byte size, written
   * and read back successfully, is recognised as a table.
   */
  lemma LittleEndianSignatureRecognised(status: BulkOp -> i64, media: seq<byte>, backend: Backend, h: SGptHeader)
    requires Refuses(status, |media|) && h.signature == FromLe(EFI_PART) && h.headerSize == HEADER_SIZE
    ensures var w := WriteAll(status, media, 0, HeaderFields(h));
      var r := HeaderRead(status, w.media);
      w.result.Ok? && r.Ok? ==> Check(Lift(backend, r)) == Some(Ok(SGpt(h.(uuid := FromBytesLe(h.uuid)))))
  {
    HeaderRoundTrip(status, media, h);
  }

  /** A run of writes specified from its start: nothing counted, nothing issued yet. */
  lemma AfterNothing(o: WriteOutcome)
    ensures AfterWrites(0, [], o) == o
  {
    assert [] + o.issued == o.issued;
    match o.result
    case Ok(_) =>
    case Err(_) =>
  }

  /** A run of reads specified from its start: nothing read, nothing issued yet. */
  lemma AfterNothingRead(o: ReadsOutcome)
    ensures AfterReadsAll([], [], o) == o
  {
    assert [] + o.issued == o.issued;
    match o.result
    case Ok(vs) => assert [] + vs == vs;
    case Err(_) =>
  }

  /**
   * `SGptHeader::write`: the five fields at offsets 0, 8, 12, 28 and 32, each
   * at the offset the previous writes advanced to, the first error returned.
   */
  method WriteHeader(h: SGptHeader, disk: MediaDisk) returns (r: Result<Unit, DiskError>)
    requires disk.Valid()
    modifies disk.device
    ensures disk.Valid()
    ensures var o := WriteAll(disk.device.status, old(disk.device.media), 0, HeaderFields(h));
      && r == Done(disk.backend, o.result)
      && disk.device.media == o.media
      && disk.device.issued == old(disk.device.issued) + o.issued
  {
    var fields := HeaderFields(h);
    ghost var rest := fields;
    ghost var log := disk.device.issued;
    ghost var whole := WriteAll(disk.device.status, disk.device.media, 0, rest);
    ghost var done: seq<BulkOp> := [];
    AfterNothing(whole);
    var offset: nat := 0;
    ghost var count: nat := 0;
    var n;
    n, count, done := Put(disk, offset, fields[0], rest, count, done, log, whole);
    if n.Err? {
      return Err(n.error);
    }
    offset, rest := n.value, rest[1..];
    n, count, done := Put(disk, offset, fields[1], rest, count, done, log, whole);
    if n.Err? {
      return Err(n.error);
    }
    offset, rest := n.value, rest[1..];
    n, count, done := Put(disk, offset, fields[2], rest, count, done, log, whole);
    if n.Err? {
      return Err(n.error);
    }
    offset, rest := n.value, rest[1..];
    n, count, done := Put(disk, offset, fields[3], rest, count, done, log, whole);
    if n.Err? {
      return Err(n.error);
    }
    offset, rest := n.value, rest[1..];
    n, count, done := Put(disk, offset, fields[4], rest, count, done, log, whole);
    if n.Err? {
      return Err(n.error);
    }
    WritingDone(disk, n.value, count, done, log, whole);
    return Ok(Unit);
  }

  /**
   * `SGptHeader::read`: five fields into fresh zeroed buffers at the offsets
   * the previous reads advanced to, the first error returned, then decoded.
   */
  method ReadHeader(disk: MediaDisk) returns (r: Result<SGptHeader, DiskError>)
    requires disk.Valid()
    modifies disk.device
    ensures disk.Valid() && disk.device.media == old(disk.device.media)
    ensures r == Lift(disk.backend, HeaderRead(disk.device.status, old(disk.device.media)))
    ensures disk.device.issued == old(disk.device.issued) + ReadAll(disk.device.status, old(disk.device.media), 0, HEADER_SIZES).issued
  {
    ghost var rest := HEADER_SIZES;
    ghost var log := disk.device.issued;
    ghost var media := disk.device.media;
    ghost var whole := ReadAll(disk.device.status, media, 0, rest);
    ghost var done: seq<BulkOp> := [];
    AfterNothingRead(whole);
    var offset: nat := 0;
    var got: seq<seq<byte>> := [];
    var n, signature, headerSize, uuid, partitions, partitionSize;
    n, signature, done := Get(disk, offset, 8, rest, got, done, log, media, whole);
    if n.Err? {
      return Err(n.error);
    }
    offset, rest, got := n.value, [4, 16, 4, 4], got + [signature];
    n, headerSize, done := Get(disk, offset, 4, rest, got, done, log, media, whole);
    if n.Err? {
      return Err(n.error);
    }
    offset, rest, got := n.value, [16, 4, 4], got + [headerSize];
    n, uuid, done := Get(disk, offset, 16, rest, got, done, log, media, whole);
    if n.Err? {
      return Err(n.error);
    }
    offset, rest, got := n.value, [4, 4], got + [uuid];
    n, partitions, done := Get(disk, offset, 4, rest, got, done, log, media, whole);
    if n.Err? {
      return Err(n.error);
    }
    offset, rest, got := n.value, [4], got + [partitions];
    n, partitionSize, done := Get(disk, offset, 4, rest, got, done, log, media, whole);
    if n.Err? {
      return Err(n.error);
    }
    got := got + [partitionSize];
    ReadingDone(disk, n.value, got, done, log, media, whole);
    ReadAllLengths(disk.device.status, media, 0, HEADER_SIZES);
    return Ok(DecodeHeader(got));
  }

  /** `SGpt::write`: the header's write, its error passed on. */
  method Write(t: SGpt, disk: MediaDisk) returns (r: Result<Unit, DiskError>)
    requires disk.Valid()
    modifies disk.device
    ensures disk.Valid()
    ensures var o := WriteAll(disk.device.status, old(disk.device.media), 0, HeaderFields(t.header));
      && r == Done(disk.backend, o.result)
      && disk.device.media == o.media
      && disk.device.issued == old(disk.device.issued) + o.issued
  {
    var w := WriteHeader(t.header, disk);
    if w.Err? {
      return Err(w.error);
    }
    return Ok(Unit);
  }

  /**
   * `SGpt::try_parse`: the header read, its error reported, and the table
   * recognised only by the little-endian signature and the 40-byte size.
   */
  method TryParse(disk: MediaDisk) returns (t: Option<Result<SGpt, DiskError>>)
    requires disk.Valid()
    modifies disk.device
    ensures disk.Valid() && disk.device.media == old(disk.device.media)
    ensures t == Check(Lift(disk.backend, HeaderRead(disk.device.status, old(disk.device.media))))
    ensures disk.device.issued == old(disk.device.issued) + ReadAll(disk.device.status, old(disk.device.media), 0, HEADER_SIZES).issued
  {
    var header := ReadHeader(disk);
    if header.Err? {
      return Some(Err(header.error));
    }
    var h := header.value;
    if h.signature != FromLe(EFI_PART) {
      return None;
    }
    if h.headerSize != HEADER_SIZE {
      return None;
    }
    return Some(Ok(SGpt(h)));
  }

  // -------------------------------------------------------------- records

  /** Where record `index` starts: `size_of::<SGptHeader>() * index`, a stride shorter than a record. */
  function RecordOffset(index: u32): nat {
    HEADER_SIZE * index
  }

  /**
   * The five fields `SGptPartition::write` stores, in order: the type code
   * and the integers little-endian, the UUID as `as_bytes`, the name as is.
   */
  function RecordFields(p: SGptPartition): (f: seq<seq<byte>>)
    ensures Shaped(f, RECORD_SIZES) && |Flatten(f)| == Sum(RECORD_SIZES) == 164
  {
    Pow256Widths();
    var f := [ToLe(p.ty.Code(), 4), p.uuid, ToLe(p.start, 8), ToLe(p.end, 8), p.name];
    FlattenLength(f, RECORD_SIZES);
    f
  }

  /**
   * How `SGptPartition::read` decodes the five fields it read: the type code
   * big-endian through `From<u32>`, the UUID by `from_bytes_le`, the
   * integers little-endian.
   */
  function DecodeRecord(vals: seq<seq<byte>>): SGptPartition
    requires Shaped(vals, RECORD_SIZES)
  {
    Pow256Widths();
    SGptPartition(TypeFromU32(FromBe(vals[0])), FromBytesLe(vals[1]), FromLe(vals[2]), FromLe(vals[3]), vals[4])
  }

  /** The type a stored type code decodes to: its bytes are written little-endian and read big-endian. */
  function StoredType(t: SGptPartitionType): SGptPartitionType {
    Pow256Widths();
    TypeFromU32(FromBe(ToLe(t.Code(), 4)))
  }

  /** Decoding the stored fields gives the record back, except for the type's byte order and the UUID's permutation. */
  lemma DecodeRecordFields(p: SGptPartition)
    ensures DecodeRecord(RecordFields(p)) == p.(ty := StoredType(p.ty), uuid := FromBytesLe(p.uuid))
  {
    Pow256Widths();
    FromLeToLe(p.start, 8);
    FromLeToLe(p.end, 8);
  }

  /**
   * `Boot`, code 1, is stored as the bytes 01 00 00 00 and read back as code
   * 0x0100_0000, which is no declared type; `Unknown` is stored as four 0xFF
   * bytes and read back as itself.
   */
  lemma StoredTypes()
    ensures StoredType(Boot) == Undeclared(0x0100_0000)
    ensures StoredType(SGptPartitionType.Unknown) == SGptPartitionType.Unknown
  {
    var b := ToLe(1, 4);
    assert b == [1, 0, 0, 0];
    assert FromBe(b[..1]) == 1 by { assert b[..1][..0] == []; }
    assert FromBe(b[..2]) == 0x100 by { assert b[..2][..1] == b[..1]; }
    assert FromBe(b[..3]) == 0x1_0000 by { assert b[..3][..2] == b[..2]; }
    assert b[..4][..3] == b[..3] && b[..4] == b;
    var u := ToLe(U32_MAX, 4);
    assert u == [0xFF, 0xFF, 0xFF, 0xFF];
    assert FromBe(u[..1]) == 0xFF by { assert u[..1][..0] == []; }
    assert FromBe(u[..2]) == 0xFFFF by { assert u[..2][..1] == u[..1]; }
    assert FromBe(u[..3]) == 0xFF_FFFF by { assert u[..3][..2] == u[..2]; }
    assert u[..4][..3] == u[..3] && u[..4] == u;
  }

  /** `SGptPartition::read(index)` against a device holding `media`: the record decoded, or the first failing status. */
  ghost function RecordRead(status: BulkOp -> i64, media: seq<byte>, index: u32): Result<SGptPartition, i64>
    requires Refuses(status, |media|)
  {
    var o := ReadAll(status, media, RecordOffset(index), RECORD_SIZES);
    match o.result
    case Err(c) => Err(c)
    case Ok(vals) => ReadAllLengths(status, media, RecordOffset(index), RECORD_SIZES); Ok(DecodeRecord(vals))
  }

  /**
   * A record written successfully and read back successfully from the
   * same index is the record written, with its type passed through the
   * byte-order mismatch and its UUID permuted.
   */
  lemma RecordRoundTrip(status: BulkOp -> i64, media: seq<byte>, p: SGptPartition, index: u32)
    requires Refuses(status, |media|)
    ensures var w := WriteAll(status, media, RecordOffset(index), RecordFields(p));
      var r := RecordRead(status, w.media, index);
      w.result.Ok? && r.Ok? ==> r.value == p.(ty := StoredType(p.ty), uuid := FromBytesLe(p.uuid))
  {
    WriteThenRead(status, media, RecordOffset(index), RecordFields(p), RECORD_SIZES);
    DecodeRecordFields(p);
  }

  /** A `Boot` record written and read back successfully comes back with an undeclared type. */
  lemma BootRecordComesBackUndeclared(status: BulkOp -> i64, media: seq<byte>, p: SGptPartition, index: u32)
    requires Refuses(status, |media|) && p.ty == Boot
    ensures var w := WriteAll(status, media, RecordOffset(index), RecordFields(p));
      var r := RecordRead(status, w.media, index);
      w.result.Ok? && r.Ok? ==> r.value.ty == Undeclared(0x0100_0000) && r.value.ty != p.ty
  {
    RecordRoundTrip(status, media, p, index);
    StoredTypes();
  }

  /** A record whose bytes on the device are all zero reads as an empty record of unknown type. */
  lemma ZeroedRecordIsEmpty(status: BulkOp -> i64, media: seq<byte>, index: u32)
    requires Refuses(status, |media|)
    ensures var r := RecordRead(status, media, index);
      var off := RecordOffset(index);
      r.Ok? && off + Sum(RECORD_SIZES) <= |media| && Zeroed(media[off..off + Sum(RECORD_SIZES)]) ==>
        r.value.IsEmpty() && r.value.start == 0 && r.value.ty == SGptPartitionType.Unknown
  {
    var off := RecordOffset(index);
    var o := ReadAll(status, media, off, RECORD_SIZES);
    if o.result.Ok? {
      ReadAllSlices(status, media, off, RECORD_SIZES);
      ReadAllLengths(status, media, off, RECORD_SIZES);
      if off + Sum(RECORD_SIZES) <= |media| && Zeroed(media[off..off + Sum(RECORD_SIZES)]) {
        ZeroedRecordDecodes(o.result.value);
      }
    }
  }

  /** Five zeroed fields decode to an empty record of unknown type starting at 0. */
  lemma ZeroedRecordDecodes(vals: seq<seq<byte>>)
    requires Shaped(vals, RECORD_SIZES) && Zeroed(Flatten(vals))
    ensures var p := DecodeRecord(vals); p.IsEmpty() && p.start == 0 && p.ty == SGptPartitionType.Unknown
  {
    ZeroedFields(vals);
    ZeroedDecodes(vals[0]);
    ZeroedDecodes(vals[2]);
    ZeroedDecodes(vals[3]);
  }

  /** Writing record 0 successfully replaces the whole header with the record's first 40 bytes. */
  lemma RecordZeroCoversHeader(status: BulkOp -> i64, media: seq<byte>, p: SGptPartition)
    requires Refuses(status, |media|)
    ensures var w := WriteAll(status, media, RecordOffset(0), RecordFields(p));
      w.result.Ok? ==> HEADER_SIZE <= |w.media| && w.media[..HEADER_SIZE] == Flatten(RecordFields(p))[..HEADER_SIZE]
  {
    var fields := RecordFields(p);
    var w := WriteAll(status, media, 0, fields);
    if w.result.Ok? {
      WriteAllLays(status, media, 0, fields);
      FlattenLength(fields, RECORD_SIZES);
      var flat := Flatten(fields);
      assert w.media[..|flat|] == flat;
      assert w.media[..HEADER_SIZE] == w.media[..|flat|][..HEADER_SIZE];
    }
  }

  /**
   * Writing record `index + 1` successfully replaces the last 124 bytes of
   * record `index`'s span with the first 124 bytes of the new record.
   */
  lemma NextRecordOverlaps(status: BulkOp -> i64, media: seq<byte>, q: SGptPartition, index: u32)
    requires Refuses(status, |media|) && index < U32_MAX
    ensures var off := RecordOffset(index);
      var w := WriteAll(status, media, RecordOffset(index + 1), RecordFields(q));
      w.result.Ok? ==>
        && off + Sum(RECORD_SIZES) <= |w.media|
        && w.media[off + HEADER_SIZE..off + Sum(RECORD_SIZES)] == Flatten(RecordFields(q))[..Sum(RECORD_SIZES) - HEADER_SIZE]
  {
    var fields := RecordFields(q);
    var next := RecordOffset(index + 1);
    var w := WriteAll(status, media, next, fields);
    if w.result.Ok? {
      WriteAllLays(status, media, next, fields);
      FlattenLength(fields, RECORD_SIZES);
      var flat := Flatten(fields);
      assert Sum(RECORD_SIZES) == 164;
      assert next == RecordOffset(index) + HEADER_SIZE;
      assert w.media[next..next + |flat|] == flat;
      assert w.media[next..next + 124] == w.media[next..next + |flat|][..124];
    }
  }

  /**
   * `SGptPartition::write(index, disk)`: the five fields from record
   * `index`'s offset, each at the offset the previous writes advanced to,
   * the first error returned.
   */
  method WriteRecord(p: SGptPartition, index: u32, disk: MediaDisk) returns (r: Result<Unit, DiskError>)
    requires disk.Valid()
    modifies disk.device
    ensures disk.Valid()
    ensures var o := WriteAll(disk.device.status, old(disk.device.media), RecordOffset(index), RecordFields(p));
      && r == Done(disk.backend, o.result)
      && disk.device.media == o.media
      && disk.device.issued == old(disk.device.issued) + o.issued
  {
    var offset: nat := RecordOffset(index);
    var fields := RecordFields(p);
    ghost var rest := fields;
    ghost var log := disk.device.issued;
    ghost var whole := WriteAll(disk.device.status, disk.device.media, offset, rest);
    ghost var done: seq<BulkOp> := [];
    ghost var count: nat := 0;
    AfterNothing(whole);
    var n;
    n, count, done := Put(disk, offset, fields[0], rest, count, done, log, whole);
    if n.Err? {
      return Err(n.error);
    }
    offset, rest := n.value, rest[1..];
    n, count, done := Put(disk, offset, fields[1], rest, count, done, log, whole);
    if n.Err? {
      return Err(n.error);
    }
    offset, rest := n.value, rest[1..];
    n, count, done := Put(disk, offset, fields[2], rest, count, done, log, whole);
    if n.Err? {
      return Err(n.error);
    }
    offset, rest := n.value, rest[1..];
    n, count, done := Put(disk, offset, fields[3], rest, count, done, log, whole);
    if n.Err? {
      return Err(n.error);
    }
    offset, rest := n.value, rest[1..];
    n, count, done := Put(disk, offset, fields[4], rest, count, done, log, whole);
    if n.Err? {
      return Err(n.error);
    }
    WritingDone(disk, n.value, count, done, log, whole);
    return Ok(Unit);
  }

  /**
   * `SGptPartition::read(index, disk)`: five fields from record `index`'s
   * offset into fresh zeroed buffers, the first error returned, then decoded.
   */
  method ReadRecord(index: u32, disk: MediaDisk) returns (r: Result<SGptPartition, DiskError>)
    requires disk.Valid()
    modifies disk.device
    ensures disk.Valid() && disk.device.media == old(disk.device.media)
    ensures r == Lift(disk.backend, RecordRead(disk.device.status, old(disk.device.media), index))
    ensures disk.device.issued == old(disk.device.issued) + ReadAll(disk.device.status, old(disk.device.media), RecordOffset(index), RECORD_SIZES).issued
  {
    var offset: nat := RecordOffset(index);
    ghost var rest := RECORD_SIZES;
    ghost var log := disk.device.issued;
    ghost var media := disk.device.media;
    ghost var whole := ReadAll(disk.device.status, media, offset, rest);
    ghost var done: seq<BulkOp> := [];
    AfterNothingRead(whole);
    var got: seq<seq<byte>> := [];
    var n, typeBytes, uuid, start, end, name;
    n, typeBytes, done := Get(disk, offset, 4, rest, got, done, log, media, whole);
    if n.Err? {
      return Err(n.error);
    }
    offset, rest, got := n.value, [16, 8, 8, 128], got + [typeBytes];
    n, uuid, done := Get(disk, offset, 16, rest, got, done, log, media, whole);
    if n.Err? {
      return Err(n.error);
    }
    offset, rest, got := n.value, [8, 8, 128], got + [uuid];
    n, start, done := Get(disk, offset, 8, rest, got, done, log, media, whole);
    if n.Err? {
      return Err(n.error);
    }
    offset, rest, got := n.value, [8, 128], got + [start];
    n, end, done := Get(disk, offset, 8, rest, got, done, log, media, whole);
    if n.Err? {
      return Err(n.error);
    }
    offset, rest, got := n.value, [128], got + [end];
    n, name, done := Get(disk, offset, 128, rest, got, done, log, media, whole);
    if n.Err? {
      return Err(n.error);
    }
    got := got + [name];
    ReadingDone(disk, n.value, got, done, log, media, whole);
    ReadAllLengths(disk.device.status, media, RecordOffset(index), RECORD_SIZES);
    return Ok(DecodeRecord(got));
  }

  // ------------------------------------------------------------- iterator

  /** `SgptPartitionIterator`: reads records `next`, `next + 1`, ... up to, not including, `max`. */
  class SgptPartitionIterator {
    const disk: MediaDisk
    var next: u32
    const max: u32

    ghost predicate Valid()
      reads this, disk.device
    {
      next <= max && disk.Valid()
    }

    constructor (disk: MediaDisk, max: u32)
      requires disk.Valid()
      ensures this.disk == disk && this.max == max && next == 0 && Valid()
    {
      this.disk := disk;
      this.max := max;
      next := 0;
    }

    /**
     * `Iterator::next`: `None` once `next` reaches `max`; otherwise record
     * `next` is read and `next` advances, whatever the read gave.
     */
    method Next() returns (item: Option<Result<SGptPartition, DiskError>>)
      requires Valid()
      modifies this, disk.device
      ensures Valid() && disk.device.media == old(disk.device.media)
      ensures old(next) == max ==>
        item == None && next == max && disk.device.issued == old(disk.device.issued)
      ensures old(next) < max ==>
        && next == old(next) + 1
        && item == Some(Lift(disk.backend, RecordRead(disk.device.status, old(disk.device.media), old(next))))
        && disk.device.issued == old(disk.device.issued)
             + ReadAll(disk.device.status, old(disk.device.media), RecordOffset(old(next)), RECORD_SIZES).issued
    {
      if next == max {
        return None;
      }
      next := next + 1;
      var record := ReadRecord(next - 1, disk);
      return Some(record);
    }
  }

  /** `SGpt::iter_partitions`: the table's records from the first to the header's partition count. */
  method IterPartitions(t: SGpt, disk: MediaDisk) returns (it: SgptPartitionIterator)
    requires disk.Valid()
    ensures fresh(it) && it.disk == disk && it.next == 0 && it.max == t.header.partitions && it.Valid()
  {
    it := new SgptPartitionIterator(disk, t.header.partitions);
  }
}
