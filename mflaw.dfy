/**
 * MFLAW, the "most flawless" file system (disk/src/fs/mflaw.rs): a
 * superblock laid out from a partition's size, stored at the partition's
 * first byte as the struct's native memory image and recognised by its
 * magic byte.
 *
 * `BLOCK_SIZE` comes from disk/src/fs, which is not part of this model, so
 * the layout takes it as a positive parameter `blockSize`. The struct is
 * `repr(C)` with a `u8` followed by nine `usize` fields, so on the 64-bit
 * target its memory image is 80 bytes. The transmutes between the struct
 * and those bytes are modelled by a `NativeLayout`: any encoder and decoder
 * that produce 80 bytes with the magic first and give every struct back.
 */
module MFlaws {
  import opened Bytes
  import opened Wrappers
  import opened DiskErrors
  import opened BulkOps
  import opened Devices
  import opened Chunking
  import opened MediaDisks
  import opened Partitions
  import opened FieldIo

  /** `MAGIC`: the first byte of every MFLAW superblock. */
  const MAGIC: byte := 0xF1

  /** `size_of::<MFlawSuperblock>()`: one byte, seven of padding, nine 8-byte fields. */
  const SUPERBLOCK_SIZE: nat := 80

  /** `struct MFlawSuperblock`. */
  datatype MFlawSuperblock = MFlawSuperblock(
    magic: byte,
    inodes: usize,
    zones: usize,
    inodeBitmapBlocks: usize,
    zoneBitmapBlocks: usize,
    dataBlocks: usize,
    inodesSize: usize,
    zonesSize: usize,
    dataSize: usize,
    totalSize: usize)

  /** `usize::max`. */
  function Max(a: nat, b: nat): (m: nat)
    ensures m >= a && m >= b && (m == a || m == b)
  {
    if a >= b then a else b
  }

  /**
   * `bytes / BLOCK_SIZE`: how many whole blocks `bytes` bytes hold, counted
   * by repeated subtraction so that the layout's arithmetic stays linear
   * for the verifier; `BlocksInIsDivision` shows it is the division.
   */
  function BlocksIn(bytes: nat, blockSize: nat): (n: nat)
    requires blockSize > 0
    ensures n <= bytes
    decreases bytes
  {
    if bytes < blockSize then 0 else 1 + BlocksIn(bytes - blockSize, blockSize)
  }

  /** `blocks * BLOCK_SIZE`: the bytes `blocks` blocks take. */
  function BytesOf(blocks: nat, blockSize: nat): nat
  {
    blocks * blockSize
  }

  /** One block more takes one block size more. */
  lemma BytesOfSucc(blocks: nat, blockSize: nat)
    ensures BytesOf(blocks + 1, blockSize) == BytesOf(blocks, blockSize) + blockSize
  {
    assert (blocks + 1) * blockSize == blocks * blockSize + blockSize;
  }

  /** The blocks counted fit in the bytes, and one block more does not. */
  lemma {:induction false} BlocksInBounds(bytes: nat, blockSize: nat)
    requires blockSize > 0
    ensures BytesOf(BlocksIn(bytes, blockSize), blockSize) <= bytes < BytesOf(BlocksIn(bytes, blockSize), blockSize) + blockSize
    decreases bytes
  {
    if bytes >= blockSize {
      BlocksInBounds(bytes - blockSize, blockSize);
      BytesOfSucc(BlocksIn(bytes - blockSize, blockSize), blockSize);
    }
  }

  /** More blocks take at least as many bytes. */
  lemma BytesOfMonotone(a: nat, b: nat, blockSize: nat)
    requires a <= b
    ensures BytesOf(a, blockSize) <= BytesOf(b, blockSize)
  {
    assert b * blockSize == a * blockSize + (b - a) * blockSize;
  }

  /** The bytes of two runs of blocks add up. */
  lemma BytesOfAdd(a: nat, b: nat, blockSize: nat)
    ensures BytesOf(a + b, blockSize) == BytesOf(a, blockSize) + BytesOf(b, blockSize)
  {
    assert (a + b) * blockSize == a * blockSize + b * blockSize;
  }

  /** `BlocksIn` is the division of the source. */
  lemma BlocksInIsDivision(bytes: nat, blockSize: nat)
    requires blockSize > 0
    ensures BlocksIn(bytes, blockSize) == bytes / blockSize
  {
    var q := BlocksIn(bytes, blockSize);
    var q' := bytes / blockSize;
    assert bytes == q' * blockSize + bytes % blockSize;
    BlocksInBounds(bytes, blockSize);
    if q > q' {
      BytesOfMonotone(q' + 1, q, blockSize);
      BytesOfSucc(q', blockSize);
    } else if q < q' {
      BytesOfMonotone(q + 1, q', blockSize);
      BytesOfSucc(q, blockSize);
    }
  }

  /**
   * `MFlawSuperblock::new(partition)`: the layout of a partition of
   * `partition.end() - partition.start()` bytes. The source subtracts
   * without guards; where one of its `usize` subtractions would underflow,
   * the model gives `None`.
   */
  function SuperblockNew(p: Partition, blockSize: nat): (r: Option<MFlawSuperblock>)
    requires blockSize > 0
    ensures r.Some? ==> r.value.magic == MAGIC && r.value.totalSize == p.End() - p.Start()
  {
    if p.End() < p.Start() then None
    else
      var totalSize := p.End() - p.Start();
      if totalSize < SUPERBLOCK_SIZE then None
      else Layout(totalSize, BlocksIn(totalSize - SUPERBLOCK_SIZE, blockSize), blockSize)
  }

  /**
   * The rest of `new`, once the blocks after the superblock are counted:
   * the inode bitmap, the zone bitmap and the data region, in that order.
   */
  function Layout(totalSize: usize, dataBlocksCount: nat, blockSize: nat): (r: Option<MFlawSuperblock>)
    requires blockSize > 0 && SUPERBLOCK_SIZE <= totalSize && dataBlocksCount <= totalSize
    ensures r.Some? ==> r.value.magic == MAGIC && r.value.totalSize == totalSize
  {
    var dataSize := totalSize - SUPERBLOCK_SIZE;
    if dataBlocksCount < 1 then None
    else
      // inodes
      var inodes := dataBlocksCount - 1;
      var inodesSize := inodes / 8;
      var inodeBitmapBlocks := BitmapBlocks(inodes, blockSize);
      if dataBlocksCount < inodeBitmapBlocks then None
      else
        // zones
        var zones := dataBlocksCount - inodeBitmapBlocks + 1;
        var zonesSize := zones / 8;
        var zoneBitmapBlocks := BitmapBlocks(zones, blockSize);
        // data
        if dataBlocksCount < inodeBitmapBlocks + zoneBitmapBlocks then None
        else if dataSize < BytesOf(inodeBitmapBlocks + zoneBitmapBlocks, blockSize) then None
        else
          var dataBlocks := dataBlocksCount - (inodeBitmapBlocks + zoneBitmapBlocks);
          var dataSize' := dataSize - BytesOf(inodeBitmapBlocks + zoneBitmapBlocks, blockSize);
          Some(MFlawSuperblock(MAGIC, inodes, zones, inodeBitmapBlocks, zoneBitmapBlocks,
                               dataBlocks, inodesSize, zonesSize, dataSize', totalSize))
  }

  /** `usize::max(1, entries / 8 / BLOCK_SIZE)`: the blocks of a bitmap with one bit per entry, at least one. */
  function BitmapBlocks(entries: nat, blockSize: nat): (n: nat)
    requires blockSize > 0
    ensures 1 <= n && (n == 1 || n <= entries / 8)
  {
    Max(1, BlocksIn(entries / 8, blockSize))
  }

  /** The number of blocks after the superblock: `(total_size - S) / BLOCK_SIZE`. */
  function BlocksAfterSuperblock(p: Partition, blockSize: nat): nat
    requires blockSize > 0 && p.Start() + SUPERBLOCK_SIZE <= p.End()
  {
    BlocksIn(p.End() - p.Start() - SUPERBLOCK_SIZE, blockSize)
  }

  /** Both bitmaps fit whenever there are at least two blocks after the superblock. */
  lemma BitmapsFit(count: nat, blockSize: nat)
    requires blockSize > 0 && count >= 2
    ensures var ibb := BitmapBlocks(count - 1, blockSize);
      && ibb <= count
      && ibb + BitmapBlocks(count - ibb + 1, blockSize) <= count
  {
    var ibb := BitmapBlocks(count - 1, blockSize);
    var zbb := BitmapBlocks(count - ibb + 1, blockSize);
    assert ibb == 1 || ibb <= count / 8;
    assert zbb == 1 || zbb <= count / 8;
  }

  /** At least two blocks fit exactly when the bytes are at least two blocks long. */
  lemma TwoBlocksIff(bytes: nat, blockSize: nat)
    requires blockSize > 0
    ensures BlocksIn(bytes, blockSize) >= 2 <==> bytes >= 2 * blockSize
  {
    BlocksInBounds(bytes, blockSize);
    var q := BlocksIn(bytes, blockSize);
    if q >= 2 {
      BytesOfMonotone(2, q, blockSize);
    } else {
      BytesOfMonotone(q + 1, 2, blockSize);
    }
  }

  /** Given two blocks or more, the bitmaps and the data region all fit. */
  lemma LayoutDefined(totalSize: usize, count: nat, blockSize: nat)
    requires blockSize > 0 && SUPERBLOCK_SIZE <= totalSize && 2 <= count <= totalSize
    requires BytesOf(count, blockSize) <= totalSize - SUPERBLOCK_SIZE
    ensures Layout(totalSize, count, blockSize).Some?
  {
    BitmapsFit(count, blockSize);
    var ibb := BitmapBlocks(count - 1, blockSize);
    var zbb := BitmapBlocks(count - ibb + 1, blockSize);
    BytesOfMonotone(ibb + zbb, count, blockSize);
  }

  /** With two blocks after the superblock, none of `new`'s subtractions underflows. */
  lemma NewDefinedWithTwoBlocks(p: Partition, blockSize: nat)
    requires blockSize > 0 && p.Start() + SUPERBLOCK_SIZE <= p.End() && BlocksAfterSuperblock(p, blockSize) >= 2
    ensures SuperblockNew(p, blockSize).Some?
  {
    var totalSize := p.End() - p.Start();
    var count := BlocksIn(totalSize - SUPERBLOCK_SIZE, blockSize);
    BlocksInBounds(totalSize - SUPERBLOCK_SIZE, blockSize);
    LayoutDefined(totalSize, count, blockSize);
  }

  /** With fewer than two blocks after the superblock, the bitmaps do not fit. */
  lemma NewUndefinedBelowTwoBlocks(p: Partition, blockSize: nat)
    requires blockSize > 0 && p.Start() + SUPERBLOCK_SIZE <= p.End() && BlocksAfterSuperblock(p, blockSize) < 2
    ensures SuperblockNew(p, blockSize).None?
  {
  }

  /**
   * The layout exists exactly when the partition is at least the
   * superblock and two blocks long: with fewer, some `usize` subtraction
   * of `new` underflows; with that many, none does.
   */
  lemma NewDefinedIff(p: Partition, blockSize: nat)
    requires blockSize > 0
    ensures SuperblockNew(p, blockSize).Some? <==> p.Start() + SUPERBLOCK_SIZE + 2 * blockSize <= p.End()
  {
    if p.Start() + SUPERBLOCK_SIZE <= p.End() {
      TwoBlocksIff(p.End() - p.Start() - SUPERBLOCK_SIZE, blockSize);
      if BlocksAfterSuperblock(p, blockSize) >= 2 {
        NewDefinedWithTwoBlocks(p, blockSize);
      } else {
        NewUndefinedBelowTwoBlocks(p, blockSize);
      }
    }
  }

  /**
   * Every layout `new` produces accounts for the whole partition: the
   * bitmaps take at least one block each, the bitmaps and data use up every
   * block after the superblock, and the data region holds the data blocks
   * and less than a block more.
   */
  lemma NewAccounts(p: Partition, blockSize: nat)
    requires blockSize > 0
    ensures var r := SuperblockNew(p, blockSize);
      r.Some? ==>
        var sb := r.value;
        && p.Start() + SUPERBLOCK_SIZE <= p.End()
        && sb.inodeBitmapBlocks >= 1 && sb.zoneBitmapBlocks >= 1
        && sb.inodes + 1 == BlocksAfterSuperblock(p, blockSize)
        && sb.dataBlocks + sb.inodeBitmapBlocks + sb.zoneBitmapBlocks == BlocksAfterSuperblock(p, blockSize)
        && sb.dataSize + BytesOf(sb.inodeBitmapBlocks + sb.zoneBitmapBlocks, blockSize) == sb.totalSize - SUPERBLOCK_SIZE
        && BytesOf(sb.dataBlocks, blockSize) <= sb.dataSize < BytesOf(sb.dataBlocks, blockSize) + blockSize
  {
    var r := SuperblockNew(p, blockSize);
    if r.Some? {
      var sb := r.value;
      var dataSize := p.End() - p.Start() - SUPERBLOCK_SIZE;
      var used := sb.inodeBitmapBlocks + sb.zoneBitmapBlocks;
      BlocksInBounds(dataSize, blockSize);
      BytesOfAdd(sb.dataBlocks, used, blockSize);
    }
  }

  /**
   * The native memory image of the struct, as the transmutes see it: an
   * encoder (`transmute_copy` to bytes) and a decoder (`transmute` from
   * bytes).
   */
  datatype NativeLayout = NativeLayout(encode: MFlawSuperblock -> seq<byte>, decode: seq<byte> -> MFlawSuperblock) {
    /**
     * What the source relies on: every image is 80 bytes with the magic
     * first; decoding an image gives the struct back; decoding any 80 bytes
     * takes the magic from the first byte.
     */
    ghost predicate Lawful() {
      && (forall sb :: |encode(sb)| == SUPERBLOCK_SIZE && encode(sb)[0] == sb.magic)
      && (forall sb :: decode(encode(sb)) == sb)
      && (forall b: seq<byte> :: |b| == SUPERBLOCK_SIZE ==> decode(b).magic == b[0])
    }
  }

  /** Words laid out little-endian, eight bytes each. */
  function Words(ws: seq<usize>): (b: seq<byte>)
    ensures |b| == 8 * |ws|
  {
    Pow256Widths();
    if ws == [] then [] else ToLe(ws[0], 8) + Words(ws[1..])
  }

  /** Eight-byte little-endian words read back, as many as fit. */
  function UnWords(b: seq<byte>): seq<usize>
    decreases |b|
  {
    Pow256Widths();
    if |b| < 8 then [] else [FromLe(b[..8])] + UnWords(b[8..])
  }

  /** Words laid out and read back are the words. */
  lemma {:induction false} UnWordsWords(ws: seq<usize>)
    ensures UnWords(Words(ws)) == ws
    decreases |ws|
  {
    Pow256Widths();
    if ws != [] {
      var b := Words(ws);
      assert b[..8] == ToLe(ws[0], 8) && b[8..] == Words(ws[1..]);
      FromLeToLe(ws[0], 8);
      UnWordsWords(ws[1..]);
      assert ws == [ws[0]] + ws[1..];
    }
  }

  /** The nine `usize` fields, in declaration order. */
  function FieldWords(sb: MFlawSuperblock): seq<usize> {
    [sb.inodes, sb.zones, sb.inodeBitmapBlocks, sb.zoneBitmapBlocks, sb.dataBlocks,
     sb.inodesSize, sb.zonesSize, sb.dataSize, sb.totalSize]
  }

  /**
   * One image meeting `Lawful`, to show the requirement can be met: the
   * magic, seven zero bytes of padding and the nine fields little-endian.
   * The model never assumes it is the target's layout.
   */
  function LeImage(sb: MFlawSuperblock): (b: seq<byte>)
    ensures |b| == SUPERBLOCK_SIZE && b[0] == sb.magic
  {
    [sb.magic] + seq(7, _ => 0) + Words(FieldWords(sb))
  }

  /** Decoding the little-endian image: the magic from byte 0, the fields from the words after the padding. */
  function LeDecode(b: seq<byte>): MFlawSuperblock {
    if |b| != SUPERBLOCK_SIZE then MFlawSuperblock(0, 0, 0, 0, 0, 0, 0, 0, 0, 0)
    else
      var w := UnWords(b[8..]);
      if |w| != 9 then MFlawSuperblock(b[0], 0, 0, 0, 0, 0, 0, 0, 0, 0)
      else MFlawSuperblock(b[0], w[0], w[1], w[2], w[3], w[4], w[5], w[6], w[7], w[8])
  }

  /** Decoding the little-endian image of a superblock gives the superblock back. */
  lemma LeImageDecodes(sb: MFlawSuperblock)
    ensures LeDecode(LeImage(sb)) == sb
  {
    var b := LeImage(sb);
    assert b[8..] == Words(FieldWords(sb));
    UnWordsWords(FieldWords(sb));
  }

  /** The little-endian image is a lawful layout. */
  lemma LeLayoutLawful()
    ensures NativeLayout(LeImage, LeDecode).Lawful()
  {
    forall sb ensures LeDecode(LeImage(sb)) == sb {
      LeImageDecodes(sb);
    }
  }

  /** `try_parse_inner` against a device holding `media`: the decoded image at the partition's start, or the failing status. */
  ghost function SuperblockRead(status: BulkOp -> i64, media: seq<byte>, layout: NativeLayout, p: Partition): Result<MFlawSuperblock, i64>
    requires Refuses(status, |media|)
  {
    var o := FieldRead(status, media, p.Start(), SUPERBLOCK_SIZE);
    match o.result
    case Err(c) => Err(c)
    case Ok(_) => Ok(layout.decode(o.filled))
  }

  /** What `MFlawSuperblock::try_parse` makes of the read: an error is reported, a superblock needs the magic. */
  function Check(r: Result<MFlawSuperblock, DiskError>): (t: Option<Result<MFlawSuperblock, DiskError>>)
    ensures r.Err? ==> t == Some(Err(r.error))
    ensures r.Ok? ==> (t.Some? <==> r.value.magic == MAGIC)
    ensures r.Ok? && t.Some? ==> t.value == r
  {
    match r
    case Err(e) => Some(Err(e))
    case Ok(sb) => if sb.magic != MAGIC then None else Some(Ok(sb))
  }

  /** A superblock read successfully is recognised exactly when the partition's first byte is the magic. */
  lemma ParsedByMagic(status: BulkOp -> i64, media: seq<byte>, backend: Backend, layout: NativeLayout, p: Partition)
    requires Refuses(status, |media|) && layout.Lawful()
    ensures var r := SuperblockRead(status, media, layout, p);
      r.Ok? ==>
        && p.Start() < |media|
        && (Check(Lift(backend, r)).Some? <==> media[p.Start()] == MAGIC)
  {
    var o := FieldRead(status, media, p.Start(), SUPERBLOCK_SIZE);
    if o.result.Ok? {
      assert o.filled == media[p.Start()..p.Start() + SUPERBLOCK_SIZE];
      assert o.filled[0] == media[p.Start()];
    }
  }

  /**
   * A superblock with the magic, written successfully at a partition's
   * start and read back successfully from there, is parsed as itself.
   */
  lemma WriteThenParse(status: BulkOp -> i64, media: seq<byte>, backend: Backend, layout: NativeLayout,
                       sb: MFlawSuperblock, p: Partition)
    requires Refuses(status, |media|) && layout.Lawful() && sb.magic == MAGIC
    ensures var w := FieldWrite(status, media, p.Start(), layout.encode(sb));
      var r := SuperblockRead(status, w.media, layout, p);
      w.result.Ok? && r.Ok? ==> Check(Lift(backend, r)) == Some(Ok(sb))
  {
    var image := layout.encode(sb);
    var w := FieldWrite(status, media, p.Start(), image);
    var o := FieldRead(status, w.media, p.Start(), SUPERBLOCK_SIZE);
    if w.result.Ok? && o.result.Ok? {
      assert w.media[p.Start()..p.Start() + |image|] == image;
      assert o.filled == image;
    }
  }

  /**
   * `try_parse_inner`: one read of 80 bytes at the partition's start into a
   * zeroed buffer, the error returned, the buffer transmuted.
   */
  method TryParseInner(disk: MediaDisk, layout: NativeLayout, p: Partition) returns (r: Result<MFlawSuperblock, DiskError>)
    requires disk.Valid()
    modifies disk.device
    ensures disk.Valid() && disk.device.media == old(disk.device.media)
    ensures r == Lift(disk.backend, SuperblockRead(disk.device.status, old(disk.device.media), layout, p))
    ensures disk.device.issued == old(disk.device.issued) + FieldRead(disk.device.status, old(disk.device.media), p.Start(), SUPERBLOCK_SIZE).issued
  {
    ReadOfOneChunk(disk.device.status, disk.backend.MaxTransfer(), disk.device.media, p.Start(), SUPERBLOCK_SIZE);
    var bytes := new byte[SUPERBLOCK_SIZE](_ => 0);
    var n := disk.Read(p.Start(), bytes);
    if n.Err? {
      return Err(n.error);
    }
    return Ok(layout.decode(bytes[..]));
  }

  /** `MFlawSuperblock::try_parse`: the read, its error reported, the superblock recognised by its magic. */
  method SuperblockTryParse(disk: MediaDisk, layout: NativeLayout, p: Partition)
      returns (t: Option<Result<MFlawSuperblock, DiskError>>)
    requires disk.Valid()
    modifies disk.device
    ensures disk.Valid() && disk.device.media == old(disk.device.media)
    ensures t == Check(Lift(disk.backend, SuperblockRead(disk.device.status, old(disk.device.media), layout, p)))
    ensures disk.device.issued == old(disk.device.issued) + FieldRead(disk.device.status, old(disk.device.media), p.Start(), SUPERBLOCK_SIZE).issued
  {
    var superblock := TryParseInner(disk, layout, p);
    if superblock.Err? {
      return Some(Err(superblock.error));
    }
    if superblock.value.magic != MAGIC {
      return None;
    }
    return Some(Ok(superblock.value));
  }

  /** `MFlawSuperblock::write`: the struct's 80-byte image in one write at the partition's start. */
  method SuperblockWrite(sb: MFlawSuperblock, disk: MediaDisk, layout: NativeLayout, p: Partition)
      returns (r: Result<Unit, DiskError>)
    requires disk.Valid() && layout.Lawful()
    modifies disk.device
    ensures disk.Valid()
    ensures var o := FieldWrite(disk.device.status, old(disk.device.media), p.Start(), layout.encode(sb));
      && r == Done(disk.backend, o.result)
      && disk.device.media == o.media
      && disk.device.issued == old(disk.device.issued) + o.issued
  {
    var bytes := layout.encode(sb);
    WriteOfOneChunk(disk.device.status, disk.backend.MaxTransfer(), disk.device.media, p.Start(), bytes);
    var n := disk.Write(p.Start(), bytes);
    if n.Err? {
      return Err(n.error);
    }
    return Ok(Unit);
  }

  /** `struct MFlaw`: the file system, known by its superblock. */
  datatype MFlaw = MFlaw(superblock: MFlawSuperblock) {
    /** `MFlaw::superblock`. */
    function Superblock(): (sb: MFlawSuperblock)
      ensures sb == superblock
    {
      superblock
    }
  }

  /** `MFlaw::new`: the superblock's layout, wrapped. */
  function New(p: Partition, blockSize: nat): (f: Option<MFlaw>)
    requires blockSize > 0
    ensures f.Some? <==> SuperblockNew(p, blockSize).Some?
    ensures f.Some? ==> f.value.Superblock() == SuperblockNew(p, blockSize).value
  {
    match SuperblockNew(p, blockSize)
    case None => None
    case Some(sb) => Some(MFlaw(sb))
  }

  /** `MFlaw::try_parse`: each of the superblock's three outcomes passed on unchanged. */
  method TryParse(disk: MediaDisk, layout: NativeLayout, p: Partition) returns (t: Option<Result<MFlaw, DiskError>>)
    requires disk.Valid()
    modifies disk.device
    ensures disk.Valid() && disk.device.media == old(disk.device.media)
    ensures var s := Check(Lift(disk.backend, SuperblockRead(disk.device.status, old(disk.device.media), layout, p)));
      && (s.None? <==> t.None?)
      && (s.Some? && s.value.Err? ==> t == Some(Err(s.value.error)))
      && (s.Some? && s.value.Ok? ==> t == Some(Ok(MFlaw(s.value.value))))
  {
    var superblock := SuperblockTryParse(disk, layout, p);
    match superblock
    case None => return None;
    case Some(Err(err)) => return Some(Err(err));
    case Some(Ok(sb)) => return Some(Ok(MFlaw(sb)));
  }

  /** `MFlaw::write`: the superblock's write, its error passed on. */
  method Write(f: MFlaw, disk: MediaDisk, layout: NativeLayout, p: Partition) returns (r: Result<Unit, DiskError>)
    requires disk.Valid() && layout.Lawful()
    modifies disk.device
    ensures disk.Valid()
    ensures var o := FieldWrite(disk.device.status, old(disk.device.media), p.Start(), layout.encode(f.superblock));
      && r == Done(disk.backend, o.result)
      && disk.device.media == o.media
      && disk.device.issued == old(disk.device.issued) + o.issued
  {
    var w := SuperblockWrite(f.superblock, disk, layout, p);
    if w.Err? {
      return Err(w.error);
    }
    return Ok(Unit);
  }

  /** `struct MFlawBlock`: a block's index and its address. */
  datatype MFlawBlock = MFlawBlock(index: usize, address: usize) {
    /** `MFlawBlock::index`. */
    function Index(): (i: usize)
      ensures i == index
    {
      index
    }

    /** `MFlawBlock::address`. */
    function Address(): (a: usize)
      ensures a == address
    {
      address
    }
  }

  /** `MFlawBlock::new`. */
  function NewBlock(index: usize, address: usize): (b: MFlawBlock)
    ensures b.Index() == index && b.Address() == address
  {
    MFlawBlock(index, address)
  }
}
