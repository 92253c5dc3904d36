# OnyxBay14 drivers: storage stack and device decoders

This project models the core of the OnyxBay14 device drivers, a set of `no_std` Rust crates for
the machines of the OnyxBay14 game. It models these parts:

- **Disk layer** (`disk/`):
  - the `Disk` contract;
  - its two adapters, `FloppyDisk` and `HddDisk`. Both cut every transfer into chunks of at most
    65536 bytes, issue one backend bulk operation per chunk, add up the byte counts, and
    translate backend errors into `DiskError`;
  - partitions and the `Partitionable` view every disk offers;
  - the sGPT ("simple GPT") partition table: header, records, `try_parse` and the record iterator;
  - the MFLAW file system superblock: its layout arithmetic and its magic-byte parse.
- **Decoders and opcode tables of the backends:**
  - floppy drive and hard disk errors, bulk operation ids, and hard disk argument registers.
- **Decoders and tables of the other devices:**
  - GPU: errors, opcodes, argument registers, colours, blend modes, text alignment, object
    types, hinting levels, filter qualities, painter styles and point modes;
  - HID: key states, mouse keys and mouse event types;
  - network hub: errors, opcodes and port modes.
- **The interrupt controller's register words** (`plic/`).
- **The health analyzer's damage-type iterator.**

The disk layer is imperative, as the source is:
- A `BulkDevice` class holds the backend's disk bytes (`media`), the status it answers to each
  operation (`status`, negative meaning failure) and a ghost log of the operations sent to it.
- A `MediaDisk` class is the floppy or hard disk adapter over such a device. Its `Write` and
  `Read` are loops over the chunks, proved against the chunked-transfer specification functions
  `ChunkedWrite` and `ChunkedRead` of module `Chunking`.
- The sGPT header and record transfers and the MFLAW superblock transfers are methods that call
  `MediaDisk.Write` and `MediaDisk.Read` field by field. They advance the offset by the count
  each call returns and stop at the first error, as the source's `?` does. They are proved
  against `WriteAll` and `ReadAll` of module `FieldIo`.
- The three-way parse results are `Option<Result<…, DiskError>>`, as in the source.

The properties proved are those of the code as written. Several of them show that the code does
not do what its names suggest:

- **Same address for every chunk.** All chunks of one transfer go to the same device address
  (`floppy_disk.rs:60,71`, `hdd_disk.rs:60,71`).
  - After a multi-chunk write, the device holds the last chunk (`Chunking.WriteLastChunkWins`).
  - A multi-chunk read fills the buffer with the same device bytes, repeated with period 65536
    (`Chunking.ReadFillsFromSameAddress`, `Chunking.SameAddressImageRepeats`).
- **Error guards that never hold.**
  - The guard of `From<i64>` is `v >= -1 && v <= -3` for the floppy drive and the network hub,
    and `v >= -1 && v <= -2` for the hard disk. No value satisfies either.
  - So every error code decodes to `Unknown`, and every failed disk transfer reports
    `DiskError::Unknown` (`MediaDisks.Translate`, `MediaDisks.Lift`).
- **sGPT signature byte order.**
  - `SGptHeader::default` stores the signature as `from_be_bytes("EFI PART")`.
  - `try_parse` accepts only `from_le_bytes("EFI PART")`.
  - So a freshly written default table is never recognised (`Sgpt.DefaultNotRecognised`).
- **sGPT UUID.** The UUID is stored as `as_bytes` but read through `from_bytes_le`, so it comes
  back with its first three fields byte-reversed (`Sgpt.HeaderRoundTrip`).
- **sGPT record type byte order.**
  - The type is written little-endian and read big-endian.
  - A `Boot` record therefore comes back as code 0x0100_0000, which names no declared variant
    (`Sgpt.StoredTypes`, `Sgpt.BootRecordComesBackUndeclared`).
- **sGPT record placement.**
  - Record `i` starts at `40 * i`, but a record is 164 bytes long.
  - Record 0 overwrites the header (`Sgpt.RecordZeroCoversHeader`).
  - Each record overwrites the last 124 bytes of the one before (`Sgpt.NextRecordOverlaps`).
- **Undeclared discriminants.**
  - `MouseKey::from` and `SGptPartitionType::from` transmute bytes that name no declared variant.
  - The model keeps these as an explicit `Undeclared(code)` value instead of undefined
    behaviour (`MouseKeys.FromU8`, `Sgpt.TypeFromU32`).
- **PLIC registers.**
  - The PLIC's pending-interrupt register and its settings register are the same byte.
  - Consecutive interrupts' 16-bit status words overlap by one byte (`Plics.RegisterLayout`).
  - The volatile accesses need pointers aligned to their width. In a window at a multiple of 4, the 32-bit settings write at offset 1 and the 16-bit status reads of odd-numbered interrupts are misaligned (`Plics.MisalignedAccesses`).

Terms used below:
- **status** is the device's answer to an operation.
- **media** is the bytes the device's disk holds.
- An operation is **refused** when its status is negative.
- `Refuses(status, n)` says that every operation reaching past byte `n` is refused.

## Model

| member | source | states |
|---|---|---|
| DiskErrors.DerivedOrder | disk/src/disk/mod.rs:9-15 | The derived order on `DiskError` is a strict total order with InvalidAddress < InvalidSize < DiskIsMissing < Unknown. |
| Partitions.New | disk/src/partitions/mod.rs:25-27 | `Partition::new(s, e)` keeps both bounds as given, for every pair, even when `s > e`. |
| Partitions.Partition.Start | disk/src/partitions/mod.rs:32-34 | A partition's `start()` is its stored start. |
| Partitions.Partition.End | disk/src/partitions/mod.rs:37-39 | A partition's `end()` is its stored end. |
| Partitions.Partition.AsPartition | disk/src/partitions/mod.rs:41-46 | `as_partition` gives a partition with the same start and end. |
| Partitions.AsPartitionIdempotent | disk/src/partitions/mod.rs:41-46 | `as_partition` returns an equal value, so applying it again changes nothing. |
| MediaDisks.MediaDisk.Start | disk/src/disk/mod.rs:30-32 | Every disk starts at byte 0. |
| MediaDisks.MediaDisk.End | disk/src/disk/mod.rs:35-37 | A disk ends at its size, read from the device when called. |
| MediaDisks.MediaDisk.AsPartition | disk/src/disk/mod.rs:40-42 | A disk as a partition spans [0, size). |
| BulkOps.BulkOp.Id | floppy_drive/src/floppy_drive_op.rs:16-21 | The opcode is 0 exactly for `BulkRead` and 1 exactly for `BulkWrite`, whatever the address, size and buffer. |
| BulkOps.IdsDistinct | hdd/src/hdd_op.rs:16-21 | Two operations have the same opcode exactly when they are the same variant; the payload plays no part. |
| FloppyDrives.FromCode | floppy_drive/src/floppy_drive_error.rs:10-18 | Every i64 decodes to `Unknown`, the declared codes -1, -2 and -3 included, because no value meets the guard. |
| Hdds.FromCode | hdd/src/hdd_error.rs:9-17 | Every i64 decodes to `Unknown`, the declared codes -1 and -2 included. |
| Hdds.HddArgument.Offset | hdd/src/hdd_argument.rs:19-21 | Register k sits at 0x100 + k, so the ten registers lie at 0x100 to 0x109. |
| Hdds.FromU8 | hdd/src/hdd_argument.rs:24-32 | A byte up to 9 decodes to the register with that discriminant, and any larger byte to `Arg0`. |
| Hdds.ArgumentRoundTrip | hdd/src/hdd_argument.rs:5-32 | Decoding a register's discriminant gives the register back, distinct registers have distinct offsets, and Arg0 and Arg9 sit at 0x100 and 0x109. |
| Devices.BulkDevice.Size | floppy_drive/src/lib.rs:32-34 | The device's size register reads as its disk's byte count. |
| Devices.BulkDevice.CallWrite | floppy_drive/src/lib.rs:40-66 | A refused write returns its status and leaves the disk alone. An accepted write lies within the disk and stores the buffer slice at `address`. Either way the operation is logged. |
| Devices.BulkDevice.CallRead | floppy_drive/src/lib.rs:40-66 | A refused read returns its status and leaves the buffer alone. An accepted read lies within the disk and copies the device bytes at `address` into the buffer slice. Either way the operation is logged and the disk is unchanged. |
| MediaDisks.Backend.MaxTransfer | floppy_drive/src/lib.rs:13 | The chunk size is the backend's MAX_READ_WRITE_SIZE, 65536, which is positive. |
| MediaDisks.MapFloppyError | disk/src/disk/floppy_disk.rs:24-29 | The floppy error mapping sends each variant to its namesake, with `FloppyDriveIsEmpty` going to `DiskIsMissing`. Each of these correspondences holds in both directions. |
| MediaDisks.MapHddError | disk/src/disk/hdd_disk.rs:25-29 | The hard disk mapping sends each variant to its namesake in both directions, and never yields `DiskIsMissing`. |
| MediaDisks.Translate | disk/src/disk/floppy_disk.rs:16-32 | A refused operation, decoded by the backend and mapped by the adapter, is always `DiskError::Unknown`, on both backends. |
| MediaDisks.Lift | disk/src/disk/floppy_disk.rs:24-29 | The `map_err` before every `?`: a backend result succeeds at the disk exactly when it succeeded at the device, with the same value. A failure becomes its translated status, which is always `DiskError::Unknown`. |
| MediaDisks.MediaDisk.constructor | disk/src/disk/floppy_disk.rs:11-13 | A disk adapter wraps the given backend device. |
| MediaDisks.MediaDisk.WriteInner | disk/src/disk/floppy_disk.rs:16-32 | One bulk write of the chunk. On success it reports the chunk's length, whatever number the device answered, and the device holds the chunk at `address`. On failure it reports the translated status and the disk is unchanged. |
| MediaDisks.MediaDisk.ReadInner | disk/src/disk/floppy_disk.rs:35-51 | One bulk read into the chunk. On success it reports the chunk's length and the chunk holds the device bytes at `address`. On failure it reports the translated status and the buffer is unchanged. |
| MediaDisks.MediaDisk.WriteChunk | disk/src/disk/hdd_disk.rs:56-64 | One turn of the write loop: success reports the chunk length and keeps the loop invariant at the next chunk; failure leaves the device exactly as the whole transfer's specification says. |
| MediaDisks.MediaDisk.Write | disk/src/disk/floppy_disk.rs:56-64 | `Disk::write` returns, stores and logs exactly what `ChunkedWrite` specifies: one operation per chunk, all at `address`, stopping at the first refused one. |
| MediaDisks.MediaDisk.ReadChunk | disk/src/disk/hdd_disk.rs:67-75 | One turn of the read loop: success reports the chunk length and keeps the read invariant at the next chunk; failure leaves the buffer as the specification says. |
| MediaDisks.MediaDisk.Read | disk/src/disk/floppy_disk.rs:67-75 | `Disk::read` returns and logs what `ChunkedRead` specifies. The buffer holds what the successful chunks read, followed by its old contents, and the device's disk is unchanged. |
| MediaDisks.MediaDisk.Size | disk/src/disk/floppy_disk.rs:78-80 | `size()` is the backend's disk size, read on every call. |
| Chunking.ChunkEnd | disk/src/disk/floppy_disk.rs:59 | Each chunk is non-empty and at most the chunk size, and every chunk but the last is exactly the chunk size. |
| Chunking.LastChunkStart | disk/src/disk/floppy_disk.rs:59 | The last chunk starts within the buffer and is at most the chunk size. |
| Chunking.ChunkCountIsCeil | disk/src/disk/floppy_disk.rs:59 | `chunks(max)` cuts `len` bytes into ceil(len / max) pieces. |
| Chunking.WriteReportsLength | disk/src/disk/floppy_disk.rs:57-63 | A successful write reports the full buffer length, as the sum of the chunk lengths. |
| Chunking.WriteIssuesChunkCount | disk/src/disk/floppy_disk.rs:59-61 | A successful write issues one operation per chunk, ceil(len / chunk size) of them, and a failed one no more than that. |
| Chunking.WriteIssuesChunkInOrder | disk/src/disk/floppy_disk.rs:59-61 | The k-th operation is a bulk write of the k-th chunk: its length, buffer position k times the chunk size, and always the same device `address`. |
| Chunking.WriteStopsAtFirstFailure | disk/src/disk/floppy_disk.rs:60 | A write fails exactly when some operation is refused. That operation is the last one issued, every earlier one was accepted, and the result carries its status. |
| Chunking.WriteSingleChunk | disk/src/disk/hdd_disk.rs:56-64 | A buffer of one chunk is one operation. On success the device holds the buffer at `address`; on failure the disk is unchanged. |
| Chunking.WriteLastChunkWins | disk/src/disk/hdd_disk.rs:60 | After a successful write, the device bytes at `address` are those of the last chunk, not the start of the buffer, because every chunk goes to the same address. |
| Chunking.ReadReportsLength | disk/src/disk/floppy_disk.rs:68-74 | A successful read reports the full buffer length. |
| Chunking.ReadIssuesChunkCount | disk/src/disk/floppy_disk.rs:70-72 | A successful read issues one operation per chunk, ceil(len / chunk size) of them, and a failed one no more than that. |
| Chunking.ReadIssuesChunkInOrder | disk/src/disk/floppy_disk.rs:70-72 | The k-th operation is a bulk read into the k-th chunk, from the same device `address`. |
| Chunking.ReadStopsAtFirstFailure | disk/src/disk/floppy_disk.rs:71 | A read fails exactly when some operation is refused: the last one issued, all earlier ones accepted, its status reported. |
| Chunking.ReadFillsFromSameAddress | disk/src/disk/hdd_disk.rs:71 | A successful read fills the buffer chunk by chunk with the device bytes at the same `address`. |
| Chunking.SameAddressImageRepeats | disk/src/disk/hdd_disk.rs:70-72 | Such a buffer starts with the device bytes at `address` and then repeats itself with the chunk size as its period. |
| Chunking.ReadSingleChunk | disk/src/disk/hdd_disk.rs:67-75 | A buffer of one chunk is one operation, and on success holds device bytes [address, address + len). |
| FieldIo.WriteAllLays | disk/src/partitions/sgpt.rs:36-46 | A successful run of `offset += disk.write(offset, field)?` stores the fields end to end from the first offset and counts every byte. |
| FieldIo.WriteAllStopsAtFailure | disk/src/partitions/sgpt.rs:39-43 | A run of field writes issues one operation per field up to the first refused one, and reports that operation's status. |
| FieldIo.WriteAllAcceptedBefore | disk/src/partitions/sgpt.rs:39-43 | Every operation before the last one issued was accepted, and the last one too when the run succeeds. |
| FieldIo.ReadAllSlices | disk/src/partitions/sgpt.rs:50-65 | A successful run of field reads returns the device bytes laid end to end from the first offset. |
| FieldIo.ReadAllLengths | disk/src/partitions/sgpt.rs:52-65 | A successful run of field reads returns one field of each requested size. |
| FieldIo.ReadAllStopsAtFailure | disk/src/partitions/sgpt.rs:53-65 | A run of field reads issues one operation per field up to the first refused one, and reports its status. |
| FieldIo.ReadAllAcceptedBefore | disk/src/partitions/sgpt.rs:53-65 | Every read before the last one issued was accepted, and the last one too when the run succeeds. |
| FieldIo.WriteThenRead | disk/src/partitions/sgpt.rs:36-80 | Fields written successfully and read back successfully from the same offset, with the same sizes, are the fields written. |
| FieldIo.Put | disk/src/partitions/sgpt.rs:39 | One `offset += disk.write(offset, field)?`: on success the offset advances by the field's length; on failure the run's specified error and final state are reached. |
| FieldIo.Get | disk/src/partitions/sgpt.rs:52-53 | One read of `size` bytes into a fresh buffer: on success the offset advances by the size and the bytes read are the next field of the run. |
| Uuids.FromBytesLe | disk/src/partitions/sgpt.rs:69 | `Uuid::from_bytes_le` reverses bytes 0-3, 4-5 and 6-7 and keeps bytes 8-15. |
| Uuids.FromBytesLeInvolution | disk/src/partitions/sgpt.rs:69 | Applying the permutation twice gives the bytes back. |
| Uuids.FromBytesLeFixed | disk/src/partitions/sgpt.rs:69 | A UUID survives the permutation exactly when each reversed field is a palindrome. |
| Bytes.FromLeToLe | disk/src/partitions/sgpt.rs:67-71 | A value that fits in n bytes, stored little-endian and read back little-endian, is the value. |
| Bytes.ToLeFromLe | disk/src/partitions/sgpt.rs:39-43 | Bytes read little-endian and stored little-endian again are the same bytes. |
| Sgpt.TypeFromU32 | disk/src/partitions/sgpt.rs:14-22 | Codes 1 to 0xFFFF_FFFE transmute to the type with that code: 1 is `Boot`, the rest are undeclared. 0 and 0xFFFF_FFFF decode to `Unknown`. |
| Sgpt.TypeRoundTrip | disk/src/partitions/sgpt.rs:14-22 | Every type the decoder can produce decodes back from its own code. None of them has code 0, which decodes to `Unknown`. |
| Sgpt.SGptPartition.Start | disk/src/partitions/sgpt.rs:164-166 | A record's `start()` is its stored start. |
| Sgpt.SGptPartition.End | disk/src/partitions/sgpt.rs:168-170 | A record's `end()` is its stored end. |
| Sgpt.SGptPartition.AsPartition | disk/src/partitions/sgpt.rs:172-174 | A record as a partition spans [start, end). |
| Sgpt.SignatureValues | disk/src/partitions/sgpt.rs:86 | "EFI PART" read little-endian is 0x5452_4150_2049_4645; read big-endian it is 0x4546_4920_5041_5254. |
| Sgpt.DefaultHeader | disk/src/partitions/sgpt.rs:83-100 | The default header has header size 40, 32 partitions, partition size 128 and the supplied UUID. Its signature is not the one `try_parse` accepts. |
| Sgpt.Default | disk/src/partitions/sgpt.rs:253-260 | The default table is the default header. |
| Sgpt.HeaderFields | disk/src/partitions/sgpt.rs:39-43 | The header is stored as five fields of 8, 4, 16, 4 and 4 bytes, laid end to end. |
| Sgpt.DecodeHeaderFields | disk/src/partitions/sgpt.rs:67-71 | Decoding the stored fields gives the header back, except that the UUID comes back permuted. |
| Sgpt.Check | disk/src/partitions/sgpt.rs:223-237 | A read error becomes `Some(Err)`. A header is a table exactly when it has the little-endian signature and the size 40, and it is then carried unchanged. |
| Sgpt.HeaderRoundTrip | disk/src/partitions/sgpt.rs:36-80 | A header written and then read back successfully is the header, with its UUID permuted by `from_bytes_le`. |
| Sgpt.DefaultNotRecognised | disk/src/partitions/sgpt.rs:229 | A default table written and read back successfully is not recognised: `try_parse` gives `None`. |
| Sgpt.LittleEndianSignatureRecognised | disk/src/partitions/sgpt.rs:229-237 | A header with the little-endian signature and size 40, written and read back successfully, is recognised as a table. |
| Sgpt.WriteHeader | disk/src/partitions/sgpt.rs:36-46 | `SGptHeader::write` stores, logs and returns exactly what the run of its five field writes from offset 0 specifies. |
| Sgpt.ReadHeader | disk/src/partitions/sgpt.rs:48-80 | `SGptHeader::read` returns the header decoded from the five fields read from offset 0, or the first error. The disk is unchanged. |
| Sgpt.Write | disk/src/partitions/sgpt.rs:213-217 | `SGpt::write` writes the header and nothing else, passing its error on. |
| Sgpt.TryParse | disk/src/partitions/sgpt.rs:220-238 | `try_parse` reads the header and gives one of three outcomes: a read error as `Some(Err)`, `None` for a wrong signature or size, or `Some(Ok)` with the header. |
| Sgpt.RecordFields | disk/src/partitions/sgpt.rs:153-157 | A record is stored as five fields of 4, 16, 8, 8 and 128 bytes, 164 bytes in all. |
| Sgpt.DecodeRecordFields | disk/src/partitions/sgpt.rs:131-134 | Decoding a record's stored fields gives the record back, with its type passed through the byte-order mismatch and its UUID permuted. |
| Sgpt.StoredTypes | disk/src/partitions/sgpt.rs:131 | `Boot`, stored little-endian and read big-endian, becomes the undeclared code 0x0100_0000. `Unknown` survives. |
| Sgpt.RecordRoundTrip | disk/src/partitions/sgpt.rs:113-160 | A record written and read back successfully at the same index is the record: its start, end and name are unchanged, its type has gone through the byte-order mismatch and its UUID is permuted. |
| Sgpt.BootRecordComesBackUndeclared | disk/src/partitions/sgpt.rs:131 | A `Boot` record written and read back comes back with a type different from `Boot`. |
| Sgpt.SGptPartition.IsEmpty | disk/src/partitions/sgpt.rs:145-147 | A record is empty exactly when its end is 0 (see `Sgpt.ZeroedRecordIsEmpty`). |
| Sgpt.ZeroedRecordIsEmpty | disk/src/partitions/sgpt.rs:145-147 | A record whose bytes on the disk are all zero reads as empty, starting at 0, with type `Unknown`. |
| Sgpt.ZeroedRecordDecodes | disk/src/partitions/sgpt.rs:131-134 | Zeroed fields decode to an empty record of type `Unknown` starting at 0. |
| Sgpt.RecordZeroCoversHeader | disk/src/partitions/sgpt.rs:151 | Writing record 0 successfully replaces the whole 40-byte header with the record's first 40 bytes. |
| Sgpt.NextRecordOverlaps | disk/src/partitions/sgpt.rs:115 | Writing record i + 1 successfully overwrites the last 124 bytes of record i's span. |
| Sgpt.WriteRecord | disk/src/partitions/sgpt.rs:150-160 | `SGptPartition::write(index)` stores, logs and returns exactly what the run of its five field writes from `40 * index` specifies. |
| Sgpt.ReadRecord | disk/src/partitions/sgpt.rs:113-143 | `SGptPartition::read(index)` returns the record decoded from the five fields read from `40 * index`, or the first error. The disk is unchanged. |
| Sgpt.SgptPartitionIterator.constructor | disk/src/partitions/sgpt.rs:245-249 | A new iterator is at record 0 with the given bound. |
| Sgpt.SgptPartitionIterator.Next | disk/src/partitions/sgpt.rs:193-201 | Once `next` reaches `max`, every call returns `None` and changes nothing. Before that, a call returns `Some` of reading record `next`, error or not, and advances `next` by exactly one; it never passes `max`. |
| Sgpt.IterPartitions | disk/src/partitions/sgpt.rs:241-250 | The iterator starts at record 0 and stops at the header's partition count. |
| MFlaws.Max | disk/src/fs/mflaw.rs:79 | `usize::max` is the larger of its arguments. |
| MFlaws.BlocksInIsDivision | disk/src/fs/mflaw.rs:74 | The block count is `bytes / BLOCK_SIZE`. |
| MFlaws.BlocksInBounds | disk/src/fs/mflaw.rs:74 | The blocks counted fit in the bytes, and one more block would not. |
| MFlaws.SuperblockNew | disk/src/fs/mflaw.rs:71-102 | A layout that exists has magic 0xF1 and total size end - start. |
| MFlaws.Layout | disk/src/fs/mflaw.rs:73-101 | The layout from the data block count has magic 0xF1 and the given total size, when no subtraction underflows. |
| MFlaws.BitmapBlocks | disk/src/fs/mflaw.rs:79-84 | A bitmap takes at least one block, and more than one only if that is at most an eighth of its entries. |
| MFlaws.BitmapsFit | disk/src/fs/mflaw.rs:82-87 | With at least two blocks, both bitmaps together fit in the blocks. |
| MFlaws.LayoutDefined | disk/src/fs/mflaw.rs:77-88 | With at least two blocks after the superblock, none of the subtractions underflows. |
| MFlaws.NewDefinedWithTwoBlocks | disk/src/fs/mflaw.rs:72-88 | At least two blocks after the 80-byte superblock suffice for `new` to be defined. |
| MFlaws.NewUndefinedBelowTwoBlocks | disk/src/fs/mflaw.rs:77-87 | With fewer than two blocks, some subtraction of `new` underflows. |
| MFlaws.NewDefinedIff | disk/src/fs/mflaw.rs:72-88 | `new` is free of underflow exactly when end >= start + 80 + 2 * BLOCK_SIZE. |
| MFlaws.NewAccounts | disk/src/fs/mflaw.rs:73-88 | Every layout has at least one block per bitmap and inodes = D - 1, where D is the number of blocks after the superblock. The bitmaps and data add up to D, and the data size plus the bitmap bytes equal total size - 80. |
| MFlaws.LeLayoutLawful | disk/src/fs/mflaw.rs:109-116 | There is an 80-byte image meeting what the transmutes rely on: the magic first, and decode after encode being the identity. |
| MFlaws.Check | disk/src/fs/mflaw.rs:125-134 | A read error becomes `Some(Err)`. A superblock is recognised exactly when its magic is 0xF1, and is then carried unchanged. |
| MFlaws.ParsedByMagic | disk/src/fs/mflaw.rs:121-135 | After a successful read, the superblock is recognised exactly when the partition's first disk byte is 0xF1. |
| MFlaws.WriteThenParse | disk/src/fs/mflaw.rs:137-149 | A superblock with the magic, written at a partition's start and read back from there, parses as itself. |
| MFlaws.TryParseInner | disk/src/fs/mflaw.rs:105-118 | `try_parse_inner` reads 80 bytes at the partition's absolute start and decodes them, or returns the error; the disk is unchanged. |
| MFlaws.SuperblockTryParse | disk/src/fs/mflaw.rs:120-135 | `MFlawSuperblock::try_parse` gives `Some(Err)` on a read error, `None` without the magic, and otherwise `Some(Ok)` with the superblock. |
| MFlaws.SuperblockWrite | disk/src/fs/mflaw.rs:137-149 | `write` stores the 80-byte image at the partition's start in one disk write, and returns its error. |
| MFlaws.MFlaw.Superblock | disk/src/fs/mflaw.rs:48-51 | `superblock()` returns the wrapped superblock. |
| MFlaws.New | disk/src/fs/mflaw.rs:16-21 | `MFlaw::new` is defined exactly when the superblock's `new` is, and wraps its result. |
| MFlaws.TryParse | disk/src/fs/mflaw.rs:23-35 | `MFlaw::try_parse` passes each of the superblock's three outcomes on unchanged. |
| MFlaws.Write | disk/src/fs/mflaw.rs:37-46 | `MFlaw::write` is the superblock's write, its error passed on. |
| MFlaws.MFlawBlock.Index | disk/src/fs/mflaw.rs:192-195 | `index()` returns the stored index. |
| MFlaws.MFlawBlock.Address | disk/src/fs/mflaw.rs:197-200 | `address()` returns the stored address. |
| MFlaws.NewBlock | disk/src/fs/mflaw.rs:186-190 | A new block's getters return the constructor's arguments. |
| NetHubErrors.FromI64 | net_hub/src/net_hub_error.rs:10-18 | Every i64 decodes to `Unknown`. |
| NetHubErrors.GuardEmpty | net_hub/src/net_hub_error.rs:12 | No value passes the guard, so even the declared code of `InvalidPort` decodes to `Unknown`. |
| NetHubOps.IdsInDeclarationOrder | net_hub/src/net_hub_op.rs:50-67 | The opcodes are 0x0 to 0xC in declaration order, at most 0xC. Two operations share an opcode exactly when they are the same variant, whatever their payloads. |
| PortModes.FromU8 | net_hub/src/port_mode.rs:8-16 | 0 decodes to `Simple`, 1 to `Complex`, and any larger byte to `Simple`. |
| PortModes.RoundTrip | net_hub/src/port_mode.rs:3-16 | Decoding a mode's discriminant gives the mode back; distinct modes have distinct discriminants. |
| GpuErrors.FromI64 | gpu/src/gpu_error.rs:12-23 | -1 to -5 decode to the error with that discriminant, and any other i64 to `Unknown`. |
| GpuErrors.RoundTrip | gpu/src/gpu_error.rs:4-23 | Decoding an error's discriminant gives it back; discriminants are distinct. |
| GpuOps.NamedInvertsId | gpu/src/gpu_op.rs:91-131 | The opcode names its variant: looking it up gives the operation back with its payload erased. |
| GpuOps.IdNamesVariant | gpu/src/gpu_op.rs:91-131 | Two operations share an opcode exactly when they are the same variant; the payload plays no part. |
| GpuOps.IdRanges | gpu/src/gpu_op.rs:94-129 | Every opcode is 0x0, 0x10, or lies in 0x100-0x10F, 0x500-0x502 or 0x1000-0x1006. |
| GpuOps.PainterPairs | gpu/src/gpu_op.rs:100-115 | Painter setters have even opcodes in 0x100-0x10E, and the matching getter has the next opcode. |
| GpuArguments.GpuArgument.Offset | gpu/src/gpu_argument.rs:18-33 | An argument's offset is its number past 0x100. |
| GpuArguments.OffsetsBijective | gpu/src/gpu_argument.rs:18-33 | Offsets are injective, every offset in 0x100-0x109 is some argument's, and Arg0 and Arg9 sit at 0x100 and 0x109. |
| Colors.NewRgb | gpu/src/color.rs:12-14 | `new_rgb` keeps r, g and b, with alpha 255. |
| Colors.NewRgba | gpu/src/color.rs:17-19 | `new_rgba` keeps all four components. |
| Colors.NamedColours | gpu/src/color.rs:21-44 | Red, green, blue, white and black are the expected opaque colours. |
| Colors.FromPacked | gpu/src/color.rs:47-56 | Decoding `r \| g << 8 \| b << 16 \| a << 24` gives `new_rgba(r, g, b, a)`. |
| Colors.DecodesAsLowBits | gpu/src/color.rs:47-56 | A value decodes as its low 32 bits do: bits above 31 are ignored. |
| Colors.HighBitsIgnored | gpu/src/color.rs:47-56 | Packing the decoded colour gives back the value's low 32 bits. |
| BlendModes.FromU8 | gpu/src/blend_mode.rs:35-43 | A byte up to 28 decodes to the mode with that discriminant, and any larger byte to `Clear`. |
| BlendModes.RoundTrip | gpu/src/blend_mode.rs:3-43 | Decoding each of the 29 modes' discriminants gives the mode back; discriminants are distinct. |
| TextAligns.FromU8 | gpu/src/text_align.rs:9-17 | 0, 1 and 2 decode to `Left`, `Center` and `Right`, and any larger byte to `Left`. |
| TextAligns.RoundTrip | gpu/src/text_align.rs:3-17 | Decoding an alignment's discriminant gives it back. |
| ObjectTypes.FromU8 | gpu/src/object.rs:10-18 | 0 to 3 decode to `Points`, `Vertices`, `Text` and `Typeface`, and any larger byte to `Points`. |
| ObjectTypes.RoundTrip | gpu/src/object.rs:3-18 | Decoding an object type's discriminant gives it back. |
| HintingLevels.FromI64 | gpu/src/hinting_level.rs:10-19 | 1 to 3 decode to `Slight`, `Normal` and `Full`, and any other i64 to `NoHinting`. |
| HintingLevels.RoundTrip | gpu/src/hinting_level.rs:3-19 | Decoding a level's discriminant gives it back. |
| FilterQualities.FromI64 | gpu/src/filter_quality.rs:10-19 | 1 to 3 decode to `Low`, `Medium` and `High`, and any other i64 to `None`. |
| FilterQualities.RoundTrip | gpu/src/filter_quality.rs:3-19 | Decoding a quality's discriminant gives it back. |
| PainterStyles.FromI64 | gpu/src/painter_style.rs:9-17 | 1 decodes to `Stroke`, 2 to `StrokeAndFill`, and any other i64 to `Fill`. |
| PainterStyles.RoundTrip | gpu/src/painter_style.rs:3-17 | Decoding a style's discriminant gives it back. |
| PointModes.FromI64 | gpu/src/points_mode.rs:9-17 | 1 decodes to `Lines`, 2 to `Polygons`, and any other i64 to `Points`. |
| PointModes.RoundTrip | gpu/src/points_mode.rs:3-17 | Decoding a mode's discriminant gives it back. |
| KeyStates.FromU8 | hid/src/key_state.rs:9-17 | 0, 1 and 2 decode to `Up`, `Repeat` and `Down`, and any larger byte to `Up`. |
| KeyStates.RoundTrip | hid/src/key_state.rs:3-17 | Decoding a key state's discriminant gives it back. |
| MouseEventTypes.FromU8 | hid/src/mouse/event_type.rs:9-17 | 0, 1 and 2 decode to `None`, `Key` and `Move`, and any larger byte to `None`. |
| MouseEventTypes.RoundTrip | hid/src/mouse/event_type.rs:3-17 | Decoding an event type's discriminant gives it back. |
| MouseKeys.MouseKey.Offset | hid/src/mouse/mouse_key.rs:12-16 | A key's register is its discriminant past 0x100. |
| MouseKeys.FromU8 | hid/src/mouse/mouse_key.rs:18-26 | Every byte is transmuted to the value with that discriminant. The result is a declared key exactly for 0, 1, 2 and 255. |
| MouseKeys.GuardAlwaysHolds | hid/src/mouse/mouse_key.rs:20 | Every byte passes the guard, so the `Unknown` fallback is unreachable. |
| MouseKeys.RoundTrip | hid/src/mouse/mouse_key.rs:5-26 | Decoding a key's discriminant gives it back, and offsets are injective: Left 0x100, Right 0x101, Middle 0x102, Unknown 0x1FF. |
| Plics.PendingOf | plic/src/lib.rs:32-40 | The pending register names no interrupt exactly when it is 0, and otherwise names the interrupt it holds. |
| Plics.IrqRegister | plic/src/lib.rs:43 | Every interrupt's status word lies in the block 0x10 to 0x10F, one byte per interrupt index. |
| Plics.IrqOf | plic/src/lib.rs:42-58 | A status word decodes to no interrupt exactly when it is 0. |
| Plics.IrqRoundTrip | plic/src/lib.rs:49-57 | Priority, the enabled bit and the pending bit, packed into bits 0-7, 8 and 9, decode back to themselves, whatever bits 10-15 hold. None of them set means no interrupt. |
| Plics.IrqOfKeepsLowBits | plic/src/lib.rs:49-51 | Decoding keeps exactly the low ten bits of a nonzero word. |
| Plics.StatusBits | plic/src/lib.rs:49-51 | The priority is bits 0-7 of the word, the enabled flag bit 8 and the pending flag bit 9. |
| Plics.ValueWordFields | plic/src/lib.rs:64-71 | The settings word holds the interrupt index in byte 0, the type code in byte 1 and the value in byte 2, each recoverable. |
| Plics.ValueWordInjective | plic/src/lib.rs:64-71 | Two settings write the same word only when they are the same setting. |
| Plics.RegisterLayout | plic/src/lib.rs:11-14 | Consecutive interrupts' 16-bit status words are one byte apart, so they overlap, and the pending and settings registers are the same byte. |
| Plics.MisalignedAccesses | plic/src/lib.rs:43-70 | In a window whose address is a multiple of 4, the 32-bit settings write at offset 1 is misaligned, and so is every odd-numbered interrupt's 16-bit status read. |
| Plics.IrqValueType.Code | plic/src/lib.rs:90-96 | The setting type codes are 0, 1 and 2. |
| Plics.Mmio.ReadU8 | mmio/src/lib.rs:47-58 | A byte read returns the device's answer truncated to 8 bits and is logged. |
| Plics.Mmio.ReadU16 | mmio/src/lib.rs:47-58 | A half-word read returns the device's answer truncated to 16 bits and is logged. |
| Plics.Mmio.WriteU8 | mmio/src/lib.rs:34-45 | A byte write is logged with its offset and value. |
| Plics.Mmio.WriteU32 | mmio/src/lib.rs:34-45 | A word write is logged with its offset and value. |
| Plics.Plic.constructor | plic/src/lib.rs:22-26 | A new controller's window is at the given address, with no accesses yet. |
| Plics.Plic.Threshold | plic/src/lib.rs:28-30 | `threshold()` is one byte read of register 0. |
| Plics.Plic.PendingIrq | plic/src/lib.rs:32-40 | `pending_irq()` is one byte read of register 1, decoded by `PendingOf`. |
| Plics.Plic.GetIrq | plic/src/lib.rs:42-58 | `irq(i)` is one 16-bit read at i + 0x10, decoded by `IrqOf`. |
| Plics.Plic.SetThreshold | plic/src/lib.rs:60-62 | `set_threshold` is one byte write to register 0. |
| Plics.Plic.SetValue | plic/src/lib.rs:64-71 | `set_value` is one 32-bit write of the settings word to register 1. |
| Plics.Plic.SetPriority | plic/src/lib.rs:73-75 | `set_priority` writes a type-0 setting carrying the priority. |
| Plics.Plic.SetEnabled | plic/src/lib.rs:77-83 | `set_enabled` writes a type-1 setting carrying 1 or 0. |
| Plics.Plic.Claim | plic/src/lib.rs:85-87 | `claim` writes a type-2 setting carrying 1. |
| HealthAnalyzers.DamageType.Discriminant | health_analyzer/src/lib.rs:44-59 | The discriminants are 0 to 11. |
| HealthAnalyzers.Transmute | health_analyzer/src/lib.rs:37 | The transmute is applied only to declared discriminants, 0 to 11, and gives the type with that discriminant. |
| HealthAnalyzers.Remaining | health_analyzer/src/lib.rs:32-41 | From counter n the iterator yields 12 - n items, and none once n is past 11. |
| HealthAnalyzers.RemainingFromStart | health_analyzer/src/lib.rs:24-59 | From counter n it yields exactly the damage types n to 11 in discriminant order, so a default iterator yields all 12, `Asphyxiation` to `Slash`. |
| HealthAnalyzers.DamageTypeIterator.constructor | health_analyzer/src/lib.rs:24-27 | A default iterator starts at 0. |
| HealthAnalyzers.DamageTypeIterator.Next | health_analyzer/src/lib.rs:32-41 | Past 11 a call returns `None` and leaves the counter alone. Otherwise it returns the type with the counter's discriminant and increments the counter, which never exceeds 12. What is still to come shrinks by exactly the item returned. |

## Left out

- The MMIO marshalling of `call_op`, `arg`, `set_arg` and `size` in gpu/src/lib.rs, net_hub/src/lib.rs, floppy_drive/src/lib.rs and hdd/src/lib.rs is not modelled. These write arguments as f64 registers and read an f64 status, which is I/O and float conversion. Each block backend is a `BulkDevice` whose answer to an operation is the function `status`; the model keeps only the sign test on the status and the `From<i64>` decode.
- mmio/src/lib.rs does volatile pointer access. The PLIC's window is a `Mmio` object whose reads answer by a function of the register, width and earlier accesses, with every access logged.
- `FloppyDisk` and `HddDisk` are one class, `MediaDisk`, with a `backend` field selecting the chunk size and error translation. Their transfer loops are the same otherwise. The two sources also differ in ways the one class does not capture:
  - `HddDisk::read_inner` (disk/src/disk/hdd_disk.rs:36) takes its destination as a shared `&[u8]` and lets the device write through `dst.as_ptr()`. That is a write through a shared borrow, which Rust treats as undefined behaviour. The model reads into a mutable array for both backends, with the floppy's `&mut [u8]` meaning.
  - `HddDisk` derives `Clone` (disk/src/disk/hdd_disk.rs:5) and `FloppyDisk` does not. The model has no copies of a disk, so two handles on one hard disk are not modelled.
- Devices.BulkDevice: `Valid()` assumes two things about every device. First, it refuses every operation that reaches past the end of its disk (`Refuses`); the CallWrite/CallRead rows' "an accepted transfer lies within the disk" rests on that. Second, its disk's length never changes: `eject_disk` (floppy_drive/src/lib.rs:36-38) is not modelled, and `MediaDisk.Size` reads the same length on every call.
- The `Disk` and `Partitionable` trait parameters of the sGPT and MFLAW code are not generic: those functions take a `MediaDisk` and a `Partition`. A record's or disk's own `Partitionable` view is modelled separately.
- A disk's buffer pointer (`src.as_ptr() as usize`) is modelled as the chunk's position within the caller's buffer.
- `Uuid::new_v4()` randomness is a parameter of `Sgpt.DefaultHeader` and `Sgpt.Default`.
- The uuid crate is not part of this model, except the byte permutation `from_bytes_le` applies.
- `BLOCK_SIZE` comes from disk/src/fs, which is not part of this model. It is a positive parameter of the MFLAW layout.
- `size_of` values assume a 64-bit target: `SGptHeader` is 40 bytes and `MFlawSuperblock` 80.
- The native-layout transmutes of the MFLAW superblock (`transmute`, `transmute_copy`) are an abstract `NativeLayout` with the properties the code relies on: an 80-byte image, the magic in byte 0, and decode after encode being the identity. No byte order is chosen; one little-endian layout is shown to meet the requirement.
- MFlaws.SuperblockWrite, MFlaws.Write: these require the `NativeLayout` to be lawful, so that the image is the 80 bytes the source sends. The source has no such requirement because it always uses the compiler's layout.
- MFlaws.SuperblockNew: a `usize` subtraction that would underflow (a panic in debug builds, a wrap in release builds) is modelled as `None` rather than as the wrapped value.
- The commented-out bitmap-block addressing (disk/src/fs/mflaw.rs:151-177) is not code and is not modelled.
- `GpuOp`'s float, rectangle and buffer payloads are reduced to placeholders, and `call_op` dispatch in gpu/src/lib.rs is not modelled. Only the opcode table is kept, and it ignores payloads.
- `SGptPartitionType::from` and `MouseKey::from` transmute discriminants that no variant declares, which is undefined behaviour. The model keeps the code as an explicit `Undeclared(code)` value.
- The `transmute` branches of the floppy drive, hard disk and network hub decoders cannot be reached because their guards are empty. They are modelled by a lookup of the declared codes.
- plic/src/irq.rs is not part of this model. `Irq` is modelled as the three fields `irq` fills.
- The health analyzer's `damage` and `has_disease` are MMIO f64 and byte reads and are not modelled. Neither is `DamageType`'s derived ordering.
- `Color`'s `From<f64>` (gpu/src/color.rs:58-62) is a float cast and is not modelled.
- These crates are not modelled: sgl, bsod, heap, pci, the HID mouse and keyboard modules, and the device accessors (screen, apm, clint, tts, rtc, tpm, flash, serial_terminal). They are MMIO polling, rendering, allocation and bus enumeration.
- Concurrency and interrupts between driver calls are not modelled: every method runs alone against its device.
