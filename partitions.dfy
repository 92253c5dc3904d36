/**
 * Partitions (disk/src/partitions/mod.rs): a byte range of a disk, and the
 * `Partitionable` view every disk and partition offers.
 */
module Partitions {
  import opened Bytes

  /** Most partitions a partition table describes. */
  const MAX_PARTITIONS: nat := 32

  /** `struct Partition`: the bytes [start, end) of a disk. */
  datatype Partition = Partition(start: usize, end: usize) {
    /** `Partitionable::start` of a partition: its own start. */
    function Start(): (s: usize)
      ensures s == start
    {
      start
    }

    /** `Partitionable::end` of a partition: its own end. */
    function End(): (e: usize)
      ensures e == end
    {
      end
    }

    /** `Partitionable::as_partition` of a partition: a copy with the same bounds. */
    function AsPartition(): (p: Partition)
      ensures p.Start() == Start() && p.End() == End()
    {
      Partition(Start(), End())
    }
  }

  /** `Partition::new`. */
  function New(start: usize, end: usize): (p: Partition)
    ensures p.Start() == start && p.End() == end
  {
    Partition(start, end)
  }

  /** Viewing a partition as a partition changes nothing, however often it is done. */
  lemma AsPartitionIdempotent(p: Partition)
    ensures p.AsPartition() == p
    ensures p.AsPartition().AsPartition() == p.AsPartition()
  {
  }
}
