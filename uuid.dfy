/**
 * The two views of a UUID's 16 bytes the partition table uses: `as_bytes`,
 * the bytes as stored, and `Uuid::from_bytes_le`, which reads the first
 * three fields (4, 2 and 2 bytes) least significant byte first and so
 * reverses each of them. Nothing else of the `uuid` crate is modelled;
 * `Uuid::new_v4` becomes an arbitrary 16 bytes supplied by the caller.
 */
module Uuids {
  import opened Bytes

  /** A UUID, as its 16 bytes. */
  type Uuid = s: seq<byte> | |s| == 16 witness seq(16, _ => 0)

  /** `Uuid::from_bytes_le(b)` seen through `as_bytes`: fields 1 to 3 reversed, the last 8 bytes kept. */
  function FromBytesLe(b: Uuid): (u: Uuid)
    ensures u[..4] == [b[3], b[2], b[1], b[0]]
    ensures u[4..6] == [b[5], b[4]] && u[6..8] == [b[7], b[6]]
    ensures u[8..] == b[8..]
  {
    [b[3], b[2], b[1], b[0], b[5], b[4], b[7], b[6]] + b[8..]
  }

  /** Applying the permutation twice gives the bytes back. */
  lemma FromBytesLeInvolution(b: Uuid)
    ensures FromBytesLe(FromBytesLe(b)) == b
  {
    var u := FromBytesLe(FromBytesLe(b));
    assert forall i :: 0 <= i < 16 ==> u[i] == b[i];
  }

  /**
   * The permutation leaves a UUID as it is exactly when each of its first
   * three fields is a palindrome, so a stored UUID in general does not
   * read back as itself.
   */
  lemma FromBytesLeFixed(b: Uuid)
    ensures FromBytesLe(b) == b <==> b[0] == b[3] && b[1] == b[2] && b[4] == b[5] && b[6] == b[7]
  {
    if b[0] == b[3] && b[1] == b[2] && b[4] == b[5] && b[6] == b[7] {
      var u := FromBytesLe(b);
      assert forall i :: 0 <= i < 16 ==> u[i] == b[i];
    }
  }
}
