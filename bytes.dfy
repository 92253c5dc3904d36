/**
 * Fixed-width machine integers and their little- and big-endian byte images
 * (`to_le_bytes`, `from_le_bytes`, `from_be_bytes`), plus the byte-range
 * overwrite a successful device write performs. A 64-bit target is assumed,
 * so `usize` is the 64-bit unsigned range.
 */
module Bytes {

  type byte = x: int | 0 <= x < 0x100
  type u16 = x: int | 0 <= x < 0x1_0000
  type u32 = x: int | 0 <= x < 0x1_0000_0000
  type u64 = x: int | 0 <= x < 0x1_0000_0000_0000_0000
  type i64 = x: int | -0x8000_0000_0000_0000 <= x < 0x8000_0000_0000_0000
  type usize = u64

  const U32_MAX := 0xFFFF_FFFF

  /** 256 to the power n: one more than the largest n-byte value. */
  function Pow256(n: nat): (p: nat)
    ensures p > 0
  {
    if n == 0 then 1 else 256 * Pow256(n - 1)
  }

  lemma Pow256Widths()
    ensures Pow256(2) == 0x1_0000
    ensures Pow256(4) == 0x1_0000_0000
    ensures Pow256(8) == 0x1_0000_0000_0000_0000
  {
  }

  /** `v.to_le_bytes()` for an n-byte integer: least significant byte first. */
  function ToLe(v: nat, n: nat): (s: seq<byte>)
    requires v < Pow256(n)
    ensures |s| == n
  {
    if n == 0 then [] else [v % 256] + ToLe(v / 256, n - 1)
  }

  /** `from_le_bytes`: the first byte is the least significant. */
  function FromLe(s: seq<byte>): (v: nat)
    ensures v < Pow256(|s|)
  {
    if s == [] then 0 else s[0] + 256 * FromLe(s[1..])
  }

  /** `from_be_bytes`: the first byte is the most significant. */
  function FromBe(s: seq<byte>): (v: nat)
    ensures v < Pow256(|s|)
  {
    if s == [] then 0 else FromBe(s[..|s| - 1]) * 256 + s[|s| - 1]
  }

  /** Decoding the little-endian image of a value gives the value back. */
  lemma {:induction false} FromLeToLe(v: nat, n: nat)
    requires v < Pow256(n)
    ensures FromLe(ToLe(v, n)) == v
  {
    if n > 0 {
      FromLeToLe(v / 256, n - 1);
      assert ToLe(v, n)[1..] == ToLe(v / 256, n - 1);
    }
  }

  /** Encoding a decoded little-endian byte string gives the bytes back. */
  lemma {:induction false} ToLeFromLe(s: seq<byte>)
    ensures ToLe(FromLe(s), |s|) == s
  {
    if s != [] {
      ToLeFromLe(s[1..]);
      var v := FromLe(s);
      assert v % 256 == s[0] && v / 256 == FromLe(s[1..]);
    }
  }

  /** Two values of the same width with the same little-endian image are equal. */
  lemma ToLeInjective(v: nat, w: nat, n: nat)
    requires v < Pow256(n) && w < Pow256(n)
    requires ToLe(v, n) == ToLe(w, n)
    ensures v == w
  {
    FromLeToLe(v, n);
    FromLeToLe(w, n);
  }

  /**
   * The bytes `m` holds after `s` is stored at `a`: the range [a, a + |s|)
   * now holds `s`, everything else is unchanged.
   */
  function Overwrite(m: seq<byte>, a: nat, s: seq<byte>): (r: seq<byte>)
    requires a + |s| <= |m|
    ensures |r| == |m|
    ensures r[a..a + |s|] == s
    ensures forall i :: 0 <= i < |m| && !(a <= i < a + |s|) ==> r[i] == m[i]
  {
    m[..a] + s + m[a + |s|..]
  }

  /** Storing `s` and then `t` right after it is storing `s + t`. */
  lemma OverwriteConsecutive(m: seq<byte>, a: nat, s: seq<byte>, t: seq<byte>)
    requires a + |s| + |t| <= |m|
    ensures Overwrite(Overwrite(m, a, s), a + |s|, t) == Overwrite(m, a, s + t)
  {
    var l, r := Overwrite(Overwrite(m, a, s), a + |s|, t), Overwrite(m, a, s + t);
    forall i | 0 <= i < |m|
      ensures l[i] == r[i]
    {
      if a <= i < a + |s| {
        assert r[i] == (s + t)[i - a];
      } else if a + |s| <= i < a + |s| + |t| {
        assert l[i] == t[i - a - |s|];
        assert r[i] == (s + t)[i - a];
      }
    }
  }

  /** Every byte is zero, as on a disk nothing was written to. */
  predicate Zeroed(s: seq<byte>) {
    forall i :: 0 <= i < |s| ==> s[i] == 0
  }

  /** Zero bytes decode to 0 in either byte order. */
  lemma {:induction false} ZeroedDecodes(s: seq<byte>)
    requires Zeroed(s)
    ensures FromLe(s) == 0 && FromBe(s) == 0
    decreases |s|
  {
    if s != [] {
      ZeroedDecodes(s[1..]);
      ZeroedDecodes(s[..|s| - 1]);
    }
  }

  /** A positive multiple of m is at least m. */
  lemma MulAtLeast(a: int, m: int)
    requires a >= 1 && m > 0
    ensures a * m >= m
  {
    if a > 1 {
      MulAtLeast(a - 1, m);
      assert a * m == (a - 1) * m + m;
    }
  }

  /** Euclidean division is unique: x == q * m + r with 0 <= r < m pins down x / m and x % m. */
  lemma DivUnique(x: int, m: int, q: int, r: int)
    requires m > 0 && 0 <= r < m && x == q * m + r
    ensures x / m == q && x % m == r
  {
    var q0, r0 := x / m, x % m;
    assert x == q0 * m + r0;
    if q > q0 {
      assert (q - q0) * m == q * m - q0 * m;
      MulAtLeast(q - q0, m);
    } else if q < q0 {
      assert (q0 - q) * m == q0 * m - q * m;
      MulAtLeast(q0 - q, m);
    }
  }

  /** Adding a multiple of m shifts the quotient by that multiple and leaves the remainder. */
  lemma DivAddMultiple(k: int, x: int, m: int)
    requires m > 0
    ensures (k * m + x) / m == k + x / m && (k * m + x) % m == x % m
  {
    assert x == (x / m) * m + x % m;
    assert k * m + x == (k + x / m) * m + x % m;
    DivUnique(k * m + x, m, k + x / m, x % m);
  }

  /** Dividing by a and then by b is dividing by a * b. */
  lemma DivDiv(x: int, a: int, b: int)
    requires a > 0 && b > 0
    ensures (x / a) / b == x / (a * b)
  {
    var q, r1 := x / a, x % a;
    var q2, r2 := q / b, q % b;
    assert x == q * a + r1;
    assert q == q2 * b + r2;
    assert q * a == q2 * (a * b) + r2 * a by {
      assert (q2 * b + r2) * a == q2 * b * a + r2 * a;
      assert q2 * b * a == q2 * (a * b);
    }
    assert r2 * a + r1 < a * b by {
      assert r2 * a <= (b - 1) * a by { MulMonotone(r2, b - 1, a); }
      assert (b - 1) * a == a * b - a;
    }
    DivUnique(x, a * b, q2, r2 * a + r1);
  }

  /** Multiplying by a non-negative factor keeps an order. */
  lemma MulMonotone(x: int, y: int, c: int)
    requires x <= y && c >= 0
    ensures x * c <= y * c
  {
    assert y * c - x * c == (y - x) * c;
  }
}
