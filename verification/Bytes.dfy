/** Bytes, little-endian register values and the overwriting of a stretch of memory. */
module Bytes {
  newtype byte = x: int | 0 <= x < 256

  /** How many values `n` bytes can hold. */
  function Capacity(n: nat): nat {
    if n == 0 then 1 else 256 * Capacity(n - 1)
  }

  /** The value of a little-endian group of bytes, as readb, readw and readl deliver it. */
  function Decode(bs: seq<byte>): (v: nat)
    ensures v < Capacity(|bs|)
  {
    if bs == [] then 0 else bs[0] as nat + 256 * Decode(bs[1..])
  }

  /** The low `n` bytes of a value, least significant first, as writeb, writew and writel store it. */
  function Encode(v: nat, n: nat): (bs: seq<byte>)
    ensures |bs| == n
  {
    if n == 0 then [] else [(v % 256) as byte] + Encode(v / 256, n - 1)
  }

  /** A value moved up by n bytes. */
  function Shifted(v: nat, n: nat): nat {
    if n == 0 then v else 256 * Shifted(v, n - 1)
  }

  /** Little-endian: one byte counts for its value, and what follows n bytes counts as moved up by n bytes. */
  lemma {:induction false} LittleEndian(a: seq<byte>, b: seq<byte>)
    ensures Decode(a + b) == Decode(a) + Shifted(Decode(b), |a|)
    ensures |a| == 1 ==> Decode(a) == a[0] as int
  {
    if a == [] {
      assert a + b == b;
    } else {
      assert (a + b)[1..] == a[1..] + b;
      LittleEndian(a[1..], b);
    }
  }

  /** A register carries bytes through unchanged, whatever its width. */
  lemma {:induction false} EncodeDecode(bs: seq<byte>)
    ensures Encode(Decode(bs), |bs|) == bs
  {
    if bs != [] {
      EncodeDecode(bs[1..]);
      assert Decode(bs) / 256 == Decode(bs[1..]);
    }
  }

  /** A value that fits comes back as it was. */
  lemma {:induction false} DecodeEncode(v: nat, n: nat)
    requires v < Capacity(n)
    ensures Decode(Encode(v, n)) == v
  {
    if n > 0 { DecodeEncode(v / 256, n - 1); }
  }

  /** `m` with `data` stored at `at`; storing nothing is allowed anywhere. */
  function Patch<T>(m: seq<T>, at: nat, data: seq<T>): (r: seq<T>)
    requires data == [] || at + |data| <= |m|
    ensures |r| == |m|
    ensures forall i {:trigger r[i]} :: 0 <= i < |m| ==> r[i] == if at <= i < at + |data| then data[i - at] else m[i]
  {
    seq(|m|, i requires 0 <= i < |m| => if at <= i < at + |data| then data[i - at] else m[i])
  }

  /** The `n` bytes at `at`; taking none is allowed anywhere. */
  function Sub<T>(m: seq<T>, at: nat, n: nat): (r: seq<T>)
    requires n == 0 || at + n <= |m|
    ensures |r| == n
    ensures forall i :: 0 <= i < n ==> r[i] == m[at + i]
  {
    seq(n, i requires 0 <= i < n => m[at + i])
  }

  /** Two adjacent stores are one store of the concatenation. */
  lemma PatchAdjacent<T>(m: seq<T>, at: nat, a: seq<T>, b: seq<T>)
    requires a + b == [] || at + |a| + |b| <= |m|
    ensures Patch(Patch(m, at, a), at + |a|, b) == Patch(m, at, a + b)
  {
  }

  /** A store that covers an earlier one hides it. */
  lemma PatchCovers<T>(m: seq<T>, at: nat, a: seq<T>, b: seq<T>)
    requires |a| <= |b| && (b == [] || at + |b| <= |m|)
    ensures Patch(Patch(m, at, a), at, b) == Patch(m, at, b)
  {
  }

  lemma SubAdjacent<T>(m: seq<T>, at: nat, a: nat, b: nat)
    requires a + b == 0 || at + a + b <= |m|
    ensures Sub(m, at, a) + Sub(m, at + a, b) == Sub(m, at, a + b)
  {
  }
}
