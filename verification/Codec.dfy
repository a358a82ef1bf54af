/** Byte strings and the fixed-width and length-prefixed codecs that every file format and
    message of the repository is built from. The functions themselves live in breeze's `util`
    package, which is not part of this repository: integers are little-endian, a short integer
    read yields 0, and byte arrays and hash arrays carry a two-byte count that saturates. */
module Codec {
  type Byte = x: int | 0 <= x < 256
  type Bytes = seq<Byte>

  const HASH_SIZE := 32
  const MAX_COUNT := 0xFFFF
  const TWO_16 := 0x1_0000
  const TWO_32 := 0x1_0000_0000
  const TWO_63 := 0x8000_0000_0000_0000
  const TWO_64 := 0x1_0000_0000_0000_0000

  type U64 = x: int | 0 <= x < TWO_64
  type I64 = x: int | -TWO_63 <= x < TWO_63
  type Hash = h: Bytes | |h| == HASH_SIZE witness seq(HASH_SIZE, _ => 0)

  /** uint64 increment. */
  function Next(n: U64): U64 {
    if n == TWO_64 - 1 then 0 else n + 1
  }

  function Min(a: int, b: int): int {
    if a <= b then a else b
  }

  lemma Associates<T>(a: seq<T>, b: seq<T>, c: seq<T>)
    ensures a + (b + c) == a + b + c
  {
  }

  lemma Splits<T>(data: seq<T>, a: seq<T>, b: seq<T>, c: seq<T>)
    requires data == a + b + c
    ensures data[..|a|] == a && data[|a|..|a| + |b|] == b && data[|a| + |b|..] == c
  {
  }

  /** A slice of a slice. */
  lemma SliceWithin<T>(data: seq<T>, from: nat, low: nat, high: nat)
    requires from <= |data| && low <= high <= |data| - from
    ensures data[from..][low..high] == data[from + low..from + high]
    ensures data[from..][low..] == data[from + low..]
  {
    var rest := data[from..];
    forall i | low <= i < |rest| ensures rest[i] == data[from + i] {
    }
    assert forall i :: 0 <= i < high - low ==> rest[low..high][i] == rest[low + i] == data[from + low..from + high][i];
    assert forall i :: 0 <= i < |rest| - low ==> rest[low..][i] == rest[low + i] == data[from + low..][i];
  }

  lemma TakeWithin<T>(data: seq<T>, from: nat, to: nat, count: nat)
    requires from <= to <= |data| && count <= to - from
    ensures data[from..to][..count] == data[from..from + count]
  {
    assert forall i :: 0 <= i < count ==> data[from..to][..count][i] == data[from..to][i] == data[from + i];
  }

  lemma PrefixSlice<T>(data: seq<T>, longer: seq<T>, from: nat, to: nat)
    requires |data| <= |longer| && longer[..|data|] == data && from <= to <= |data|
    ensures longer[from..to] == data[from..to]
  {
    forall i | from <= i < to ensures longer[i] == data[i] {
      assert longer[..|data|][i] == longer[i];
    }
  }

  function Zeros(n: nat): (z: Bytes)
    ensures |z| == n
  {
    seq(n, _ => 0)
  }

  function Pow256(width: nat): nat {
    if width == 0 then 1 else 256 * Pow256(width - 1)
  }

  /** The low `width` bytes of `v`, least significant byte first. */
  function PutUint(v: nat, width: nat): (b: Bytes)
    ensures |b| == width
  {
    if width == 0 then [] else [v % 256] + PutUint(v / 256, width - 1)
  }

  function Value(b: Bytes): nat {
    if b == [] then 0 else b[0] + 256 * Value(b[1..])
  }

  lemma {:induction false} ValueOfPut(v: nat, width: nat)
    requires v < Pow256(width)
    ensures Value(PutUint(v, width)) == v
  {
    if width > 0 {
      ValueOfPut(v / 256, width - 1);
      assert PutUint(v, width)[1..] == PutUint(v / 256, width - 1);
    }
  }

  lemma {:induction false} PutOfValue(b: Bytes)
    ensures Value(b) < Pow256(|b|)
    ensures PutUint(Value(b), |b|) == b
  {
    if b != [] {
      PutOfValue(b[1..]);
      assert b == [b[0]] + b[1..];
    }
  }

  lemma WidthBounds()
    ensures Pow256(2) == TWO_16
    ensures Pow256(4) == TWO_32
    ensures Pow256(8) == TWO_64
  {
    assert Pow256(2) == 256 * 256;
    assert Pow256(4) == 256 * (256 * Pow256(2));
    assert Pow256(6) == 256 * (256 * Pow256(4));
    assert Pow256(8) == 256 * (256 * Pow256(6));
  }

  /** Reads `width` bytes at `position`; a read that would run past the end yields 0. */
  function ParseUint(data: Bytes, position: nat, width: nat): nat {
    if position + width > |data| then 0 else Value(data[position..position + width])
  }

  lemma ParsePut(before: Bytes, v: nat, width: nat, after: Bytes)
    requires v < Pow256(width)
    ensures ParseUint(before + PutUint(v, width) + after, |before|, width) == v
  {
    var data := before + PutUint(v, width) + after;
    assert data[|before|..|before| + width] == PutUint(v, width);
    ValueOfPut(v, width);
  }

  lemma ZerosAreZero(n: nat)
    ensures Value(Zeros(n)) == 0
  {
    if n > 0 {
      ZerosAreZero(n - 1);
      assert Zeros(n)[1..] == Zeros(n - 1);
    }
  }

  /** A byte array is written with its length in two bytes; a longer one is cut. */
  function PutByteArray(b: Bytes): (e: Bytes)
    ensures |e| == 2 + Min(|b|, MAX_COUNT)
  {
    PutUint(Min(|b|, MAX_COUNT), 2) + b[..Min(|b|, MAX_COUNT)]
  }

  function JoinHashes(hs: seq<Hash>): (b: Bytes)
    ensures |b| == HASH_SIZE * |hs|
  {
    if hs == [] then [] else hs[0] + JoinHashes(hs[1..])
  }

  function SplitHashes(b: Bytes, count: nat): (hs: seq<Hash>)
    requires |b| >= HASH_SIZE * count
    ensures |hs| == count
  {
    if count == 0 then [] else [b[..HASH_SIZE]] + SplitHashes(b[HASH_SIZE..], count - 1)
  }

  lemma {:induction false} SplitJoin(hs: seq<Hash>, after: Bytes)
    ensures SplitHashes(JoinHashes(hs) + after, |hs|) == hs
  {
    if hs != [] {
      var b := JoinHashes(hs) + after;
      assert b == hs[0] + (JoinHashes(hs[1..]) + after);
      assert b[..HASH_SIZE] == hs[0];
      assert b[HASH_SIZE..] == JoinHashes(hs[1..]) + after;
      SplitJoin(hs[1..], after);
    }
  }

  /** What survives of a hash list on the wire: its count has two bytes. */
  function Clip(hs: seq<Hash>): seq<Hash> {
    hs[..Min(|hs|, MAX_COUNT)]
  }

  function PutHashArray(hs: seq<Hash>): Bytes {
    PutUint(|Clip(hs)|, 2) + JoinHashes(Clip(hs))
  }

  function ParseHashArray(data: Bytes, position: nat): seq<Hash> {
    var count := ParseUint(data, position, 2);
    if position + 2 + HASH_SIZE * count > |data| then [] else SplitHashes(data[position + 2..], count)
  }

  lemma ParsePutHashArray(before: Bytes, hs: seq<Hash>, after: Bytes)
    ensures ParseHashArray(before + PutHashArray(hs) + after, |before|) == Clip(hs)
  {
    var data := before + PutHashArray(hs) + after;
    var count := PutUint(|Clip(hs)|, 2);
    WidthBounds();
    ParsePut(before, |Clip(hs)|, 2, JoinHashes(Clip(hs)) + after);
    assert data == before + count + (JoinHashes(Clip(hs)) + after);
    assert data[|before| + 2..] == JoinHashes(Clip(hs)) + after;
    SplitJoin(Clip(hs), after);
  }
}
