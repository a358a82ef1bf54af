/** papirus' `ByteStore`, which is not part of this repository, as this project assumes it: a byte
    array, zero-filled when new, whose reads past the end give zeros and whose writes past the end
    extend it. */
module ByteStores {
  import opened Codec

  function ReadBytes(data: Bytes, offset: nat, count: nat): (b: Bytes)
    ensures |b| == count
  {
    var from, to := Min(offset, |data|), Min(offset + count, |data|);
    data[from..to] + Zeros(count - (to - from))
  }

  lemma ReadInside(data: Bytes, offset: nat, count: nat)
    requires offset + count <= |data|
    ensures ReadBytes(data, offset, count) == data[offset..offset + count]
  {
  }

  function WriteBytes(data: Bytes, offset: nat, b: Bytes): Bytes {
    var start := if offset <= |data| then data[..offset] else data + Zeros(offset - |data|);
    start + b + if offset + |b| <= |data| then data[offset + |b|..] else []
  }

  class ByteStore {
    var data: Bytes

    constructor (size: nat)
      ensures data == Zeros(size)
    {
      data := Zeros(size);
    }

    method ReadAt(offset: nat, count: nat) returns (b: Bytes)
      ensures b == ReadBytes(data, offset, count)
    {
      b := ReadBytes(data, offset, count);
    }

    method WriteAt(offset: nat, b: Bytes)
      modifies this
      ensures data == WriteBytes(old(data), offset, b)
    {
      data := WriteBytes(data, offset, b);
    }

    method Append(b: Bytes)
      modifies this
      ensures data == old(data) + b
    {
      data := data + b;
    }
  }
}
