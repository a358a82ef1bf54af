/** index/index.go: an append-only file of 24-byte records behind an 8-byte header, and the
    in-memory map from 4-byte hash prefixes to record positions kept beside it. */
module HashIndex {
  import opened ByteStores
  import opened Codec
  import opened QueryBlocks
  import opened Wrappers

  const STORE_BYTES := 16
  const INDEX_BYTES := 4
  const HEADER := 8
  const RECORD := 24
  const TWO_31 := 0x8000_0000

  type Record = r: Bytes | |r| == RECORD witness seq(RECORD, _ => 0)
  type Buckets = map<Bytes, seq<nat>>

  // ----- packing of epoch and sequence -----

  /** `uint64(epoch<<32 + sequence)` on Go's 64-bit ints, which wrap. */
  function Pack(epoch: I64, sequence: I64): U64 {
    (epoch * TWO_32 + sequence) % TWO_64
  }

  function UnpackEpoch(value: U64): U64 {
    value / TWO_32
  }

  /** `(int(value) << 32) >> 32`: the low half, sign-extended. */
  function UnpackSequence(value: U64): I64 {
    var low := value % TWO_32;
    if low < TWO_31 then low else low - TWO_32
  }

  function MakeRecord(h: Hash, value: U64): Record {
    h[..STORE_BYTES] + PutUint(value, 8)
  }

  function ValueOf(r: Record): U64 {
    WidthBounds();
    PutOfValue(r[STORE_BYTES..]);
    Value(r[STORE_BYTES..])
  }

  lemma ValueOfMade(h: Hash, value: U64)
    ensures ValueOf(MakeRecord(h, value)) == value
  {
    WidthBounds();
    assert MakeRecord(h, value)[STORE_BYTES..] == PutUint(value, 8);
    ValueOfPut(value, 8);
  }

  lemma LowHalf(epoch: I64, sequence: I64)
    ensures Pack(epoch, sequence) % TWO_32 == sequence % TWO_32
  {
    var carried := (epoch * TWO_32 + sequence) / TWO_64;
    assert Pack(epoch, sequence) == (epoch - carried * TWO_32) * TWO_32 + sequence;
  }

  /** A negative sequence takes one from the epoch. */
  lemma NegativeBorrows(epoch: I64, sequence: I64)
    requires 0 <= epoch < TWO_32 && -TWO_31 <= sequence < 0
    ensures UnpackEpoch(Pack(epoch, sequence)) == (if epoch == 0 then TWO_32 else epoch) - 1
  {
    if epoch == 0 {
      assert Pack(epoch, sequence) == TWO_64 + sequence;
    } else {
      assert Pack(epoch, sequence) == epoch * TWO_32 + sequence;
    }
  }

  lemma PackArithmetic(epoch: I64, sequence: I64)
    ensures UnpackEpoch(Pack(epoch, sequence)) == epoch && UnpackSequence(Pack(epoch, sequence)) == sequence <==>
            0 <= epoch < TWO_32 && 0 <= sequence < TWO_31
    ensures TWO_31 <= sequence < TWO_32 ==> UnpackSequence(Pack(epoch, sequence)) == sequence - TWO_32 < 0
  {
    LowHalf(epoch, sequence);
    if 0 <= epoch < TWO_32 && 0 <= sequence < TWO_31 {
      assert Pack(epoch, sequence) == epoch * TWO_32 + sequence;
    } else if 0 <= epoch < TWO_32 && -TWO_31 <= sequence < 0 {
      NegativeBorrows(epoch, sequence);
    }
  }

  /** Both halves come back from the record exactly on 32-bit epochs and 31-bit sequences; a larger
      32-bit sequence turns negative. */
  lemma PackingIsExactIff(h: Hash, epoch: I64, sequence: I64)
    ensures var value := ValueOf(MakeRecord(h, Pack(epoch, sequence)));
            && (UnpackEpoch(value) == epoch && UnpackSequence(value) == sequence <==>
                  0 <= epoch < TWO_32 && 0 <= sequence < TWO_31)
            && (TWO_31 <= sequence < TWO_32 ==> UnpackSequence(value) == sequence - TWO_32 < 0)
  {
    PackArithmetic(epoch, sequence);
    ValueOfMade(h, Pack(epoch, sequence));
  }

  // ----- the file and what a linear scan makes of it -----

  /** How many steps the scan of `OpenIndex` takes: a last partial record counts. */
  function Count(size: nat): nat {
    if size <= HEADER then 0 else (size - HEADER + RECORD - 1) / RECORD
  }

  function Position(n: nat): nat {
    HEADER + RECORD * n
  }

  function RecordAt(data: Bytes, position: nat): Record {
    ReadBytes(data, position, RECORD)
  }

  function Records(data: Bytes): (records: seq<Record>)
    ensures |records| == Count(|data|)
  {
    seq(Count(|data|), (n: nat) => RecordAt(data, Position(n)))
  }

  /** A header and whole records. */
  predicate Aligned(data: Bytes) {
    |data| >= HEADER && (|data| - HEADER) % RECORD == 0
  }

  function Header(data: Bytes): U64 {
    WidthBounds();
    PutOfValue(ReadBytes(data, 0, 8));
    Value(ReadBytes(data, 0, 8))
  }

  function Partial(r: Record): Bytes {
    r[..INDEX_BYTES]
  }

  function Insert(index: Buckets, key: Bytes, position: nat): Buckets {
    index[key := (if key in index then index[key] else []) + [position]]
  }

  function Scan(records: seq<Record>): Buckets {
    if records == [] then map[]
    else
      var last := |records| - 1;
      Insert(Scan(records[..last]), Partial(records[last]), Position(last))
  }

  lemma AppendKeepsRecord(data: Bytes, r: Record, i: nat)
    requires Aligned(data) && i < Count(|data|)
    ensures RecordAt(data + r, Position(i)) == RecordAt(data, Position(i))
  {
    assert Position(i) + RECORD <= |data|;
    ReadInside(data, Position(i), RECORD);
    ReadInside(data + r, Position(i), RECORD);
  }

  lemma AppendedRecord(data: Bytes, r: Record)
    requires Aligned(data)
    ensures Position(Count(|data|)) == |data| && Count(|data + r|) == Count(|data|) + 1
    ensures RecordAt(data + r, |data|) == r
  {
    ReadInside(data + r, |data|, RECORD);
  }

  lemma AppendAligned(data: Bytes, r: Record)
    requires Aligned(data)
    ensures Aligned(data + r) && Header(data + r) == Header(data)
    ensures Records(data + r) == Records(data) + [r]
    ensures Position(|Records(data)|) == |data|
  {
    AppendedRecord(data, r);
    ReadInside(data, 0, 8);
    ReadInside(data + r, 0, 8);
    forall i | 0 <= i < Count(|data|) ensures Records(data + r)[i] == Records(data)[i] {
      AppendKeepsRecord(data, r, i);
    }
    assert ReadBytes(data + r, 0, 8) == ReadBytes(data, 0, 8);
    assert Records(data + r) == Records(data) + [r];
  }

  lemma ScanOne(records: seq<Record>, r: Record)
    ensures Scan(records + [r]) == Insert(Scan(records), Partial(r), Position(|records|))
  {
    assert (records + [r])[..|records|] == records;
  }

  lemma HeaderWrite(data: Bytes, epoch: U64)
    requires Aligned(data)
    ensures var after := WriteBytes(data, 0, PutUint(epoch, 8));
            Aligned(after) && Header(after) == epoch && Records(after) == Records(data)
  {
    var after := WriteBytes(data, 0, PutUint(epoch, 8));
    assert ReadBytes(after, 0, 8) == PutUint(epoch, 8);
    WidthBounds();
    ValueOfPut(epoch, 8);
    forall i | 0 <= i < |Records(data)| ensures RecordAt(after, Position(i)) == RecordAt(data, Position(i)) {
    }
  }

  /** The records one `Add` call appends. */
  function RecordsOf(hashes: seq<Hash>, value: U64): seq<Record> {
    seq(|hashes|, n requires 0 <= n < |hashes| => MakeRecord(hashes[n], value))
  }

  // ----- retrieval -----

  predicate Matches(r: Record, h: Hash) {
    r[..STORE_BYTES] == h[..STORE_BYTES]
  }

  function EpochOf(r: Record): U64 {
    UnpackEpoch(ValueOf(r))
  }

  function SequenceOf(r: Record): I64 {
    UnpackSequence(ValueOf(r))
  }

  /** A full scan: for each epoch the sequence of its last matching record. */
  function Latest(records: seq<Record>, h: Hash): map<U64, I64> {
    if records == [] then map[]
    else
      var last := records[|records| - 1];
      var before := Latest(records[..|records| - 1], h);
      if Matches(last, h) then before[EpochOf(last) := SequenceOf(last)] else before
  }

  ghost predicate IsLatest(records: seq<Record>, h: Hash, epoch: U64, sequence: I64, i: int) {
    && 0 <= i < |records| && Matches(records[i], h) && EpochOf(records[i]) == epoch && SequenceOf(records[i]) == sequence
    && forall j :: i < j < |records| ==> !(Matches(records[j], h) && EpochOf(records[j]) == epoch)
  }

  lemma LatestOne(records: seq<Record>, r: Record, h: Hash)
    ensures Latest(records + [r], h) ==
            if Matches(r, h) then Latest(records, h)[EpochOf(r) := SequenceOf(r)] else Latest(records, h)
  {
    assert (records + [r])[..|records|] == records;
  }

  /** `Latest` says what it should: an epoch is listed exactly when a record of it matches, with the
      sequence of the latest such record. */
  lemma {:induction false} LatestIsExact(records: seq<Record>, h: Hash)
    ensures forall i :: 0 <= i < |records| && Matches(records[i], h) ==> EpochOf(records[i]) in Latest(records, h)
    ensures forall e :: e in Latest(records, h) ==> exists i :: IsLatest(records, h, e, Latest(records, h)[e], i)
  {
    if records != [] {
      var last := |records| - 1;
      var front, r := records[..last], records[last];
      assert records == front + [r];
      LatestOne(front, r, h);
      LatestIsExact(front, h);
      forall e | e in Latest(records, h) ensures exists i :: IsLatest(records, h, e, Latest(records, h)[e], i) {
        if Matches(r, h) && EpochOf(r) == e {
          assert IsLatest(records, h, e, Latest(records, h)[e], last);
        } else {
          var i :| IsLatest(front, h, e, Latest(front, h)[e], i);
          assert IsLatest(records, h, e, Latest(records, h)[e], i);
        }
      }
    }
  }

  /** `Retrieve`'s loop over a bucket, reading the file at each position. */
  function Collect(data: Bytes, positions: seq<nat>, h: Hash): map<U64, I64> {
    if positions == [] then map[]
    else
      var last := RecordAt(data, positions[|positions| - 1]);
      var before := Collect(data, positions[..|positions| - 1], h);
      if Matches(last, h) then before[EpochOf(last) := SequenceOf(last)] else before
  }

  function Bucket(index: Buckets, key: Bytes): seq<nat> {
    if key in index then index[key] else []
  }

  lemma BucketOne(records: seq<Record>, r: Record, key: Bytes)
    ensures Bucket(Scan(records + [r]), key) ==
            Bucket(Scan(records), key) + if Partial(r) == key then [Position(|records|)] else []
  {
    ScanOne(records, r);
  }

  lemma CollectOne(data: Bytes, positions: seq<nat>, position: nat, h: Hash)
    ensures var r := RecordAt(data, position);
            Collect(data, positions + [position], h) ==
            if Matches(r, h) then Collect(data, positions, h)[EpochOf(r) := SequenceOf(r)] else Collect(data, positions, h)
  {
    assert (positions + [position])[..|positions|] == positions;
  }

  lemma MatchingPrefix(r: Record, h: Hash)
    ensures Matches(r, h) ==> Partial(r) == h[..INDEX_BYTES]
  {
    assert r[..INDEX_BYTES] == r[..STORE_BYTES][..INDEX_BYTES];
    assert h[..INDEX_BYTES] == h[..STORE_BYTES][..INDEX_BYTES];
  }

  /** Looking only into the bucket of the 4-byte prefix finds what a full scan finds. */
  lemma {:induction false} BucketSuffices(data: Bytes, records: seq<Record>, h: Hash)
    requires forall i :: 0 <= i < |records| ==> records[i] == RecordAt(data, Position(i))
    ensures Collect(data, Bucket(Scan(records), h[..INDEX_BYTES]), h) == Latest(records, h)
  {
    if records != [] {
      var n := |records| - 1;
      var front, r := records[..n], records[n];
      assert records == front + [r];
      BucketSuffices(data, front, h);
      BucketOne(front, r, h[..INDEX_BYTES]);
      LatestOne(front, r, h);
      MatchingPrefix(r, h);
      CollectOne(data, Bucket(Scan(front), h[..INDEX_BYTES]), Position(n), h);
    }
  }

  lemma MadeMatchesIff(g: Hash, value: U64, h: Hash)
    ensures Matches(MakeRecord(g, value), h) <==> g[..STORE_BYTES] == h[..STORE_BYTES]
  {
    assert MakeRecord(g, value)[..STORE_BYTES] == g[..STORE_BYTES];
  }

  lemma OneAddedIsFound(records: seq<Record>, epoch: I64, sequence: I64, g: Hash, h: Hash)
    requires 0 <= epoch < TWO_32 && 0 <= sequence < TWO_31
    ensures Latest(records + [MakeRecord(g, Pack(epoch, sequence))], h) ==
            if g[..STORE_BYTES] == h[..STORE_BYTES] then Latest(records, h)[epoch := sequence] else Latest(records, h)
  {
    LatestOne(records, MakeRecord(g, Pack(epoch, sequence)), h);
    PackingIsExactIff(g, epoch, sequence);
    MadeMatchesIff(g, Pack(epoch, sequence), h);
  }

  ghost predicate Among(h: Hash, hashes: seq<Hash>) {
    exists n :: 0 <= n < |hashes| && hashes[n][..STORE_BYTES] == h[..STORE_BYTES]
  }

  /** What is added is found: under every hash that agrees with one of those added on 16 bytes the epoch
      is listed with the sequence, and under no other hash anything changes. */
  lemma {:induction false} AddedIsFound(records: seq<Record>, epoch: I64, sequence: I64, hashes: seq<Hash>, h: Hash)
    requires 0 <= epoch < TWO_32 && 0 <= sequence < TWO_31
    ensures Latest(records + RecordsOf(hashes, Pack(epoch, sequence)), h) ==
            if Among(h, hashes) then Latest(records, h)[epoch := sequence] else Latest(records, h)
  {
    var value := Pack(epoch, sequence);
    if hashes == [] {
      assert records + RecordsOf(hashes, value) == records;
    } else {
      var front, last := hashes[..|hashes| - 1], hashes[|hashes| - 1];
      AddedIsFound(records, epoch, sequence, front, h);
      RecordsOfOne(hashes, |front|, value);
      assert hashes[..|front| + 1] == hashes;
      Associates(records, RecordsOf(front, value), [MakeRecord(last, value)]);
      OneAddedIsFound(records + RecordsOf(front, value), epoch, sequence, last, h);
      AmongOneMore(h, front, last);
      assert hashes == front + [last];
    }
  }

  lemma AmongOneMore(h: Hash, front: seq<Hash>, last: Hash)
    ensures Among(h, front + [last]) <==> Among(h, front) || last[..STORE_BYTES] == h[..STORE_BYTES]
  {
    assert (front + [last])[|front|] == last;
    if Among(h, front) {
      var n :| 0 <= n < |front| && front[n][..STORE_BYTES] == h[..STORE_BYTES];
      assert (front + [last])[n] == front[n];
    }
  }

  // ----- the index itself -----

  method CompareHash(hash: Hash, partial: Bytes) returns (equal: bool)
    ensures equal <==> |partial| >= STORE_BYTES && hash[..STORE_BYTES] == partial[..STORE_BYTES]
  {
    if |partial| < STORE_BYTES {
      return false;
    }
    for n := 0 to STORE_BYTES
      invariant hash[..n] == partial[..n]
    {
      if hash[n] != partial[n] {
        assert hash[..STORE_BYTES][n] != partial[..STORE_BYTES][n];
        return false;
      }
    }
    return true;
  }

  class Index {
    const store: ByteStore
    var index: Buckets
    var lastEpoch: U64

    /** The map and the last epoch are what the file says. */
    ghost predicate Valid()
      reads this, store
    {
      && Aligned(store.data)
      && index == Scan(Records(store.data))
      && lastEpoch == Header(store.data)
    }

    /** `OpenIndex`. */
    constructor (store: ByteStore)
      ensures this.store == store
      ensures index == Scan(Records(store.data)) && lastEpoch == Header(store.data)
      ensures Aligned(store.data) ==> Valid()
    {
      this.store := store;
      var header := store.ReadAt(0, 8);
      PutOfValue(header);
      WidthBounds();
      lastEpoch := Value(header);
      var buckets: Buckets := map[];
      var position := HEADER;
      ghost var n := 0;
      ghost var records := Records(store.data);
      while position < |store.data|
        invariant position == Position(n) && n <= |records|
        invariant buckets == Scan(records[..n])
        decreases |records| - n
      {
        var data := store.ReadAt(position, RECORD);
        buckets := Insert(buckets, data[..INDEX_BYTES], position);
        assert records[..n + 1] == records[..n] + [records[n]];
        ScanOne(records[..n], records[n]);
        position := position + RECORD;
        n := n + 1;
      }
      assert records[..n] == records;
      index := buckets;
    }

    method NextBlock(epoch: U64)
      requires Valid()
      modifies this, store
      ensures Valid() && lastEpoch == epoch
      ensures Records(store.data) == old(Records(store.data))
    {
      HeaderWrite(store.data, epoch);
      lastEpoch := epoch;
      store.WriteAt(0, PutUint(epoch, 8));
    }

    method AddOne(h: Hash, value: U64)
      requires Valid()
      modifies this, store
      ensures Valid() && lastEpoch == old(lastEpoch)
      ensures Records(store.data) == old(Records(store.data)) + [MakeRecord(h, value)]
    {
      var r := MakeRecord(h, value);
      AppendAligned(store.data, r);
      ScanOne(Records(store.data), r);
      assert Partial(r) == h[..INDEX_BYTES];
      var position := |store.data|;
      store.Append(r);
      index := Insert(index, h[..INDEX_BYTES], position);
    }

    method Add(epoch: I64, sequence: I64, hashes: seq<Hash>)
      requires Valid()
      modifies this, store
      ensures Valid() && lastEpoch == old(lastEpoch)
      ensures Records(store.data) == old(Records(store.data)) + RecordsOf(hashes, Pack(epoch, sequence))
    {
      var value := Pack(epoch, sequence);
      ghost var before := Records(store.data);
      for n := 0 to |hashes|
        invariant Valid() && lastEpoch == old(lastEpoch)
        invariant Records(store.data) == before + RecordsOf(hashes[..n], value)
      {
        AddOne(hashes[n], value);
        RecordsOfOne(hashes, n, value);
        Associates(before, RecordsOf(hashes[..n], value), [MakeRecord(hashes[n], value)]);
      }
      assert hashes[..|hashes|] == hashes;
    }

    /** The bucket's records that match on 16 bytes. The branches are as in the source: a first
        sequence is appended, a further one replaces the list (lines 142-146). */
    method CollectPositions(indexed: seq<nat>, h: Hash) returns (positions: map<U64, seq<I64>>)
      ensures positions == Lists(Collect(store.data, indexed, h))
    {
      positions := map[];
      for n := 0 to |indexed|
        invariant positions == Lists(Collect(store.data, indexed[..n], h))
      {
        var data := store.ReadAt(indexed[n], RECORD);
        assert indexed[..n + 1] == indexed[..n] + [indexed[n]];
        CollectOne(store.data, indexed[..n], indexed[n], h);
        var equal := CompareHash(h, data);
        if equal {
          var epoch, sequence := EpochOf(data), SequenceOf(data);
          ghost var before := Collect(store.data, indexed[..n], h);
          assert Lists(before[epoch := sequence]) == Lists(before)[epoch := [sequence]] && [] + [sequence] == [sequence];
          if epoch !in positions {
            positions := positions[epoch := [] + [sequence]];
          } else {
            positions := positions[epoch := [sequence]];
          }
        }
      }
      assert indexed[..|indexed|] == indexed;
    }

    /** Go's map iteration order is arbitrary, and so is the order of the items here. `make` with a
        length before `append` leaves one nil per item in front (line 149). */
    method Retrieve(h: Hash) returns (output: seq<Option<QueryBlock>>)
      requires Valid()
      ensures NilsThenItems(output, Lists(Latest(Records(store.data), h)))
    {
      BucketSuffices(store.data, Records(store.data), h);
      var partial := h[..INDEX_BYTES];
      if partial !in index {
        return [];
      }
      var positions := CollectPositions(index[partial], h);
      output := ListItems(positions);
    }
  }

  function Lists(latest: map<U64, I64>): map<U64, seq<I64>> {
    map e | e in latest :: [latest[e]]
  }

  ghost predicate Listed(output: seq<Option<QueryBlock>>, from: nat, item: QueryBlock) {
    exists i :: from <= i < |output| && output[i] == Some(item)
  }

  ghost predicate ItemsFrom(output: seq<Option<QueryBlock>>, from: nat, positions: map<U64, seq<I64>>) {
    && from <= |output|
    && (forall i :: 0 <= i < from ==> output[i] == None)
    && (forall i :: from <= i < |output| ==>
          output[i].Some? && output[i].value.epoch in positions
          && output[i].value.actions == positions[output[i].value.epoch])
  }

  /** One nil per item, then every item once, in any order. */
  ghost predicate NilsThenItems(output: seq<Option<QueryBlock>>, positions: map<U64, seq<I64>>) {
    && |output| == 2 * |positions| && ItemsFrom(output, |positions|, positions)
    && (forall e :: e in positions ==> Listed(output, |positions|, QueryBlock(e, positions[e])))
  }

  lemma ListedStays(output: seq<Option<QueryBlock>>, from: nat, item: QueryBlock, more: QueryBlock)
    requires from <= |output|
    ensures Listed(output, from, item) ==> Listed(output + [Some(more)], from, item)
    ensures Listed(output + [Some(more)], from, more)
  {
    if Listed(output, from, item) {
      var i :| from <= i < |output| && output[i] == Some(item);
      assert (output + [Some(more)])[i] == output[i];
    }
    assert (output + [Some(more)])[|output|] == Some(more);
  }

  lemma RecordsOfOne(hashes: seq<Hash>, n: nat, value: U64)
    requires n < |hashes|
    ensures RecordsOf(hashes[..n + 1], value) == RecordsOf(hashes[..n], value) + [MakeRecord(hashes[n], value)]
  {
  }

  method ListItems(positions: map<U64, seq<I64>>) returns (output: seq<Option<QueryBlock>>)
    ensures NilsThenItems(output, positions)
  {
    output := seq(|positions|, _ => None);
    var left := positions.Keys;
    while left != {}
      invariant left <= positions.Keys && |output| + |left| == 2 * |positions|
      invariant ItemsFrom(output, |positions|, positions)
      invariant forall e :: e in positions ==> e in left || Listed(output, |positions|, QueryBlock(e, positions[e]))
      decreases left
    {
      var e :| e in left;
      ghost var before := output;
      output := output + [Some(QueryBlock(e, positions[e]))];
      forall d | d in positions
        ensures d in left - {e} || Listed(output, |positions|, QueryBlock(d, positions[d]))
      {
        ListedStays(before, |positions|, QueryBlock(d, positions[d]), QueryBlock(e, positions[e]));
      }
      left := left - {e};
    }
  }
}
