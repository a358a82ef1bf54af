/** social/store.go: blocks as length-prefixed frames over a list of fixed-size stores, with an
    offset index that opening rebuilds by scanning. */
module BlockLog {
  import opened ByteStores
  import opened Codec
  import opened Wrappers

  /** The payloads written to one store, in order. */
  type File = seq<Bytes>
  datatype BlockIndex = BlockIndex(storeNum: nat, offset: nat, size: nat)

  function Frame(payload: Bytes): Bytes {
    PutUint(|payload|, 8) + payload
  }

  function Encode(file: File): Bytes {
    if file == [] then [] else Encode(file[..|file| - 1]) + Frame(file[|file| - 1])
  }

  function Entries(storeNum: nat, file: File): (index: seq<BlockIndex>)
    ensures |index| == |file|
  {
    if file == [] then []
    else
      var before := file[..|file| - 1];
      Entries(storeNum, before) + [BlockIndex(storeNum, |Encode(before)| + 8, |file[|file| - 1]|)]
  }

  function Index(files: seq<File>): seq<BlockIndex> {
    if files == [] then [] else Index(files[..|files| - 1]) + Entries(|files| - 1, files[|files| - 1])
  }

  function Payloads(files: seq<File>): File {
    if files == [] then [] else Payloads(files[..|files| - 1]) + files[|files| - 1]
  }

  function ExtendLast(files: seq<File>, payload: Bytes): seq<File>
    requires files != []
  {
    var last := |files| - 1;
    files[last := files[last] + [payload]]
  }

  /** Where the next payload goes: a new store when the frame would not fit in the last one. */
  function Add(files: seq<File>, payload: Bytes, maxSize: nat): seq<File>
    requires files != []
  {
    var last := |files| - 1;
    if |Encode(files[last])| + 8 + |payload| > maxSize then files + [[payload]]
    else ExtendLast(files, payload)
  }

  function Used(files: seq<File>): nat {
    if files == [] then 0 else |Encode(files[|files| - 1])|
  }

  /** A store holds a file when it starts with its frames and is zero after them. */
  ghost predicate Holds(data: Bytes, file: File) {
    && |Encode(file)| <= |data|
    && data == Encode(file) + Zeros(|data| - |Encode(file)|)
  }

  /** What reading takes: the file's frames come first, whatever follows them. */
  ghost predicate Starts(data: Bytes, file: File) {
    |Encode(file)| <= |data| && data[..|Encode(file)|] == Encode(file)
  }

  lemma HoldsStarts(data: Bytes, file: File)
    requires Holds(data, file)
    ensures Starts(data, file)
  {
    Splits(data, [], Encode(file), Zeros(|data| - |Encode(file)|));
  }

  lemma EncodeOne(file: File, payload: Bytes)
    ensures Encode(file + [payload]) == Encode(file) + Frame(payload)
  {
    assert (file + [payload])[..|file|] == file;
  }

  lemma EntriesOne(storeNum: nat, file: File, payload: Bytes)
    ensures Entries(storeNum, file + [payload]) ==
            Entries(storeNum, file) + [BlockIndex(storeNum, |Encode(file)| + 8, |payload|)]
  {
    assert (file + [payload])[..|file|] == file;
  }

  lemma {:induction false} EncodeAppend(first: File, second: File)
    ensures Encode(first + second) == Encode(first) + Encode(second)
  {
    if second == [] {
      assert first + second == first;
    } else {
      var last := |second| - 1;
      assert (first + second)[..|first + second| - 1] == first + second[..last];
      EncodeAppend(first, second[..last]);
    }
  }

  lemma EncodeMiddle(before: File, payload: Bytes, after: File)
    ensures Encode(before + [payload] + after) == Encode(before) + Frame(payload) + Encode(after)
  {
    EncodeAppend(before + [payload], after);
    EncodeOne(before, payload);
  }

  lemma {:induction false} EntriesAt(storeNum: nat, file: File, k: nat)
    requires k < |file|
    ensures Entries(storeNum, file)[k] == BlockIndex(storeNum, |Encode(file[..k])| + 8, |file[k]|)
  {
    if k < |file| - 1 {
      EntriesAt(storeNum, file[..|file| - 1], k);
      assert file[..|file| - 1][..k] == file[..k];
    }
  }

  /** Where a frame is in what data starts with. */
  lemma FrameInside(data: Bytes, all: Bytes, head: Bytes, payload: Bytes, tail: Bytes)
    requires all == head + Frame(payload) + tail && |all| <= |data| && data[..|all|] == all
    ensures data[|head| + 8..|head| + 8 + |payload|] == payload
  {
    forall i | 0 <= i < |all| ensures data[i] == all[i] {
      assert data[..|all|][i] == data[i];
    }
  }

  lemma EncodeParts(file: File, k: nat) returns (tail: Bytes)
    requires k < |file|
    ensures Encode(file) == Encode(file[..k]) + Frame(file[k]) + tail
  {
    tail := Encode(file[k + 1..]);
    EncodeMiddle(file[..k], file[k], file[k + 1..]);
    assert file[..k] + [file[k]] + file[k + 1..] == file;
  }

  lemma HeldEntry(data: Bytes, file: File, storeNum: nat, k: nat)
    requires Starts(data, file) && k < |file|
    ensures var entry := Entries(storeNum, file)[k];
            ReadBytes(data, entry.offset, entry.size) == file[k]
  {
    EntriesAt(storeNum, file, k);
    var tail := EncodeParts(file, k);
    FrameInside(data, Encode(file), Encode(file[..k]), file[k], tail);
    ReadInside(data, |Encode(file[..k])| + 8, |file[k]|);
  }

  lemma HoldsOneMore(data: Bytes, file: File, payload: Bytes)
    requires Holds(data, file)
    ensures Holds(WriteBytes(data, |Encode(file)|, Frame(payload)), file + [payload])
  {
    EncodeOne(file, payload);
  }

  /** The n-th payload is at the n-th index entry. */
  lemma {:induction false} Locate(files: seq<File>, n: nat) returns (s: nat, k: nat)
    requires n < |Payloads(files)|
    ensures s < |files| && k < |files[s]| && |Index(files)| == |Payloads(files)|
    ensures Index(files)[n] == Entries(s, files[s])[k] && Payloads(files)[n] == files[s][k]
  {
    var last := |files| - 1;
    IndexLength(files[..last]);
    if n < |Payloads(files[..last])| {
      s, k := Locate(files[..last], n);
    } else {
      s, k := last, n - |Payloads(files[..last])|;
    }
  }

  lemma {:induction false} IndexLength(files: seq<File>)
    ensures |Index(files)| == |Payloads(files)|
  {
    if files != [] {
      IndexLength(files[..|files| - 1]);
    }
  }

  lemma OneFileMore(front: seq<File>, file: File)
    ensures Payloads(front + [file]) == Payloads(front) + file
    ensures Index(front + [file]) == Index(front) + Entries(|front|, file)
    ensures Used(front + [file]) == |Encode(file)|
  {
    assert (front + [file])[..|front|] == front;
  }

  lemma ExtendLastIndexes(front: seq<File>, file: File, payload: Bytes)
    ensures Payloads(front + [file + [payload]]) == Payloads(front + [file]) + [payload]
    ensures Used(front + [file + [payload]]) == Used(front + [file]) + 8 + |payload|
    ensures Index(front + [file + [payload]]) ==
            Index(front + [file]) + [BlockIndex(|front|, Used(front + [file]) + 8, |payload|)]
  {
    var longer, entry := file + [payload], BlockIndex(|front|, |Encode(file)| + 8, |payload|);
    OneFileMore(front, file);
    OneFileMore(front, longer);
    EncodeOne(file, payload);
    EntriesOne(|front|, file, payload);
    Associates(Payloads(front), file, [payload]);
    Associates(Index(front), Entries(|front|, file), [entry]);
  }

  /** The payload list and the index grow by one, and the entry points into the last store. */
  ghost predicate GrowsBy(files: seq<File>, after: seq<File>, payload: Bytes) {
    && after != [] && Used(after) >= 8 + |payload|
    && Payloads(after) == Payloads(files) + [payload]
    && Index(after) == Index(files) + [BlockIndex(|after| - 1, Used(after) - |payload|, |payload|)]
  }

  lemma ExtendLastEntry(files: seq<File>, front: seq<File>, file: File, payload: Bytes)
    requires files == front + [file]
    ensures ExtendLast(files, payload) == front + [file + [payload]]
    ensures Payloads(ExtendLast(files, payload)) == Payloads(files) + [payload]
    ensures Used(ExtendLast(files, payload)) == Used(files) + 8 + |payload|
    ensures Index(ExtendLast(files, payload)) == Index(files) + [BlockIndex(|front|, Used(files) + 8, |payload|)]
  {
    assert files[|front| := file + [payload]] == front + [file + [payload]];
    ExtendLastIndexes(front, file, payload);
  }

  /** What one more frame in the last store makes of the index. */
  lemma OneMoreFrame(files: seq<File>, payload: Bytes) returns (after: seq<File>)
    requires files != []
    ensures after == ExtendLast(files, payload) && |after| == |files|
    ensures Used(after) == Used(files) + 8 + |payload|
    ensures Index(after) == Index(files) + [BlockIndex(|files| - 1, Used(files) + 8, |payload|)]
  {
    after := ExtendLast(files, payload);
    assert files == files[..|files| - 1] + [files[|files| - 1]];
    ExtendLastEntry(files, files[..|files| - 1], files[|files| - 1], payload);
  }

  lemma ExtendLastGrows(files: seq<File>, payload: Bytes)
    requires files != []
    ensures GrowsBy(files, ExtendLast(files, payload), payload)
    ensures Used(ExtendLast(files, payload)) == Used(files) + 8 + |payload|
  {
    assert files == files[..|files| - 1] + [files[|files| - 1]];
    ExtendLastEntry(files, files[..|files| - 1], files[|files| - 1], payload);
  }

  lemma NewStoreGrows(files: seq<File>, payload: Bytes)
    ensures GrowsBy(files, files + [[payload]], payload)
  {
    OneFileMore(files, [payload]);
    EncodeOne([], payload);
    EntriesOne(|files|, [], payload);
    assert [] + [payload] == [payload];
  }

  lemma AddGrows(files: seq<File>, payload: Bytes, maxSize: nat)
    requires files != []
    ensures GrowsBy(files, Add(files, payload, maxSize), payload)
  {
    ExtendLastGrows(files, payload);
    NewStoreGrows(files, payload);
  }

  // ----- whole runs of AddBlock -----

  function AddAll(files: seq<File>, payloads: File, maxSize: nat): (after: seq<File>)
    requires files != []
    ensures after != []
  {
    if payloads == [] then files
    else Add(AddAll(files, payloads[..|payloads| - 1], maxSize), payloads[|payloads| - 1], maxSize)
  }

  /** A run of `AddBlock` on a store created by `NewBlockStore`. */
  function Place(payloads: File, maxSize: nat): (files: seq<File>)
    ensures files != []
  {
    AddAll([[]], payloads, maxSize)
  }

  /** Whatever was placed where, the payloads read back in the order they were added. */
  lemma {:induction false} PlaceKeepsPayloads(payloads: File, maxSize: nat)
    ensures Payloads(Place(payloads, maxSize)) == payloads
  {
    if payloads == [] {

      assert Payloads(Place([], maxSize)[..0]) == [];
    } else {
      PlaceKeepsPayloads(payloads[..|payloads| - 1], maxSize);
      AddGrows(Place(payloads[..|payloads| - 1], maxSize), payloads[|payloads| - 1], maxSize);
    }
  }

  ghost predicate AllFit(files: seq<File>, maxSize: nat) {
    forall i :: 0 <= i < |files| ==> |Encode(files[i])| <= maxSize
  }

  lemma AddFitsIff(files: seq<File>, payload: Bytes, maxSize: nat)
    requires files != []
    ensures AllFit(Add(files, payload, maxSize), maxSize) <==> AllFit(files, maxSize) && 8 + |payload| <= maxSize
  {
    var last, after := |files| - 1, Add(files, payload, maxSize);
    EncodeOne(files[last], payload);
    EncodeOne([], payload);
    assert [] + [payload] == [payload];
    assert forall i :: 0 <= i < last ==> after[i] == files[i];
    if |after| > |files| {
      assert after[last] == files[last] && |Encode(after[last + 1])| == 8 + |payload|;
    } else {
      assert |Encode(after[last])| == |Encode(files[last])| + 8 + |payload| <= maxSize;
    }
  }

  /** Every store stays within `maxSize` exactly when every frame on its own does. */
  lemma {:induction false} StoresFitIff(payloads: File, maxSize: nat)
    ensures AllFit(Place(payloads, maxSize), maxSize) <==> forall i :: 0 <= i < |payloads| ==> 8 + |payloads[i]| <= maxSize
  {
    if payloads == [] {
      assert Place(payloads, maxSize) == [[]];
    } else {
      var last := |payloads| - 1;
      StoresFitIff(payloads[..last], maxSize);
      AddFitsIff(Place(payloads[..last], maxSize), payloads[last], maxSize);
      assert forall i :: 0 <= i < last ==> payloads[..last][i] == payloads[i];
    }
  }

  /** A store is left only for a frame that did not fit in it any more. */
  ghost predicate Greedy(files: seq<File>, maxSize: nat) {
    forall i :: 0 < i < |files| ==> files[i] != [] && |Encode(files[i - 1])| + 8 + |files[i][0]| > maxSize
  }

  lemma AddKeepsGreedy(files: seq<File>, payload: Bytes, maxSize: nat)
    requires files != [] && Greedy(files, maxSize)
    ensures Greedy(Add(files, payload, maxSize), maxSize)
  {
    var after, last := Add(files, payload, maxSize), |files| - 1;
    forall i | 0 < i < |after| ensures after[i] != [] && |Encode(after[i - 1])| + 8 + |after[i][0]| > maxSize {
      assert i - 1 < last ==> after[i - 1] == files[i - 1];
      if i <= last {
        assert after[i][0] == files[i][0];
      }
    }
  }

  lemma {:induction false} PlaceIsGreedy(payloads: File, maxSize: nat)
    ensures Greedy(Place(payloads, maxSize), maxSize)
  {
    if payloads != [] {
      var last := |payloads| - 1;
      PlaceIsGreedy(payloads[..last], maxSize);
      AddKeepsGreedy(Place(payloads[..last], maxSize), payloads[last], maxSize);
    }
  }

  /** Frames of one store lie one after the other. */
  lemma FramesDoNotOverlap(storeNum: nat, file: File, i: nat, j: nat)
    requires i < j < |file|
    ensures var a, b := Entries(storeNum, file)[i], Entries(storeNum, file)[j];
            a.offset + a.size <= b.offset - 8 && b.offset + b.size <= |Encode(file)|
  {
    EntriesAt(storeNum, file, i);
    EntriesAt(storeNum, file, j);
    var between := EncodeParts(file[..j], i);
    assert file[..j][..i] == file[..i];
    var after := EncodeParts(file, j);
  }

  // ----- reopening -----

  /** What a scan sees of a file: an empty payload is written as a zero size and ends it. */
  function Visible(file: File): (v: File)
    ensures |v| <= |file| && v == file[..|v|]
    ensures forall i :: 0 <= i < |v| ==> file[i] != []
    ensures |v| < |file| ==> file[|v|] == []
  {
    if file == [] || file[0] == [] then [] else [file[0]] + Visible(file[1..])
  }

  function VisibleAll(files: seq<File>): (v: seq<File>)
    ensures |v| == |files|
    ensures forall i :: 0 <= i < |files| ==> v[i] == Visible(files[i])
  {
    seq(|files|, i requires 0 <= i < |files| => Visible(files[i]))
  }

  ghost predicate NoneEmpty(payloads: File) {
    forall i :: 0 <= i < |payloads| ==> payloads[i] != []
  }

  lemma {:induction false} VisibleIsAll(files: seq<File>)
    requires NoneEmpty(Payloads(files))
    ensures VisibleAll(files) == files
  {
    if files != [] {
      var last := |files| - 1;
      var before := Payloads(files[..last]);
      assert forall i :: 0 <= i < |before| ==> before[i] == Payloads(files)[i];
      assert forall i :: 0 <= i < |files[last]| ==> files[last][i] == Payloads(files)[|before| + i];
      VisibleIsAll(files[..last]);
      assert NoneEmpty(files[last]) && VisibleAll(files)[last] == files[last];
      assert forall i :: 0 <= i < last ==> VisibleAll(files)[i] == VisibleAll(files[..last])[i] == files[..last][i];
    }
  }

  /** The rebuilt index is the live one exactly when no payload is empty. */
  lemma ReopenedIndexIff(files: seq<File>)
    ensures Index(VisibleAll(files)) == Index(files) <==> NoneEmpty(Payloads(files))
  {
    if NoneEmpty(Payloads(files)) {
      VisibleIsAll(files);
    } else {
      var n :| 0 <= n < |Payloads(files)| && Payloads(files)[n] == [];
      var s, k := Locate(files, n);
      EntriesAt(s, files[s], k);
      if n < |Index(VisibleAll(files))| {
        IndexLength(VisibleAll(files));
        var t, j := Locate(VisibleAll(files), n);
        EntriesAt(t, VisibleAll(files)[t], j);
        assert VisibleAll(files)[t][j] == files[t][j] != [];
      }
    }
  }

  /** A single empty payload, and the reopened store has no block at all. */
  lemma EmptyPayloadIsLost(maxSize: nat)
    requires maxSize >= 8
    ensures var files := Place([[]], maxSize);
            Index(files) == [BlockIndex(0, 8, 0)] && Index(VisibleAll(files)) == []
  {
    var none: File, empty: Bytes := [], [];
    var one := none + [empty];
    assert one == [empty] && one[..0] == none && AddAll([none], none, maxSize) == [none];
    assert ExtendLast([none], empty) == [one];
    assert Place(one, maxSize) == Add([none], empty, maxSize);
    assert VisibleAll([one]) == [none];
    OneFileMore([], one);
    OneFileMore([], none);
    EntriesOne(0, none, empty);
    assert [] + [one] == [one] && [] + [none] == [none];
  }

  lemma {:induction false} AddAllAppend(files: seq<File>, first: File, second: File, maxSize: nat)
    requires files != []
    ensures AddAll(files, first + second, maxSize) == AddAll(AddAll(files, first, maxSize), second, maxSize)
  {
    if second == [] {
      assert first + second == first;
    } else {
      var last := |second| - 1;
      assert (first + second)[..|first + second| - 1] == first + second[..last];
      AddAllAppend(files, first, second[..last], maxSize);
    }
  }

  /** Close, reopen and go on: with no empty payload before the close, later additions land where
      they would have landed in the store that was never closed. */
  lemma ReopenedStoreContinues(payloads: File, later: File, maxSize: nat)
    requires NoneEmpty(payloads)
    ensures AddAll(VisibleAll(Place(payloads, maxSize)), later, maxSize) == Place(payloads + later, maxSize)
    ensures Payloads(AddAll(VisibleAll(Place(payloads, maxSize)), later, maxSize)) == payloads + later
  {
    PlaceKeepsPayloads(payloads, maxSize);
    VisibleIsAll(Place(payloads, maxSize));
    AddAllAppend([[]], payloads, later, maxSize);
    PlaceKeepsPayloads(payloads + later, maxSize);
  }

  /** From an offset on, the data is some frames and zeros after them. */
  ghost predicate HoldsFrom(data: Bytes, offset: nat, file: File) {
    offset <= |data| && Holds(data[offset..], file)
  }

  lemma EncodeFirst(payload: Bytes, rest: File)
    ensures Encode([payload] + rest) == Frame(payload) + Encode(rest)
  {
    EncodeAppend([payload], rest);
    EncodeOne([], payload);
    assert [] + [payload] == [payload];
  }

  /** The size read at an offset is that of the payload there, and the next frame follows it. */
  lemma FrameIsRead(data: Bytes, offset: nat, payload: Bytes, rest: File)
    requires HoldsFrom(data, offset, [payload] + rest) && |payload| < TWO_63
    ensures ParseUint(ReadBytes(data, offset, 8), 0, 8) == |payload|
    ensures HoldsFrom(data, offset + 8 + |payload|, rest)
  {
    var here, size := data[offset..], PutUint(|payload|, 8);
    EncodeFirst(payload, rest);
    var tail := Encode(rest) + Zeros(|here| - |Encode([payload] + rest)|);
    assert here == size + payload + tail;
    Splits(here, size, payload, tail);
    SliceWithin(data, offset, 8 + |payload|, |here|);
    ReadInside(data, offset, 8);
    SliceWithin(data, offset, 0, 8);
    WidthBounds();
    ValueOfPut(|payload|, 8);
    assert size[0..8] == size == here[0..8];
  }

  /** Behind the last frame the size reads as 0. */
  lemma EndIsRead(data: Bytes, offset: nat)
    requires HoldsFrom(data, offset, [])
    ensures ParseUint(ReadBytes(data, offset, 8), 0, 8) == 0
  {
    assert data[offset..] == Zeros(|data| - offset);
    forall i | offset <= i < |data| ensures data[i] == 0 {
      assert data[offset..][i - offset] == data[i];
    }
    var read := ReadBytes(data, offset, 8);
    assert read == Zeros(8) && read[0..8] == read;
    ZerosAreZero(8);
  }

  /** The size is that of the next payload, or 0 at the end. */
  lemma SizeIsRead(data: Bytes, offset: nat, file: File)
    requires HoldsFrom(data, offset, file) && (file != [] ==> |file[0]| < TWO_63)
    ensures ParseUint(ReadBytes(data, offset, 8), 0, 8) == if file == [] then 0 else |file[0]|
    ensures file != [] ==> HoldsFrom(data, offset + 8 + |file[0]|, file[1..])
  {
    if file == [] {
      EndIsRead(data, offset);
    } else {
      assert file == [file[0]] + file[1..];
      FrameIsRead(data, offset, file[0], file[1..]);
    }
  }

  lemma NothingAtTheEnd(data: Bytes, offset: nat, file: File)
    requires HoldsFrom(data, offset, file) && offset >= |data|
    ensures file == []
  {
  }

  /** The entries a scan finds from an offset on, and where it ends, as the loop goes. */
  function ScanEntries(n: nat, offset: nat, file: File): seq<BlockIndex>
    decreases |file|
  {
    if file == [] || |file[0]| == 0 then []
    else [BlockIndex(n, offset + 8, |file[0]|)] + ScanEntries(n, offset + 8 + |file[0]|, file[1..])
  }

  function ScanEnd(offset: nat, file: File): nat
    decreases |file|
  {
    if file == [] || |file[0]| == 0 then offset else ScanEnd(offset + 8 + |file[0]|, file[1..])
  }

  /** They are those of the visible part. */
  lemma {:induction false} ScanIsVisible(n: nat, before: File, file: File)
    ensures Entries(n, before) + ScanEntries(n, |Encode(before)|, file) == Entries(n, before + Visible(file))
    ensures ScanEnd(|Encode(before)|, file) == |Encode(before + Visible(file))|
    decreases |file|
  {
    if file == [] || |file[0]| == 0 {
      assert before + [] == before;
    } else {
      var entry, rest := BlockIndex(n, |Encode(before)| + 8, |file[0]|), file[1..];
      EncodeOne(before, file[0]);
      EntriesOne(n, before, file[0]);
      ScanIsVisible(n, before + [file[0]], rest);
      Associates(before, [file[0]], Visible(rest));
      Associates(Entries(n, before), [entry], ScanEntries(n, |Encode(before)| + 8 + |file[0]|, rest));
    }
  }

  // ----- the store itself -----

  ghost predicate Sized(file: File) {
    forall k :: 0 <= k < |file| ==> |file[k]| < TWO_63
  }

  /** The inner loop of `OpenBlockStore`. */
  method ScanLoop(store: ByteStore, n: nat, ghost file: File) returns (entries: seq<BlockIndex>, offset: nat)
    requires HoldsFrom(store.data, 0, file) && Sized(file)
    ensures entries == ScanEntries(n, 0, file) && offset == ScanEnd(0, file)
  {
    ghost var todo := file;
    entries, offset := [], 0;
    while true
      invariant HoldsFrom(store.data, offset, todo) && Sized(todo)
      invariant entries + ScanEntries(n, offset, todo) == ScanEntries(n, 0, file)
      invariant ScanEnd(offset, todo) == ScanEnd(0, file)
      decreases |todo|
    {
      var sizeBytes := store.ReadAt(offset, 8);
      var size := ParseUint(sizeBytes, 0, 8);
      SizeIsRead(store.data, offset, todo);
      if size == 0 {
        assert entries + [] == entries;
        return;
      }
      Associates(entries, [BlockIndex(n, offset + 8, size)], ScanEntries(n, offset + 8 + size, todo[1..]));
      entries := entries + [BlockIndex(n, offset + 8, size)];
      offset := offset + 8 + size;
      todo := todo[1..];
      if offset >= |store.data| {
        NothingAtTheEnd(store.data, offset, todo);
        assert entries + [] == entries;
        return;
      }
    }
  }

  /** What it finds in one store. */
  method Scan(store: ByteStore, n: nat, ghost file: File) returns (entries: seq<BlockIndex>, offset: nat)
    requires Holds(store.data, file) && Sized(file)
    ensures entries == Entries(n, Visible(file)) && offset == |Encode(Visible(file))|
  {
    assert store.data[0..] == store.data;
    entries, offset := ScanLoop(store, n, file);
    ScanWhole(n, file);
  }

  lemma NothingBefore<T>(s: seq<T>)
    ensures [] + s == s
  {
  }

  lemma ScanWhole(n: nat, file: File)
    ensures ScanEntries(n, 0, file) == Entries(n, Visible(file)) && ScanEnd(0, file) == |Encode(Visible(file))|
  {
    ScanIsVisible(n, [], file);
    NothingBefore(Visible(file));
    NothingBefore(ScanEntries(n, 0, file));
  }

  lemma IndexUpTo(files: seq<File>, n: nat)
    requires n < |files|
    ensures Index(files[..n + 1]) == Index(files[..n]) + Entries(n, files[n])
    ensures Used(files[..n + 1]) == |Encode(files[n])|
  {
    assert files[..n + 1] == files[..n] + [files[n]];
    OneFileMore(files[..n], files[n]);
  }

  method ScanAll(stores: seq<ByteStore>, ghost files: seq<File>) returns (index: seq<BlockIndex>, offset: nat)
    requires |stores| == |files|
    requires forall i :: 0 <= i < |stores| ==> Holds(stores[i].data, files[i]) && Sized(files[i])
    ensures index == Index(VisibleAll(files)) && offset == Used(VisibleAll(files))
  {
    ghost var visible := VisibleAll(files);
    index, offset := [], 0;
    for n := 0 to |stores|
      invariant index == Index(visible[..n])
      invariant offset == Used(visible[..n])
    {
      var entries;
      entries, offset := Scan(stores[n], n, files[n]);
      index := index + entries;
      IndexUpTo(visible, n);
    }
    assert visible[..|stores|] == visible;
  }

  lemma VisibleStarts(data: Bytes, file: File)
    requires Holds(data, file)
    ensures Starts(data, Visible(file))
  {
    var seen, rest := Encode(Visible(file)), file[|Visible(file)|..];
    assert file == Visible(file) + rest;
    EncodeAppend(Visible(file), rest);
    Splits(data, seen, Encode(rest), Zeros(|data| - |Encode(file)|));
  }

  ghost predicate Stored(stores: seq<ByteStore>, files: seq<File>)
    reads stores
  {
    && |stores| == |files|
    && (forall i, j :: 0 <= i < j < |stores| ==> stores[i] != stores[j])
    && (forall i :: 0 <= i < |stores| ==> Holds(stores[i].data, files[i]))
  }

  lemma AllVisibleStart(stores: seq<ByteStore>, files: seq<File>, visible: seq<File>)
    requires Stored(stores, files) && visible == VisibleAll(files)
    ensures forall i :: 0 <= i < |stores| ==> Starts(stores[i].data, visible[i])
  {
    forall i | 0 <= i < |stores| ensures Starts(stores[i].data, visible[i]) {
      VisibleStarts(stores[i].data, files[i]);
    }
  }

  lemma SeesAll(files: seq<File>, visible: seq<File>)
    requires visible == VisibleAll(files)
    ensures NoneEmpty(Payloads(files)) ==> visible == files
  {
    if NoneEmpty(Payloads(files)) {
      VisibleIsAll(files);
    }
  }

  class BlockStore {
    var stores: seq<ByteStore>
    const maxSize: nat
    var blocks: seq<BlockIndex>
    var currentSize: nat
    var epoch: U64
    ghost var files: seq<File>

    ghost predicate Valid()
      reads this, stores
    {
      && Stored(stores, files)
      && blocks == Index(files)
      && currentSize == Used(files)
    }

    /** Enough for reading; a store that was reopened over an empty payload has no more. */
    ghost predicate Readable()
      reads this, stores
    {
      && |stores| == |files| && blocks == Index(files)
      && forall i :: 0 <= i < |stores| ==> Starts(stores[i].data, files[i])
    }

    lemma ValidIsReadable()
      requires Valid()
      ensures Readable()
    {
      forall i | 0 <= i < |stores| ensures Starts(stores[i].data, files[i]) {
        HoldsStarts(stores[i].data, files[i]);
      }
    }

    constructor (store: ByteStore)
      requires store.data == Zeros(|store.data|)
      ensures Valid() && stores == [store] && maxSize == |store.data| && files == [[]] && epoch == 0
    {
      stores, maxSize, blocks, currentSize, epoch := [store], |store.data|, [], 0, 0;
      files := [[]];
    }

    /** The scan of `OpenBlockStore`. `files` is what had been written to the stores. */
    constructor Open(stores: seq<ByteStore>, maxSize: nat, ghost files: seq<File>)
      requires Stored(stores, files) && forall i :: 0 <= i < |files| ==> Sized(files[i])
      ensures this.stores == stores && this.maxSize == maxSize && this.files == VisibleAll(files)
      ensures blocks == Index(VisibleAll(files)) && currentSize == Used(VisibleAll(files))
      ensures epoch == if blocks == [] then TWO_64 - 1 else (|blocks| - 1) % TWO_64
      ensures Readable() && (NoneEmpty(Payloads(files)) ==> Valid() && this.files == files)
    {
      var index, offset := ScanAll(stores, files);
      ghost var visible := VisibleAll(files);
      this.stores, this.maxSize, blocks, currentSize := stores, maxSize, index, offset;
      epoch := if index == [] then TWO_64 - 1 else (|index| - 1) % TWO_64;
      this.files := visible;
      new;
      AllVisibleStart(stores, files, visible);
      SeesAll(files, visible);
    }

    method NewStore()
      requires Valid() && stores != []
      modifies this
      ensures Valid() && files == old(files) + [[]]
      ensures stores == old(stores) + [stores[|stores| - 1]] && fresh(stores[|stores| - 1])
      ensures |stores[|stores| - 1].data| == maxSize && epoch == old(epoch) && blocks == old(blocks)
    {
      var store := new ByteStore(maxSize);
      stores := stores + [store];
      currentSize := 0;
      files := files + [[]];
      assert files[..|files| - 1] == old(files);
    }

    /** The frame goes after the used part of the last store. */
    method WriteLast(data: Bytes)
      requires Valid() && stores != []
      modifies stores[|stores| - 1]
      ensures Stored(stores, ExtendLast(files, data))
    {
      var last := |stores| - 1;
      HoldsOneMore(stores[last].data, files[last], data);
      stores[last].WriteAt(currentSize, PutUint(|data|, 8) + data);
      ghost var after := ExtendLast(files, data);
      forall i | 0 <= i < |stores| ensures Holds(stores[i].data, after[i]) {
        assert i != last ==> stores[i].data == old(stores[i].data) && after[i] == files[i];
      }
    }

    method WriteFrame(data: Bytes)
      requires Valid() && stores != [] && |data| < TWO_63
      modifies this, stores[|stores| - 1]
      ensures Valid() && stores == old(stores) && epoch == Next(old(epoch))
      ensures files == ExtendLast(old(files), data)
    {
      ghost var after := OneMoreFrame(files, data);
      WriteLast(data);
      blocks := blocks + [BlockIndex(|stores| - 1, currentSize + 8, |data|)];
      currentSize := currentSize + 8 + |data|;
      epoch := Next(epoch);
      files := after;
    }

    method AddBlock(data: Bytes) returns (ok: bool)
      requires Valid() && |data| < TWO_63
      modifies this, stores
      ensures Valid() && ok == (old(stores) != [])
      ensures fresh(set s | s in stores && s !in old(stores))
      ensures if ok then files == Add(old(files), data, maxSize) && epoch == Next(old(epoch))
              else files == old(files) && epoch == old(epoch)
    {
      if |stores| == 0 {
        return false;
      }
      if currentSize + 8 + |data| > maxSize {
        NewStore();
        assert [] + [data] == [data];
      }
      WriteFrame(data);
      ok := true;
    }

    method GetBlock(n: int) returns (data: Option<Bytes>)
      requires Readable()
      ensures data == if 0 <= n < |Payloads(files)| then Some(Payloads(files)[n]) else None
    {
      IndexLength(files);
      if n < 0 || n >= |blocks| {
        return None;
      }
      var index := blocks[n];
      ghost var s, k := Locate(files, n);
      EntriesAt(s, files[s], k);
      HeldEntry(stores[s].data, files[s], s, k);
      var bytes := stores[index.storeNum].ReadAt(index.offset, index.size);
      data := Some(bytes);
    }
  }
}
