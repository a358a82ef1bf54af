/** Both sides of topos/blockstore.go together: what a receiver makes of what `TransmitBlocks` sends
    from a store of blocks. A store opened from its files has `Epoch` one below its block count, a
    live one has `Epoch` equal to it, so its last requested block reads nil. */
module Arrival {
  import opened Codec
  import opened ProtocolBlocks
  import opened Transfer
  import opened Wrappers

  lemma ReadActionsShrink(data: Bytes)
    ensures ReadActions(data).Some? ==> |ReadActions(data).value.1| <= |data|
  {
  }

  lemma ReadBlockShrinks(data: Bytes)
    ensures ReadBlock(data).Some? ==> |ReadBlock(data).value.1| < |data|
  {
    if |data| >= 8 {
      ReadActionsShrink(data[8..]);
    }
  }

  /** `byteArrayToBlockArray` over the reading the format admits, in place of the source's block
      parser. */
  function ParseBlocks(data: Bytes): Option<seq<ProtocolBlock>>
    decreases |data|
  {
    ReadBlockShrinks(data);
    match ReadBlock(data)
    case None => None
    case Some((block, rest)) =>
      if rest == [] then Some([block])
      else
        match ParseBlocks(rest)
        case None => None
        case Some(blocks) => Some([block] + blocks)
  }

  /** All that is asked of a parser: it splits well-formed blocks and makes nothing of nothing. */
  ghost predicate SplitsBlocks(parse: Bytes -> Option<seq<ProtocolBlock>>) {
    && parse([]) == None
    && forall blocks {:trigger parse(Join(blocks))} :: blocks != [] && AllEncodable(blocks) ==> parse(Join(blocks)) == Some(blocks)
  }

  lemma {:induction false} ParseJoin(blocks: seq<ProtocolBlock>)
    requires blocks != [] && AllEncodable(blocks)
    ensures ParseBlocks(Join(blocks)) == Some(blocks)
  {
    BlockReadsBack(blocks[0], Join(blocks[1..]));
    JoinIsEmptyIff(blocks[1..]);
    assert [blocks[0]] + blocks[1..] == blocks;
    if |blocks| == 1 {
      assert [blocks[0]] == blocks;
    } else {
      ParseJoin(blocks[1..]);
    }
  }

  lemma FormatSplitsBlocks()
    ensures SplitsBlocks(data => ParseBlocks(data))
  {
    forall blocks | blocks != [] && AllEncodable(blocks) ensures ParseBlocks(Join(blocks)) == Some(blocks) {
      ParseJoin(blocks);
    }
  }

  lemma {:induction false} JoinOneMore(blocks: seq<ProtocolBlock>, b: ProtocolBlock)
    ensures Join(blocks + [b]) == Join(blocks) + Serialize(b)
  {
    if blocks == [] {
      assert [b][1..] == [];
      assert blocks + [b] == [b];
    } else {
      assert (blocks + [b])[1..] == blocks[1..] + [b];
      JoinOneMore(blocks[1..], b);
      Associates(Serialize(blocks[0]), Join(blocks[1..]), Serialize(b));
    }
  }

  function SerializeAll(blocks: seq<ProtocolBlock>): (payloads: seq<Bytes>)
    ensures |payloads| == |blocks|
  {
    if blocks == [] then [] else [Serialize(blocks[0])] + SerializeAll(blocks[1..])
  }

  // ----- what is sent -----

  /** What a request gets beyond the stored blocks: from a live store one nil block. */
  function Pad(live: bool): seq<Bytes> {
    if live then [[]] else []
  }

  lemma RequestedIsTail(payloads: seq<Bytes>, start: nat, live: bool)
    requires start <= |payloads| && (live || start < |payloads|)
    ensures Requested(payloads, start, if live then |payloads| else |payloads| - 1) == payloads[start..] + Pad(live)
  {
  }

  /** The blocks that go out together, starting from those already held in the buffer. */
  function Chunks(held: seq<ProtocolBlock>, blocks: seq<ProtocolBlock>, threshold: nat, live: bool): seq<seq<ProtocolBlock>>
    decreases |blocks|
  {
    if blocks == [] then if live then [held] else []
    else
      var grown := held + [blocks[0]];
      if |Join(grown)| > threshold || (|blocks| == 1 && !live) then [grown] + Chunks([], blocks[1..], threshold, live)
      else Chunks(grown, blocks[1..], threshold, live)
  }

  function JoinAll(chunks: seq<seq<ProtocolBlock>>): seq<Bytes> {
    if chunks == [] then [] else [Join(chunks[0])] + JoinAll(chunks[1..])
  }

  function Flatten(chunks: seq<seq<ProtocolBlock>>): seq<ProtocolBlock> {
    if chunks == [] then [] else chunks[0] + Flatten(chunks[1..])
  }

  /** Well-formed blocks in every chunk, and at least one in all but perhaps the last. */
  ghost predicate WholeChunks(chunks: seq<seq<ProtocolBlock>>) {
    forall i :: 0 <= i < |chunks| ==> AllEncodable(chunks[i]) && (chunks[i] == [] ==> i == |chunks| - 1)
  }

  predicate EndsEmpty<T>(s: seq<seq<T>>) {
    s != [] && s[|s| - 1] == []
  }

  /** Every batch is a whole number of blocks. */
  lemma {:induction false} BatchesAreChunks(held: seq<ProtocolBlock>, blocks: seq<ProtocolBlock>, threshold: nat, live: bool)
    ensures Batches(SerializeAll(blocks) + Pad(live), Join(held), threshold) == JoinAll(Chunks(held, blocks, threshold, live))
    decreases |blocks|
  {
    var payloads := SerializeAll(blocks) + Pad(live);
    if blocks == [] {
      assert payloads == Pad(live) && Join(held) + [] == Join(held);
    } else {
      var grown, later := held + [blocks[0]], blocks[1..];
      JoinOneMore(held, blocks[0]);
      assert payloads[1..] == SerializeAll(later) + Pad(live) && payloads[0] == Serialize(blocks[0]);
      if |Join(grown)| > threshold || (|blocks| == 1 && !live) {
        BatchesAreChunks([], later, threshold, live);
        assert Chunks(held, blocks, threshold, live)[1..] == Chunks([], later, threshold, live);
      } else {
        BatchesAreChunks(grown, later, threshold, live);
      }
    }
  }

  lemma FlattenOne(chunk: seq<ProtocolBlock>, rest: seq<seq<ProtocolBlock>>)
    ensures Flatten([chunk] + rest) == chunk + Flatten(rest)
    ensures chunk != [] && AllEncodable(chunk) && WholeChunks(rest) ==> WholeChunks([chunk] + rest)
  {
    assert ([chunk] + rest)[1..] == rest;
  }

  /** Together the batches are the blocks. */
  lemma {:induction false} ChunksAreWhole(held: seq<ProtocolBlock>, blocks: seq<ProtocolBlock>, threshold: nat, live: bool)
    requires (live || blocks != []) && AllEncodable(held) && AllEncodable(blocks)
    ensures Chunks(held, blocks, threshold, live) != [] && WholeChunks(Chunks(held, blocks, threshold, live))
    ensures Flatten(Chunks(held, blocks, threshold, live)) == held + blocks
    ensures !live ==> !EndsEmpty(Chunks(held, blocks, threshold, live))
    decreases |blocks|
  {
    if blocks == [] {
      FlattenOne(held, []);
      assert [held] + [] == [held] && Flatten([]) == [] && held + [] == held;
    } else {
      var grown, later := held + [blocks[0]], blocks[1..];
      assert held + blocks == grown + later;
      if |blocks| == 1 && !live {
        FlattenOne(grown, []);
        assert [grown] + [] == [grown] && later == [] && grown + [] == grown;
      } else if |Join(grown)| > threshold {
        ChunksAreWhole([], later, threshold, live);
        FlattenOne(grown, Chunks([], later, threshold, live));
        assert [] + later == later;
      } else {
        ChunksAreWhole(grown, later, threshold, live);
      }
    }
  }

  /** With the source's own threshold every block goes out alone, and a live store's answer ends in an
      empty message. */
  lemma {:induction false} LiveAnswerEndsEmpty(blocks: seq<ProtocolBlock>)
    ensures EndsEmpty(Chunks([], blocks, BUFFER_SIZE, true))
    decreases |blocks|
  {
    if blocks != [] {
      assert [] + [blocks[0]] == [blocks[0]] && |Join([blocks[0]])| > 0;
      LiveAnswerEndsEmpty(blocks[1..]);
    }
  }

  lemma {:induction false} JoinAllEndsEmpty(chunks: seq<seq<ProtocolBlock>>)
    ensures |JoinAll(chunks)| == |chunks| && (EndsEmpty(JoinAll(chunks)) <==> EndsEmpty(chunks))
  {
    if |chunks| > 1 {
      JoinAllEndsEmpty(chunks[1..]);
    } else if |chunks| == 1 {
      JoinIsEmptyIff(chunks[0]);
    }
  }

  // ----- what is received -----

  /** A batch of blocks leaves exactly those with the receiver. */
  lemma BatchIsTaken(parse: Bytes -> Option<seq<ProtocolBlock>>, s: Session, lastEpoch: nat, blocks: seq<ProtocolBlock>)
    requires SplitsBlocks(parse) && !s.closed && blocks != [] && AllEncodable(blocks)
    ensures OnMessage(parse, s, lastEpoch, Join(blocks)) == s.(receiver := TakeAll(s.receiver, lastEpoch, blocks))
  {
    assert |Join(blocks)| >= |Serialize(blocks[0])| > 8;
  }

  /** An empty message yields a nil for its length, another for what it does not parse to, and ends
      the session; otherwise the session stays open. */
  function Ended(r: Receiver, empty: bool): Session {
    if empty then Session(r, 2, true) else Session(r, 0, false)
  }

  lemma EmptyEnds(parse: Bytes -> Option<seq<ProtocolBlock>>, r: Receiver, lastEpoch: nat)
    requires parse([]) == None
    ensures OnMessages(parse, Session(r, 0, false), lastEpoch, [[]]) == Ended(r, true)
  {
    assert OnMessage(parse, Session(r, 0, false), lastEpoch, []) == Ended(r, true);
    assert OnMessages(parse, Ended(r, true), lastEpoch, []) == Ended(r, true);
    var messages: seq<Bytes> := [[]];
    assert messages[1..] == [];
  }

  lemma {:induction false} ChunksAreTaken(
      parse: Bytes -> Option<seq<ProtocolBlock>>, r: Receiver, lastEpoch: nat, chunks: seq<seq<ProtocolBlock>>)
    requires SplitsBlocks(parse) && WholeChunks(chunks)
    ensures OnMessages(parse, Session(r, 0, false), lastEpoch, JoinAll(chunks)) ==
            Ended(TakeAll(r, lastEpoch, Flatten(chunks)), EndsEmpty(chunks))
    decreases |chunks|
  {
    if chunks == [[]] {
      EmptyEnds(parse, r, lastEpoch);
      assert JoinAll(chunks) == [[]] && Flatten(chunks) == [];
    } else if chunks != [] {
      BatchIsTaken(parse, Session(r, 0, false), lastEpoch, chunks[0]);
      TakeAllAppend(r, lastEpoch, chunks[0], Flatten(chunks[1..]));
      assert JoinAll(chunks)[1..] == JoinAll(chunks[1..]);
      ChunksAreTaken(parse, TakeAll(r, lastEpoch, chunks[0]), lastEpoch, chunks[1..]);
    }
  }

  lemma BatchesAreTaken(parse: Bytes -> Option<seq<ProtocolBlock>>, r: Receiver, lastEpoch: nat,
                        blocks: seq<ProtocolBlock>, threshold: nat, live: bool, messages: seq<Bytes>)
    requires SplitsBlocks(parse) && (live || blocks != []) && AllEncodable(blocks)
    requires messages == Batches(SerializeAll(blocks) + Pad(live), [], threshold)
    ensures OnMessages(parse, Session(r, 0, false), lastEpoch, messages) ==
            Ended(TakeAll(r, lastEpoch, blocks), EndsEmpty(messages))
    ensures !live ==> !EndsEmpty(messages)
    ensures live && threshold == BUFFER_SIZE ==> EndsEmpty(messages)
  {
    var chunks := Chunks([], blocks, threshold, live);
    BatchesAreChunks([], blocks, threshold, live);
    ChunksAreWhole([], blocks, threshold, live);
    JoinAllEndsEmpty(chunks);
    ChunksAreTaken(parse, r, lastEpoch, chunks);
    assert [] + blocks == blocks;
    if live && threshold == BUFFER_SIZE {
      LiveAnswerEndsEmpty(blocks);
    }
  }

  lemma {:induction false} TakesAtMost(r: Receiver, last: nat, blocks: seq<ProtocolBlock>)
    ensures |TakeAll(r, last, blocks).output| <= |r.output| + |blocks|
    decreases |blocks|
  {
    if blocks != [] {
      TakesAtMost(TakeBlock(r, last, blocks[0]), last, blocks[1..]);
    }
  }

  /** Consecutive from an epoch on. */
  ghost predicate Consecutive(blocks: seq<ProtocolBlock>, epoch: nat) {
    forall i :: 0 <= i < |blocks| ==> blocks[i].epoch == epoch + i
  }

  lemma ConsecutiveTail(blocks: seq<ProtocolBlock>, epoch: nat)
    requires blocks != []
    ensures Consecutive(blocks, epoch) <==> blocks[0].epoch == epoch && Consecutive(blocks[1..], epoch + 1)
  {
    if blocks[0].epoch == epoch && Consecutive(blocks[1..], epoch + 1) {
      forall i | 0 <= i < |blocks| ensures blocks[i].epoch == epoch + i {
        assert i > 0 ==> blocks[i] == blocks[1..][i - 1];
      }
    }
  }

  /** The receiver takes every block exactly when their epochs are consecutive from the one it waits
      for. */
  lemma {:induction false} AllTakenIff(r: Receiver, last: nat, blocks: seq<ProtocolBlock>)
    requires r.epoch + |blocks| <= last + 1
    ensures TakeAll(r, last, blocks).output == r.output + blocks <==> Consecutive(blocks, r.epoch)
    decreases |blocks|
  {
    if blocks == [] {
      assert r.output + [] == r.output;
    } else {
      ConsecutiveTail(blocks, r.epoch);
      assert r.output + [blocks[0]] + blocks[1..] == r.output + blocks;
      if blocks[0].epoch != r.epoch {
        TakesAtMost(r, last, blocks[1..]);
      } else if |blocks| > 1 {
        AllTakenIff(TakeBlock(r, last, blocks[0]), last, blocks[1..]);
      }
    }
  }

  lemma {:induction false} NoneIsTaken(r: Receiver, last: nat, blocks: seq<ProtocolBlock>)
    requires forall i :: 0 <= i < |blocks| ==> blocks[i].epoch != r.epoch
    ensures TakeAll(r, last, blocks) == r
    decreases |blocks|
  {
    if blocks != [] {
      NoneIsTaken(r, last, blocks[1..]);
    }
  }

  // ----- both -----

  /** A store, live or opened from its files, whose payloads from the requested epoch on are well-formed
      blocks. Whatever the batch size: the receiver passes on exactly those blocks if and only if the
      k-th payload is the block of epoch k; the answer never ends in an empty message from an opened
      store, and always does, in the threshold of the source, from a live one; and such a message ends
      the session with two nils after the last block. */
  lemma {:induction false} StoreArrivesIff(
      parse: Bytes -> Option<seq<ProtocolBlock>>, payloads: seq<Bytes>, blocks: seq<ProtocolBlock>,
      start: nat, live: bool, last: nat, threshold: nat, messages: seq<Bytes>)
    requires SplitsBlocks(parse) && AllEncodable(blocks)
    requires last == (if live then |payloads| else |payloads| - 1) && 1 <= start <= last
    requires payloads[start..] == SerializeAll(blocks)
    requires messages == Answer(payloads, start, last, threshold)
    ensures var s := OnMessages(parse, Session(Receiver(start, []), 0, false), last, messages);
            && (s.receiver.output == blocks <==> Consecutive(blocks, start))
            && s == Ended(s.receiver, EndsEmpty(messages))
    ensures !live ==> !EndsEmpty(messages)
    ensures live && threshold == BUFFER_SIZE ==> EndsEmpty(messages)
  {
    RequestedIsTail(payloads, start, live);
    BatchesAreTaken(parse, Receiver(start, []), last, blocks, threshold, live, messages);
    AllTakenIff(Receiver(start, []), last, blocks);
    assert [] + blocks == blocks;
  }

  /** A store without the reserved payload for epoch 0, so that payload k is the block of epoch k + 1:
      the receiver passes on nothing. */
  lemma {:induction false} ShiftedStoreIsRejected(
      parse: Bytes -> Option<seq<ProtocolBlock>>, payloads: seq<Bytes>, blocks: seq<ProtocolBlock>,
      start: nat, live: bool, last: nat, threshold: nat, messages: seq<Bytes>)
    requires SplitsBlocks(parse) && AllEncodable(blocks)
    requires last == (if live then |payloads| else |payloads| - 1) && 1 <= start <= last
    requires payloads[start..] == SerializeAll(blocks) && Consecutive(blocks, start + 1)
    requires messages == Answer(payloads, start, last, threshold)
    ensures OnMessages(parse, Session(Receiver(start, []), 0, false), last, messages) ==
            Ended(Receiver(start, []), EndsEmpty(messages))
  {
    RequestedIsTail(payloads, start, live);
    BatchesAreTaken(parse, Receiver(start, []), last, blocks, threshold, live, messages);
    NoneIsTaken(Receiver(start, []), last, blocks);
  }

  /** The receiver learns the transmitter's last epoch, and the transmitter the receiver's request. */
  lemma HandshakeIsRead(payloads: seq<Bytes>, start: U64, last: U64, threshold: nat, budget: nat)
    ensures ParseUint(PutUint(last, 8), 0, 8) == last
    ensures last < TWO_64 - 1 ==>
              Reply(payloads, Some(PutUint(start, 8)), last, threshold, budget) == Answer(payloads, start, last, threshold)
  {
    WidthBounds();
    ValueOfPut(last, 8);
    ValueOfPut(start, 8);
    assert PutUint(last, 8)[0..8] == PutUint(last, 8) && PutUint(start, 8)[0..8] == PutUint(start, 8);
  }

  lemma {:induction false} ZerosSumToZero(n: nat)
    ensures Checksum(Zeros(n)) == 0
  {
    if n > 0 {
      ZerosSumToZero(n - 1);
      assert Zeros(n)[1..] == Zeros(n - 1);
    }
  }

  /** A request past the end is answered with a message that ends the session with one nil, whatever
      the parser would make of it. */
  lemma PastTheEndIsOneNil(parse: Bytes -> Option<seq<ProtocolBlock>>, r: Receiver, lastEpoch: nat,
                           payloads: seq<Bytes>, start: nat, last: nat, threshold: nat)
    requires start > last
    ensures OnMessages(parse, Session(r, 0, false), lastEpoch, Answer(payloads, start, last, threshold)) == Session(r, 1, true)
  {
    ZerosSumToZero(8);
    var messages := Answer(payloads, start, last, threshold);
    assert messages[1..] == [];
  }

  /** A request for epoch 0 gets what a request for 1 gets, exactly when there is an epoch 1: where the
      last epoch is 0 it gets no answer at all. */
  lemma RequestForZeroIff(payloads: seq<Bytes>, last: nat, threshold: nat)
    ensures Answer(payloads, 0, last, threshold) == Answer(payloads, 1, last, threshold) <==> last >= 1
    ensures last == 0 ==> Answer(payloads, 0, last, threshold) == []
  {
  }
}
