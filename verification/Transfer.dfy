/** topos/blockstore.go: the batching loop of `TransmitBlocks` and the epoch filter of
    `ReceiveBlocks`. The request in between is an input here: `ReceiveBlocks` as written never
    sends it. */
module Transfer {
  import opened BlockLog
  import opened Codec
  import opened Connections
  import opened ProtocolBlocks
  import opened Wrappers

  /** `buffersize` is written `1 >> 24`, which is 0: every non-empty block is a batch. The results
      below hold for any threshold. */
  const BUFFER_SIZE := 0

  function Concat(parts: seq<Bytes>): Bytes {
    if parts == [] then [] else parts[0] + Concat(parts[1..])
  }

  /** The buffers sent for these blocks, starting from a buffer that already holds something. */
  function Batches(blocks: seq<Bytes>, buffer: Bytes, threshold: nat): seq<Bytes> {
    if blocks == [] then []
    else
      var filled := buffer + blocks[0];
      if |filled| > threshold || |blocks| == 1 then [filled] + Batches(blocks[1..], [], threshold)
      else Batches(blocks[1..], filled, threshold)
  }

  /** Nothing is lost, reordered or left over, whatever the threshold; all batches but the last are
      above it. */
  lemma {:induction false} BatchesAreTheBlocks(blocks: seq<Bytes>, buffer: Bytes, threshold: nat)
    requires blocks != []
    ensures Concat(Batches(blocks, buffer, threshold)) == buffer + Concat(blocks)
    ensures var batches := Batches(blocks, buffer, threshold);
            batches != [] && forall i :: 0 <= i < |batches| - 1 ==> |batches[i]| > threshold
  {
    var filled := buffer + blocks[0];
    Associates(buffer, blocks[0], Concat(blocks[1..]));
    if |blocks| == 1 {
      assert Batches(blocks, buffer, threshold) == [filled];
      assert Concat([filled]) == filled + Concat([filled][1..]);
    } else if |filled| > threshold {
      BatchesAreTheBlocks(blocks[1..], [], threshold);
      var rest := Batches(blocks[1..], [], threshold);
      assert ([filled] + rest)[1..] == rest;
    } else {
      BatchesAreTheBlocks(blocks[1..], filled, threshold);
    }
  }

  /** `GetBlock` of an epoch, nil read as no bytes. */
  function BlockAt(payloads: seq<Bytes>, epoch: nat): Bytes {
    if epoch < |payloads| then payloads[epoch] else []
  }

  function Requested(payloads: seq<Bytes>, start: nat, last: nat): (blocks: seq<Bytes>)
    ensures |blocks| == if start > last then 0 else last + 1 - start
    ensures forall i :: 0 <= i < |blocks| ==> blocks[i] == BlockAt(payloads, start + i)
  {
    if start > last then [] else seq(last + 1 - start, (i: nat) => BlockAt(payloads, start + i))
  }

  /** Everything `TransmitBlocks` tries to send after the peer's request. */
  function Answer(payloads: seq<Bytes>, start: nat, last: nat, threshold: nat): seq<Bytes> {
    if start > last then [Zeros(8)]
    else Batches(Requested(payloads, if start == 0 then 1 else start, last), [], threshold)
  }

  /** The buffers sent from an epoch on, as the loop produces them. */
  function Plan(payloads: seq<Bytes>, epoch: nat, last: nat, buffer: Bytes, threshold: nat): seq<Bytes>
    decreases last + 1 - epoch
  {
    if epoch > last then []
    else
      var filled := buffer + BlockAt(payloads, epoch);
      if |filled| > threshold || epoch == last then [filled] + Plan(payloads, epoch + 1, last, [], threshold)
      else Plan(payloads, epoch + 1, last, filled, threshold)
  }

  lemma {:induction false} PlanIsBatches(payloads: seq<Bytes>, epoch: nat, last: nat, buffer: Bytes, threshold: nat)
    ensures Plan(payloads, epoch, last, buffer, threshold) == Batches(Requested(payloads, epoch, last), buffer, threshold)
    decreases last + 1 - epoch
  {
    if epoch <= last {
      var filled := buffer + BlockAt(payloads, epoch);
      assert Requested(payloads, epoch, last)[1..] == Requested(payloads, epoch + 1, last);
      PlanIsBatches(payloads, epoch + 1, last, if |filled| > threshold || epoch == last then [] else filled, threshold);
    }
  }

  /** The rest of the plan after one block, sent with what the buffer holds or kept in it. */
  lemma PlanOne(payloads: seq<Bytes>, epoch: nat, last: nat, filled: Bytes, buffer: Bytes, threshold: nat)
    requires epoch <= last && filled == buffer + BlockAt(payloads, epoch)
    ensures Plan(payloads, epoch, last, buffer, threshold) ==
            if |filled| > threshold || epoch == last then [filled] + Plan(payloads, epoch + 1, last, [], threshold)
            else Plan(payloads, epoch + 1, last, filled, threshold)
  {
  }

  method SendBatches(conn: Connection, store: BlockStore, start: nat, last: nat, threshold: nat)
    requires store.Readable()
    modifies conn
    ensures var plan := Batches(Requested(Payloads(store.files), start, last), [], threshold);
            conn.sent == old(conn.sent) + Arriving(plan, old(conn.budget))
  {
    ghost var payloads := Payloads(store.files);
    ghost var plan, got := Plan(payloads, start, last, [], threshold), [];
    ghost var todo := plan;
    PlanIsBatches(payloads, start, last, [], threshold);
    var buffer: Bytes := [];
    var epoch := start;
    while epoch <= last
      invariant start <= epoch && got + todo == plan && todo == Plan(payloads, epoch, last, buffer, threshold)
      invariant conn.sent == old(conn.sent) + got && |got| + conn.budget == old(conn.budget)
      decreases last + 1 - epoch
    {
      var block := store.GetBlock(epoch);
      ghost var before := buffer;
      buffer := buffer + block.Get([]);
      PlanOne(payloads, epoch, last, buffer, before, threshold);
      if |buffer| > threshold || epoch == last {
        ghost var rest := Plan(payloads, epoch + 1, last, [], threshold);
        var ok := SendNext(conn, buffer, old(conn.sent), old(conn.budget), plan, got, rest);
        if !ok {
          return;
        }
        got, todo := got + [buffer], rest;
        buffer := [];
      }
      epoch := epoch + 1;
    }
    StoppedAt(got, [], plan);
  }

  function Empties(n: nat): seq<Bytes> {
    seq(n, _ => [])
  }

  /** With the last epoch at 2^64 - 1 the loop counter wraps and the loop condition always holds: a
      store without blocks sends one empty buffer a round, until a send fails. */
  method SendForever(conn: Connection, store: BlockStore, start: U64, threshold: nat)
    requires store.Readable() && Payloads(store.files) == []
    modifies conn
    ensures conn.sent == old(conn.sent) + Empties(old(conn.budget)) && conn.budget == 0
  {
    var buffer: Bytes, epoch: U64 := [], start;
    ghost var n := 0;
    while true
      invariant buffer == [] && n + conn.budget == old(conn.budget)
      invariant conn.sent == old(conn.sent) + Empties(n)
      decreases conn.budget, TWO_64 - epoch
    {
      var block := store.GetBlock(epoch);
      buffer := buffer + block.Get([]);
      if |buffer| > threshold || epoch == TWO_64 - 1 {
        var ok := conn.Send(buffer);
        if !ok {
          return;
        }
        n := n + 1;
        buffer := [];
        assert Empties(n) == Empties(n - 1) + [[]];
      }
      epoch := Next(epoch);
    }
  }

  /** Everything `TransmitBlocks` tries to send after its greeting. Only a store that was opened
      without a block has the `Epoch` 2^64 - 1. */
  function Reply(payloads: seq<Bytes>, request: Option<Bytes>, last: U64, threshold: nat, budget: nat): seq<Bytes> {
    if request.None? then []
    else if last == TWO_64 - 1 then Empties(budget)
    else Answer(payloads, ParseUint(request.value, 0, 8), last, threshold)
  }

  method TransmitBlocks(conn: Connection, store: BlockStore, request: Option<Bytes>, threshold: nat)
    requires store.Readable() && (store.epoch == TWO_64 - 1 ==> Payloads(store.files) == [])
    modifies conn
    ensures var reply := Reply(Payloads(store.files), request, store.epoch, threshold, old(conn.budget));
            conn.sent == old(conn.sent) + Arriving([PutUint(store.epoch, 8)] + reply, old(conn.budget))
  {
    var last := store.epoch;
    ghost var head := [PutUint(last, 8)];
    ghost var reply := Reply(Payloads(store.files), request, last, threshold, conn.budget);
    var ok := conn.Send(PutUint(last, 8));
    if !ok || request.None? {
      return;
    }
    var start := ParseUint(request.value, 0, 8);
    ghost var left := conn.budget;
    RequestIsU64(request.value);
    if start > last {
      ok := conn.Send(Zeros(8));
    } else if last == TWO_64 - 1 {
      SendForever(conn, store, if start == 0 then 1 else start, threshold);
      assert Arriving(Empties(left + 1), left) == Empties(left);
    } else {
      SendBatches(conn, store, if start == 0 then 1 else start, last, threshold);
    }
    ArrivingAfter(old(conn.sent), head, reply, left);
  }

  lemma RequestIsU64(request: Bytes)
    ensures ParseUint(request, 0, 8) < TWO_64
  {
    if |request| >= 8 {
      WidthBounds();
      PutOfValue(request[0..8]);
    }
  }

  lemma ArrivingAfter(before: seq<Bytes>, head: seq<Bytes>, answer: seq<Bytes>, left: nat)
    ensures before + head + Arriving(answer, left) == before + Arriving(head + answer, |head| + left)
  {
  }

  // ----- the receiving side -----

  datatype Receiver = Receiver(epoch: nat, output: seq<ProtocolBlock>)

  function TakeBlock(r: Receiver, lastEpoch: nat, block: ProtocolBlock): Receiver {
    if r.epoch != block.epoch then r
    else Receiver(if r.epoch < lastEpoch then r.epoch + 1 else r.epoch, r.output + [block])
  }

  function TakeAll(r: Receiver, lastEpoch: nat, blocks: seq<ProtocolBlock>): Receiver
    decreases |blocks|
  {
    if blocks == [] then r else TakeAll(TakeBlock(r, lastEpoch, blocks[0]), lastEpoch, blocks[1..])
  }

  /** The i-th block passed on has epoch start + i, or the last epoch once that is reached. */
  ghost predicate InSequence(r: Receiver, start: nat, lastEpoch: nat) {
    && (forall i :: 0 <= i < |r.output| ==> r.output[i].epoch == Min(start + i, lastEpoch))
    && r.epoch == Min(start + |r.output|, lastEpoch)
  }

  /** Consecutive from the requested epoch, no skips, repeats only at the end: for any stream. */
  lemma {:induction false} OutputIsInSequence(r: Receiver, start: nat, lastEpoch: nat, blocks: seq<ProtocolBlock>)
    requires start <= lastEpoch && InSequence(r, start, lastEpoch)
    ensures InSequence(TakeAll(r, lastEpoch, blocks), start, lastEpoch)
    decreases |blocks|
  {
    if blocks != [] {
      OutputIsInSequence(TakeBlock(r, lastEpoch, blocks[0]), start, lastEpoch, blocks[1..]);
    }
  }

  lemma {:induction false} TakeAllAppend(r: Receiver, lastEpoch: nat, first: seq<ProtocolBlock>, second: seq<ProtocolBlock>)
    ensures TakeAll(r, lastEpoch, first + second) == TakeAll(TakeAll(r, lastEpoch, first), lastEpoch, second)
    decreases |first|
  {
    if first == [] {
      assert first + second == second;
    } else {
      assert (first + second)[1..] == first[1..] + second;
      TakeAllAppend(TakeBlock(r, lastEpoch, first[0]), lastEpoch, first[1..], second);
    }
  }

  /** The 8-byte end signal: the byte sum is taken modulo 256. */
  function Checksum(data: Bytes): nat {
    if data == [] then 0 else (data[0] + Checksum(data[1..])) % 256
  }

  datatype Session = Session(receiver: Receiver, nils: nat, closed: bool)

  /** One message. A message under 8 bytes yields a nil and is still parsed (lines 184-188). */
  function OnMessage(parse: Bytes -> Option<seq<ProtocolBlock>>, s: Session, lastEpoch: nat, data: Bytes): Session {
    if s.closed then s
    else
      var t := if |data| < 8 then s.(nils := s.nils + 1) else s;
      if |data| == 8 && Checksum(data) == 0 then t.(nils := t.nils + 1, closed := true)
      else
        match parse(data)
        case None => t.(nils := t.nils + 1, closed := true)
        case Some(blocks) => t.(receiver := TakeAll(t.receiver, lastEpoch, blocks))
  }

  function OnMessages(parse: Bytes -> Option<seq<ProtocolBlock>>, s: Session, lastEpoch: nat, messages: seq<Bytes>): Session
    decreases |messages|
  {
    if messages == [] then s
    else OnMessages(parse, OnMessage(parse, s, lastEpoch, messages[0]), lastEpoch, messages[1..])
  }

  lemma {:induction false} ClosedStays(parse: Bytes -> Option<seq<ProtocolBlock>>, s: Session, lastEpoch: nat, messages: seq<Bytes>)
    requires s.closed
    ensures OnMessages(parse, s, lastEpoch, messages) == s
    decreases |messages|
  {
    if messages != [] {
      ClosedStays(parse, s, lastEpoch, messages[1..]);
    }
  }

  /** Whatever the peer sends and however it parses, what is passed on is in sequence. */
  lemma {:induction false} StreamIsInSequence(
      parse: Bytes -> Option<seq<ProtocolBlock>>, s: Session, start: nat, lastEpoch: nat, messages: seq<Bytes>)
    requires start <= lastEpoch && InSequence(s.receiver, start, lastEpoch)
    ensures InSequence(OnMessages(parse, s, lastEpoch, messages).receiver, start, lastEpoch)
    decreases |messages|
  {
    if messages != [] {
      if parse(messages[0]).Some? {
        OutputIsInSequence(s.receiver, start, lastEpoch, parse(messages[0]).value);
      }
      StreamIsInSequence(parse, OnMessage(parse, s, lastEpoch, messages[0]), start, lastEpoch, messages[1..]);
    }
  }

  method TakeBlocks(next: nat, lastEpoch: nat, blocks: seq<ProtocolBlock>, before: seq<ProtocolBlock>)
      returns (epoch: nat, output: seq<ProtocolBlock>)
    ensures Receiver(epoch, output) == TakeAll(Receiver(next, before), lastEpoch, blocks)
  {
    epoch, output := next, before;
    for j := 0 to |blocks|
      invariant 0 <= epoch
      invariant TakeAll(Receiver(epoch, output), lastEpoch, blocks[j..]) == TakeAll(Receiver(next, before), lastEpoch, blocks)
    {
      var block := blocks[j];
      assert blocks[j..][1..] == blocks[j + 1..];
      if epoch == block.epoch {
        output := output + [block];
        if epoch < lastEpoch {
          epoch := epoch + 1;
        }
      }
    }
  }

  /** The read loop, up to the read error that ends the stream. */
  method ReceiveLoop(parse: Bytes -> Option<seq<ProtocolBlock>>, epoch: nat, lastEpoch: nat, messages: seq<Bytes>)
      returns (output: seq<ProtocolBlock>, nils: nat)
    requires epoch <= lastEpoch
    ensures var s := OnMessages(parse, Session(Receiver(epoch, []), 0, false), lastEpoch, messages);
            output == s.receiver.output && nils == if s.closed then s.nils else s.nils + 1
  {
    ghost var end := OnMessages(parse, Session(Receiver(epoch, []), 0, false), lastEpoch, messages);
    var next: nat := epoch;
    output, nils := [], 0;
    for k := 0 to |messages|
      invariant OnMessages(parse, Session(Receiver(next, output), nils, false), lastEpoch, messages[k..]) == end
    {
      var data := messages[k];
      ghost var after := OnMessage(parse, Session(Receiver(next, output), nils, false), lastEpoch, data);
      assert messages[k..][1..] == messages[k + 1..];
      if |data| < 8 {
        nils := nils + 1;
      }
      var parsed := parse(data);
      if (|data| == 8 && Checksum(data) == 0) || parsed.None? {
        nils := nils + 1;
        ClosedStays(parse, after, lastEpoch, messages[k + 1..]);
        return;
      }
      next, output := TakeBlocks(next, lastEpoch, parsed.value, output);
    }
    nils := nils + 1;
  }

  /** `ReceiveBlocks` after the dial: `greeting` is the transmitter's first message, None when it
      cannot be read. Epoch 0 is refused, and a peer that has nothing new yields only a nil. */
  method ReceiveBlocks(parse: Bytes -> Option<seq<ProtocolBlock>>, epoch: nat, greeting: Option<Bytes>, messages: seq<Bytes>)
      returns (result: Option<(seq<ProtocolBlock>, nat, nat)>)
    ensures result.None? <==> epoch == 0 || greeting.None?
    ensures result.Some? ==>
              var (output, nils, lastEpoch) := result.value;
              var s := OnMessages(parse, Session(Receiver(epoch, []), 0, false), lastEpoch, messages);
              && lastEpoch == ParseUint(greeting.value, 0, 8)
              && (if lastEpoch < epoch then output == [] && nils == 1
                  else output == s.receiver.output && nils == if s.closed then s.nils else s.nils + 1)
              && forall i :: 0 <= i < |output| ==> output[i].epoch == Min(epoch + i, lastEpoch)
  {
    if epoch == 0 || greeting.None? {
      return None;
    }
    var lastEpoch := ParseUint(greeting.value, 0, 8);
    if lastEpoch < epoch {
      return Some(([], 1, lastEpoch));
    }
    StreamIsInSequence(parse, Session(Receiver(epoch, []), 0, false), epoch, lastEpoch, messages);
    var output, nils := ReceiveLoop(parse, epoch, lastEpoch, messages);
    result := Some((output, nils, lastEpoch));
  }
}
