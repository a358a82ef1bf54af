/** What the listener delivers and how it ends, for any stream of messages, told from the messages
    alone: a block is what arrived between its opening and its commit. */
module Streams {
  import opened Codec
  import opened Listening
  import opened Messages
  import opened ProtocolBlocks
  import opened Wrappers

  datatype Kind =
    | Empty
    | Malformed
    | Opens(epoch: U64)
    | Acts(action: Bytes)
    | Seals(epoch: U64, hash: Hash)
    | Commits(epoch: U64, invalidated: seq<Hash>)
    | Other

  /** A commit that does not parse counts as one for epoch 0 without hashes. */
  function KindOf(data: Bytes): Kind {
    if data == [] then Empty
    else if data[0] == MSG_NEW_BLOCK then
      match ParseNewBlockSocial(data)
      case None => Malformed
      case Some(epoch) => Opens(epoch)
    else if data[0] == MSG_ACTION then Acts(data[1..])
    else if data[0] == MSG_BLOCK_SEALED then
      match ParseSealBlockSocial(data)
      case None => Malformed
      case Some((epoch, hash)) => Seals(epoch, hash)
    else if data[0] == MSG_BLOCK_COMMITTED then
      match ParseCommitBlockSocial(data)
      case None => Commits(0, [])
      case Some((epoch, invalidated)) => Commits(epoch, invalidated)
    else Other
  }

  /** What has arrived since a block was last opened, None when it is not pending. */
  function Since(messages: seq<Bytes>, epoch: U64): Option<seq<Bytes>> {
    if messages == [] then None
    else
      var last := messages[|messages| - 1];
      if KindOf(last).Opens? && KindOf(last).epoch == epoch then Some([])
      else if KindOf(last).Commits? && KindOf(last).epoch == epoch then None
      else
        match Since(messages[..|messages| - 1], epoch)
        case None => None
        case Some(tail) => Some(tail + [last])
  }

  /** The block actions go to: the last one opened, until it is sealed. A commit does not end it. */
  function OpenEpoch(messages: seq<Bytes>): Option<U64> {
    if messages == [] then None
    else
      var before := OpenEpoch(messages[..|messages| - 1]);
      match KindOf(messages[|messages| - 1])
      case Opens(epoch) => Some(epoch)
      case Seals(epoch, _) => if before == Some(epoch) then None else before
      case _ => before
  }

  /** Ends the time in which actions go to the block. */
  predicate Ends(data: Bytes, epoch: U64) {
    KindOf(data).Opens? || (KindOf(data).Seals? && KindOf(data).epoch == epoch)
  }

  predicate StillOpen(tail: seq<Bytes>, epoch: U64) {
    forall i :: 0 <= i < |tail| ==> !Ends(tail[i], epoch)
  }

  /** The actions among the messages, up to the first that ends the block's time. */
  function ActionsIn(tail: seq<Bytes>, epoch: U64): seq<Bytes> {
    if tail == [] then []
    else
      var before, last := ActionsIn(tail[..|tail| - 1], epoch), tail[|tail| - 1];
      before + if StillOpen(tail, epoch) && KindOf(last).Acts? then [KindOf(last).action] else []
  }

  /** The hash of the last seal for the block. */
  function HashIn(tail: seq<Bytes>, epoch: U64): Hash {
    if tail == [] then Zeros(HASH_SIZE)
    else
      var last := tail[|tail| - 1];
      if KindOf(last).Seals? && KindOf(last).epoch == epoch then KindOf(last).hash else HashIn(tail[..|tail| - 1], epoch)
  }

  function BlockOf(tail: seq<Bytes>, epoch: U64): ProtocolBlock {
    Unsigned(epoch, ActionsIn(tail, epoch), [], HashIn(tail, epoch))
  }

  /** How the listener stands after one more message. */
  function StandsAfter(messages: seq<Bytes>, data: Bytes): Mode {
    match KindOf(data)
    case Empty => Crashed
    case Malformed => Stopped
    case Opens(_) => Running
    case Acts(_) => if OpenEpoch(messages).None? then Stopped else Running
    case Seals(epoch, _) =>
      if OpenEpoch(messages).None? then Crashed else if Since(messages, epoch).None? then Stopped else Running
    case Commits(epoch, _) => if Since(messages, epoch).None? then Stopped else Running
    case Other => Running
  }

  function Ending(messages: seq<Bytes>): Mode {
    if messages == [] then Running
    else
      var front := messages[..|messages| - 1];
      if Ending(front) != Running then Ending(front) else StandsAfter(front, messages[|messages| - 1])
  }

  /** The blocks whose commits arrived in time, in order. */
  function Deliveries(messages: seq<Bytes>): seq<ProtocolBlock> {
    if messages == [] then []
    else
      var front, kind := messages[..|messages| - 1], KindOf(messages[|messages| - 1]);
      if Ending(front) == Running && kind.Commits? && Since(front, kind.epoch).Some? then
        Deliveries(front) + [BlockOf(Since(front, kind.epoch).value, kind.epoch).(invalidated := kind.invalidated)]
      else Deliveries(front)
  }

  // ----- one message -----

  lemma SinceOne(messages: seq<Bytes>, data: Bytes, epoch: U64)
    ensures Since(messages + [data], epoch) ==
            if KindOf(data).Opens? && KindOf(data).epoch == epoch then Some([])
            else if KindOf(data).Commits? && KindOf(data).epoch == epoch then None
            else if Since(messages, epoch).None? then None
            else Some(Since(messages, epoch).value + [data])
  {
    assert (messages + [data])[..|messages|] == messages;
  }

  lemma OpenOne(messages: seq<Bytes>, data: Bytes)
    ensures OpenEpoch(messages + [data]) ==
            match KindOf(data)
            case Opens(epoch) => Some(epoch)
            case Seals(epoch, _) => if OpenEpoch(messages) == Some(epoch) then None else OpenEpoch(messages)
            case _ => OpenEpoch(messages)
  {
    assert (messages + [data])[..|messages|] == messages;
  }

  lemma StillOpenOne(tail: seq<Bytes>, data: Bytes, epoch: U64)
    ensures StillOpen(tail + [data], epoch) <==> StillOpen(tail, epoch) && !Ends(data, epoch)
  {
    assert (tail + [data])[|tail|] == data;
    assert forall i :: 0 <= i < |tail| ==> (tail + [data])[i] == tail[i];
  }

  lemma BlockOne(tail: seq<Bytes>, data: Bytes, epoch: U64)
    ensures var b := BlockOf(tail, epoch);
            BlockOf(tail + [data], epoch) ==
            if KindOf(data).Acts? && StillOpen(tail, epoch) then b.(actions := b.actions + [KindOf(data).action])
            else if KindOf(data).Seals? && KindOf(data).epoch == epoch then b.(hash := KindOf(data).hash)
            else b
  {
    assert (tail + [data])[..|tail|] == tail;
    StillOpenOne(tail, data, epoch);
    assert ActionsIn(tail, epoch) + [] == ActionsIn(tail, epoch);
  }

  /** A listener against the messages it has read. */
  ghost predicate PendingAt(l: Listener, messages: seq<Bytes>, epoch: U64) {
    match Since(messages, epoch)
    case None => epoch !in l.blocks && l.current != Attached(epoch)
    case Some(tail) =>
      && epoch in l.blocks && l.blocks[epoch] == BlockOf(tail, epoch)
      && (l.current == Attached(epoch) <==> StillOpen(tail, epoch))
  }

  ghost predicate HasRead(l: Listener, messages: seq<Bytes>) {
    && (forall epoch: U64 :: PendingAt(l, messages, epoch))
    && (if OpenEpoch(messages).None? then l.current == NoBlock
        else !l.current.NoBlock? && l.current.epoch == OpenEpoch(messages).value)
  }

  lemma OpensIsRead(l: Listener, messages: seq<Bytes>, data: Bytes)
    requires HasRead(l, messages) && WellFormed(l) && l.mode == Running && KindOf(data).Opens?
    ensures HasRead(Handle(l, data), messages + [data])
  {
    var m := Handle(l, data);
    OpenOne(messages, data);
    forall epoch: U64 ensures PendingAt(m, messages + [data], epoch) {
      assert PendingAt(l, messages, epoch);
      SinceOne(messages, data, epoch);
      if epoch != KindOf(data).epoch && Since(messages, epoch).Some? {
        BlockOne(Since(messages, epoch).value, data, epoch);
        StillOpenOne(Since(messages, epoch).value, data, epoch);
      }
    }
  }

  lemma ActsIsRead(l: Listener, messages: seq<Bytes>, data: Bytes)
    requires HasRead(l, messages) && WellFormed(l) && l.mode == Running && KindOf(data).Acts? && !l.current.NoBlock?
    ensures HasRead(Handle(l, data), messages + [data])
  {
    var m := Handle(l, data);
    OpenOne(messages, data);
    forall epoch: U64 ensures PendingAt(m, messages + [data], epoch) {
      assert PendingAt(l, messages, epoch);
      SinceOne(messages, data, epoch);
      if Since(messages, epoch).Some? {
        BlockOne(Since(messages, epoch).value, data, epoch);
        StillOpenOne(Since(messages, epoch).value, data, epoch);
      }
    }
  }

  lemma SealsIsRead(l: Listener, messages: seq<Bytes>, data: Bytes)
    requires HasRead(l, messages) && WellFormed(l) && l.mode == Running && KindOf(data).Seals?
    requires !l.current.NoBlock? && KindOf(data).epoch in l.blocks
    ensures HasRead(Handle(l, data), messages + [data])
  {
    var m := Handle(l, data);
    OpenOne(messages, data);
    forall epoch: U64 ensures PendingAt(m, messages + [data], epoch) {
      assert PendingAt(l, messages, epoch);
      SinceOne(messages, data, epoch);
      if Since(messages, epoch).Some? {
        BlockOne(Since(messages, epoch).value, data, epoch);
        StillOpenOne(Since(messages, epoch).value, data, epoch);
      }
    }
  }

  lemma CommitsIsRead(l: Listener, messages: seq<Bytes>, data: Bytes)
    requires HasRead(l, messages) && WellFormed(l) && l.mode == Running && KindOf(data).Commits?
    requires KindOf(data).epoch in l.blocks
    ensures HasRead(Handle(l, data), messages + [data])
  {
    var m := Handle(l, data);
    OpenOne(messages, data);
    forall epoch: U64 ensures PendingAt(m, messages + [data], epoch) {
      assert PendingAt(l, messages, epoch);
      SinceOne(messages, data, epoch);
      if Since(messages, epoch).Some? {
        BlockOne(Since(messages, epoch).value, data, epoch);
        StillOpenOne(Since(messages, epoch).value, data, epoch);
      }
    }
  }

  lemma OtherIsRead(l: Listener, messages: seq<Bytes>, data: Bytes)
    requires HasRead(l, messages) && WellFormed(l) && l.mode == Running && KindOf(data).Other?
    ensures Handle(l, data) == l && HasRead(l, messages + [data])
  {
    OpenOne(messages, data);
    forall epoch: U64 ensures PendingAt(l, messages + [data], epoch) {
      assert PendingAt(l, messages, epoch);
      SinceOne(messages, data, epoch);
      if Since(messages, epoch).Some? {
        BlockOne(Since(messages, epoch).value, data, epoch);
        StillOpenOne(Since(messages, epoch).value, data, epoch);
      }
    }
  }

  /** What one message does to a running listener. */
  lemma MessageIsRead(l: Listener, messages: seq<Bytes>, data: Bytes)
    requires HasRead(l, messages) && WellFormed(l) && l.mode == Running
    ensures var m, kind := Handle(l, data), KindOf(data);
            && m.mode == StandsAfter(messages, data)
            && (m.mode == Running ==> HasRead(m, messages + [data]))
            && m.sent == l.sent + if kind.Commits? && Since(messages, kind.epoch).Some?
                                    then [BlockOf(Since(messages, kind.epoch).value, kind.epoch).(invalidated := kind.invalidated)]
                                    else []
  {
    assert l.sent + [] == l.sent;
    match KindOf(data)
    case Opens(_) => OpensIsRead(l, messages, data);
    case Acts(_) =>
      if !l.current.NoBlock? {
        ActsIsRead(l, messages, data);
      }
    case Seals(epoch, _) =>
      assert PendingAt(l, messages, epoch);
      if !l.current.NoBlock? && epoch in l.blocks {
        SealsIsRead(l, messages, data);
      }
    case Commits(epoch, _) =>
      assert PendingAt(l, messages, epoch);
      if epoch in l.blocks {
        CommitsIsRead(l, messages, data);
      }
    case Other => OtherIsRead(l, messages, data);
    case _ =>
  }

  /** For any stream: how the listener stands, and everything it has delivered. */
  lemma {:induction false} ListenerIsExplained(messages: seq<Bytes>)
    ensures var l := Consume(LISTENING, messages);
            && l.mode == Ending(messages) && l.sent == Deliveries(messages)
            && (l.mode == Running ==> HasRead(l, messages))
  {
    if messages == [] {
      assert forall epoch: U64 :: PendingAt(LISTENING, [], epoch);
    } else {
      var front, data := messages[..|messages| - 1], messages[|messages| - 1];
      assert messages == front + [data];
      ListenerIsExplained(front);
      if Ending(front) == Running {
        MessageIsRead(Consume(LISTENING, front), front, data);
      }
    }
  }
}
