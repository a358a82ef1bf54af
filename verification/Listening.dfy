/** The message loop of `SocialProtocolBlockListener` (social/listener.go lines 53-117): the state
    it keeps between messages, what one message does to it, and the loop body itself. */
module Listening {
  import opened Codec
  import opened Messages
  import opened ProtocolBlocks
  import opened Wrappers

  /** Go's `current` pointer: nil, the block pending under that epoch, or a block that has been
      delivered while still current and is no longer pending. */
  datatype Current = NoBlock | Attached(epoch: U64) | Detached(epoch: U64)

  /** `Stopped` is the orderly end, a nil sent and the loop left; `Crashed` is a Go panic. */
  datatype Mode = Running | Stopped | Crashed

  datatype Listener = Listener(mode: Mode, current: Current, blocks: map<U64, ProtocolBlock>, sent: seq<ProtocolBlock>)

  ghost predicate WellFormed(l: Listener) {
    && (l.current.Attached? ==> l.current.epoch in l.blocks)
    && forall e :: e in l.blocks ==> l.blocks[e].epoch == e
  }

  const LISTENING := Listener(Running, NoBlock, map[], [])

  function Fresh(epoch: U64): ProtocolBlock {
    Unsigned(epoch, [], [], Zeros(HASH_SIZE))
  }

  function OnNewBlock(l: Listener, data: Bytes): Listener {
    match ParseNewBlockSocial(data)
    case None => l.(mode := Stopped)
    case Some(epoch) => l.(current := Attached(epoch), blocks := l.blocks[epoch := Fresh(epoch)])
  }

  function OnAction(l: Listener, action: Bytes): Listener
    requires l.current.Attached? ==> l.current.epoch in l.blocks
  {
    match l.current
    case NoBlock => l.(mode := Stopped)
    case Detached(_) => l
    case Attached(epoch) =>
      l.(blocks := l.blocks[epoch := l.blocks[epoch].(actions := l.blocks[epoch].actions + [action])])
  }

  /** The comparison with `current` comes before any nil check (line 91). */
  function OnSeal(l: Listener, data: Bytes): Listener {
    match ParseSealBlockSocial(data)
    case None => l.(mode := Stopped)
    case Some((epoch, hash)) =>
      if l.current.NoBlock? then l.(mode := Crashed)
      else
        var closed := if l.current.epoch == epoch then l.(current := NoBlock) else l;
        if epoch in l.blocks then closed.(blocks := l.blocks[epoch := l.blocks[epoch].(hash := hash)])
        else closed.(mode := Stopped)
  }

  /** A parse error is only logged: the loop goes on with epoch 0 and no hashes (lines 102-105). */
  function OnCommit(l: Listener, data: Bytes): Listener {
    var (epoch, invalidated) := ParseCommitBlockSocial(data).Get((0, []));
    if epoch !in l.blocks then l.(mode := Stopped)
    else
      l.(sent := l.sent + [l.blocks[epoch].(invalidated := invalidated)],
         blocks := l.blocks - {epoch},
         current := if l.current == Attached(epoch) then Detached(epoch) else l.current)
  }

  function Handle(l: Listener, data: Bytes): (after: Listener)
    requires WellFormed(l)
    ensures WellFormed(after)
  {
    if l.mode != Running then l
    else if data == [] then l.(mode := Crashed)
    else if data[0] == MSG_NEW_BLOCK then OnNewBlock(l, data)
    else if data[0] == MSG_ACTION then OnAction(l, data[1..])
    else if data[0] == MSG_BLOCK_SEALED then OnSeal(l, data)
    else if data[0] == MSG_BLOCK_COMMITTED then OnCommit(l, data)
    else l
  }

  function Consume(l: Listener, messages: seq<Bytes>): (after: Listener)
    requires WellFormed(l)
    ensures WellFormed(after)
  {
    if messages == [] then l
    else Handle(Consume(l, messages[..|messages| - 1]), messages[|messages| - 1])
  }

  /** What has been sent stays sent, and only a running listener was running before. */
  lemma {:induction false} ConsumeIsMonotone(l: Listener, first: seq<Bytes>, second: seq<Bytes>)
    requires WellFormed(l)
    ensures var short, long := Consume(l, first), Consume(l, first + second);
            && |short.sent| <= |long.sent| && long.sent[..|short.sent|] == short.sent
            && (short.mode != Running ==> long == short)
  {
    if second == [] {
      assert first + second == first;
    } else {
      var last := |second| - 1;
      assert (first + second)[..|first + second| - 1] == first + second[..last];
      ConsumeIsMonotone(l, first, second[..last]);
    }
  }

  class PendingBlock {
    const epoch: U64
    var actions: seq<Bytes>
    var invalidated: seq<Hash>
    var hash: Hash

    constructor (epoch: U64)
      ensures this.epoch == epoch && View() == Fresh(epoch)
    {
      this.epoch, actions, invalidated, hash := epoch, [], [], Zeros(HASH_SIZE);
    }

    ghost function View(): ProtocolBlock
      reads this
    {
      Unsigned(epoch, actions, invalidated, hash)
    }
  }

  /** The loop's variables. Blocks are shared between `current` and `blocks` by reference, as in the
      source; the channel receives a block as it is when it is sent. */
  class BlockListener {
    var mode: Mode
    var current: PendingBlock?
    var blocks: map<U64, PendingBlock>
    var sent: seq<ProtocolBlock>

    ghost predicate Valid()
      reads this
    {
      forall e :: e in blocks ==> blocks[e].epoch == e
    }

    ghost function CurrentView(): Current
      reads this
    {
      if current == null then NoBlock
      else if current.epoch in blocks && blocks[current.epoch] == current then Attached(current.epoch)
      else Detached(current.epoch)
    }

    ghost function View(): (l: Listener)
      requires Valid()
      reads this, blocks.Values
      ensures WellFormed(l)
    {
      Listener(mode, CurrentView(), map e | e in blocks :: blocks[e].View(), sent)
    }

    constructor ()
      ensures Valid() && View() == LISTENING
    {
      mode, current, blocks, sent := Running, null, map[], [];
    }

    method ReceiveNewBlock(data: Bytes)
      requires Valid()
      modifies this`mode, this`current, this`blocks
      ensures Valid() && fresh(blocks.Values - old(blocks.Values))
      ensures View() == OnNewBlock(old(View()), data)
    {
      match ParseNewBlockSocial(data)
      case None => mode := Stopped;
      case Some(epoch) =>
        current := new PendingBlock(epoch);
        blocks := blocks[epoch := current];
    }

    method ReceiveAction(action: Bytes)
      requires Valid()
      modifies this`mode, current
      ensures Valid()
      ensures View() == OnAction(old(View()), action)
    {
      if current == null {
        mode := Stopped;
      } else {
        current.actions := current.actions + [action];
      }
    }

    /** Line 95: the block is shared, so the pending map shows the hash. */
    method SetHash(epoch: U64, hash: Hash)
      requires Valid() && epoch in blocks
      modifies blocks[epoch]
      ensures Valid()
      ensures View() == old(View()).(blocks := old(View()).blocks[epoch := old(View()).blocks[epoch].(hash := hash)])
    {
      ghost var before := View().blocks;
      var block := blocks[epoch];
      assert forall e :: e in blocks && e != epoch ==> blocks[e] != block;
      block.hash := hash;
      assert View().blocks == before[epoch := before[epoch].(hash := hash)];
    }

    /** Lines 91-93. */
    method LetGo(epoch: U64)
      requires Valid() && current != null
      modifies this`current
      ensures Valid()
      ensures var l := old(View());
              View() == if l.current.epoch == epoch then l.(current := NoBlock) else l
    {
      if current.epoch == epoch {
        current := null;
      }
    }

    method ReceiveSeal(data: Bytes)
      requires Valid()
      modifies this`mode, this`current, blocks.Values
      ensures Valid()
      ensures View() == OnSeal(old(View()), data)
    {
      match ParseSealBlockSocial(data)
      case None => mode := Stopped;
      case Some((epoch, hash)) =>
        if current == null {
          mode := Crashed;
          return;
        }
        LetGo(epoch);
        if epoch in blocks {
          SetHash(epoch, hash);
        } else {
          mode := Stopped;
        }
    }

    /** Lines 107-109. */
    method Deliver(epoch: U64, invalidated: seq<Hash>)
      requires Valid() && epoch in blocks
      modifies this`sent, this`blocks, blocks[epoch]
      ensures Valid() && blocks == old(blocks) - {epoch}
      ensures var l := old(View());
              View() == l.(sent := l.sent + [l.blocks[epoch].(invalidated := invalidated)],
                           blocks := l.blocks - {epoch},
                           current := if l.current == Attached(epoch) then Detached(epoch) else l.current)
    {
      ghost var before := View().blocks;
      var block := blocks[epoch];
      assert forall e :: e in blocks && e != epoch ==> blocks[e] != block;
      block.invalidated := invalidated;
      sent := sent + [Unsigned(block.epoch, block.actions, block.invalidated, block.hash)];
      blocks := blocks - {epoch};
      assert View().blocks == before - {epoch};
    }

    method ReceiveCommit(data: Bytes)
      requires Valid()
      modifies this, blocks.Values
      ensures Valid() && blocks.Values <= old(blocks.Values)
      ensures View() == OnCommit(old(View()), data)
    {
      var (epoch, invalidated) := ParseCommitBlockSocial(data).Get((0, []));
      if epoch in blocks {
        Deliver(epoch, invalidated);
      } else {
        mode := Stopped;
      }
    }

    method HandleMessage(data: Bytes)
      requires Valid()
      modifies this, current, blocks.Values
      ensures Valid() && fresh(blocks.Values - old(blocks.Values))
      ensures View() == Handle(old(View()), data)
    {
      if mode != Running {
        return;
      }
      if |data| == 0 {
        mode := Crashed;
      } else if data[0] == MSG_NEW_BLOCK {
        ReceiveNewBlock(data);
      } else if data[0] == MSG_ACTION {
        ReceiveAction(data[1..]);
      } else if data[0] == MSG_BLOCK_SEALED {
        ReceiveSeal(data);
      } else if data[0] == MSG_BLOCK_COMMITTED {
        ReceiveCommit(data);
      }
    }
  }
}
