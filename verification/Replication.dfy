/** Chain, FIFO queue and listener together: what the listener has delivered is a prefix of what
    the chain has committed, at every reachable state of every schedule. */
module Replication {
  import opened ChainInvariant
  import opened Codec
  import opened Listening
  import opened Messages
  import opened ProtocolBlocks
  import opened SocialChain
  import opened Wrappers
  import Node

  function TransformAll(rules: Rules, actions: seq<Bytes>): (out: seq<Bytes>)
    ensures |out| == |actions|
  {
    seq(|actions|, i requires 0 <= i < |actions| => Transformed(rules, actions[i]))
  }

  /** A delivered block against the chain's record of it: the listener sees actions as submitted,
      the chain keeps them transformed, and the wire carries at most 65535 invalidated hashes. */
  ghost predicate Mirrors(rules: Rules, delivered: ProtocolBlock, committed: ProtocolBlock) {
    && delivered.epoch == committed.epoch
    && committed.actions == TransformAll(rules, delivered.actions)
    && delivered.hash == committed.hash
    && delivered.publisher == committed.publisher && delivered.signature == committed.signature
    && delivered.invalidated == Clip(committed.invalidated)
  }

  /** Without a transform the copy is exact precisely when the invalidated list fits its count. */
  lemma MirrorsExactlyIff(rules: Rules, delivered: ProtocolBlock, committed: ProtocolBlock)
    requires rules.transform == None && Mirrors(rules, delivered, committed)
    ensures delivered == committed <==> |committed.invalidated| <= MAX_COUNT
  {
    assert TransformAll(rules, delivered.actions) == delivered.actions;
  }

  ghost predicate MirrorsAll(rules: Rules, delivered: seq<ProtocolBlock>, committed: seq<ProtocolBlock>) {
    && |delivered| <= |committed|
    && forall i :: 0 <= i < |delivered| ==> Mirrors(rules, delivered[i], committed[i])
  }

  /** A pending block on the listener's side against the block on the chain's side. */
  ghost predicate Copies(rules: Rules, pending: ProtocolBlock, block: Block) {
    && pending.epoch == block.epoch
    && pending.publisher == Zeros(TOKEN_SIZE) && pending.signature == Zeros(SIGNATURE_SIZE)
    && block.actions == TransformAll(rules, pending.actions)
    && (block.status >= STATUS_SEALED ==> pending.hash == rules.hashList(block.actions))
  }

  /** Every block the chain holds, the live one last. */
  function Held(c: Chain): seq<Block> {
    c.recent + if c.live.Some? then [c.live.value] else []
  }

  /** The newest block has not been sealed: it is live, or only retired by a first seal. */
  predicate NewestOpen(c: Chain) {
    var held := Held(c);
    held != [] && held[|held| - 1].epoch == c.epoch && held[|held| - 1].status < STATUS_SEALED
  }

  /** The listener's pending map against the held blocks: it has exactly the uncommitted ones. */
  ghost predicate Tracks(rules: Rules, held: seq<Block>, blocks: map<U64, ProtocolBlock>) {
    && (forall i :: 0 <= i < |held| && held[i].status != STATUS_COMMIT ==>
          held[i].epoch in blocks && Copies(rules, blocks[held[i].epoch], held[i]))
    && (forall e :: e in blocks ==> exists i :: 0 <= i < |held| && held[i].epoch == e && held[i].status != STATUS_COMMIT)
  }

  /** The coupling of the chain with a listener that has consumed every message sent so far. */
  ghost predicate Coupled(rules: Rules, s: Node.State, l: Listener) {
    && Inv(s.chain) && l.mode == Running
    && |l.sent| == |s.committed| && MirrorsAll(rules, l.sent, s.committed)
    && Tracks(rules, Held(s.chain), l.blocks)
    && l.current == (if NewestOpen(s.chain) then Attached(s.chain.epoch) else NoBlock)
  }

  lemma HeldIncreases(c: Chain)
    requires Inv(c)
    ensures Increasing(Held(c))
    ensures forall i :: 0 <= i < |Held(c)| ==> Held(c)[i].epoch <= c.epoch
  {
  }

  lemma TracksAppend(rules: Rules, held: seq<Block>, blocks: map<U64, ProtocolBlock>, b: Block)
    requires Tracks(rules, held, blocks)
    requires forall i :: 0 <= i < |held| ==> held[i].epoch != b.epoch
    requires b.status == STATUS_LIVE && b.actions == []
    ensures Tracks(rules, held + [b], blocks[b.epoch := Fresh(b.epoch)])
  {
    var after, more := held + [b], blocks[b.epoch := Fresh(b.epoch)];
    forall e | e in more
      ensures exists i :: 0 <= i < |after| && after[i].epoch == e && after[i].status != STATUS_COMMIT
    {
      if e == b.epoch {
        assert after[|held|] == b;
      } else {
        var i :| 0 <= i < |held| && held[i].epoch == e && held[i].status != STATUS_COMMIT;
        assert after[i] == held[i];
      }
    }
  }

  lemma TracksUpdate(rules: Rules, held: seq<Block>, blocks: map<U64, ProtocolBlock>, n: nat, b: Block, p: ProtocolBlock)
    requires Tracks(rules, held, blocks) && Increasing(held) && n < |held|
    requires b.epoch == held[n].epoch && b.status != STATUS_COMMIT && Copies(rules, p, b)
    ensures Tracks(rules, held[n := b], blocks[b.epoch := p])
  {
    var after, changed := held[n := b], blocks[b.epoch := p];
    forall e | e in changed
      ensures exists i :: 0 <= i < |after| && after[i].epoch == e && after[i].status != STATUS_COMMIT
    {
      if e == b.epoch {
        assert after[n] == b;
      } else {
        var i :| 0 <= i < |held| && held[i].epoch == e && held[i].status != STATUS_COMMIT;
        assert after[i] == held[i];
      }
    }
  }

  lemma TracksCommit(rules: Rules, held: seq<Block>, blocks: map<U64, ProtocolBlock>, n: nat, b: Block)
    requires Tracks(rules, held, blocks) && Increasing(held) && n < |held|
    requires b.epoch == held[n].epoch && b.status == STATUS_COMMIT
    ensures Tracks(rules, held[n := b], blocks - {b.epoch})
  {
    var after := held[n := b];
    forall e | e in blocks - {b.epoch}
      ensures exists i :: 0 <= i < |after| && after[i].epoch == e && after[i].status != STATUS_COMMIT
    {
      var i :| 0 <= i < |held| && held[i].epoch == e && held[i].status != STATUS_COMMIT;
      assert after[i] == held[i];
    }
  }

  /** Closing the live block changes nothing the listener tracks. */
  lemma ClosingKeepsTracks(rules: Rules, c: Chain, blocks: map<U64, ProtocolBlock>)
    requires Inv(c) && Tracks(rules, Held(c), blocks)
    ensures var closed := if c.live.None? then [] else [c.live.value.(status := STATUS_DONE, mutations := c.pending)];
            Tracks(rules, c.recent + closed, blocks)
  {
    HeldIncreases(c);
    if c.live.Some? {
      var n := |c.recent|;
      var b := Held(c)[n].(status := STATUS_DONE, mutations := c.pending);
      TracksUpdate(rules, Held(c), blocks, n, b, blocks[b.epoch]);
      assert blocks[b.epoch := blocks[b.epoch]] == blocks;
      assert Held(c)[n := b] == c.recent + [b];
    }
  }

  lemma OpenCouples(rules: Rules, s: Node.State, l: Listener, epoch: U64)
    requires Coupled(rules, s, l) && WellFormed(l) && s.chain.epoch < TWO_64 - 1 && epoch == s.chain.epoch + 1
    ensures Coupled(rules, Node.Open(s, epoch), Handle(l, NewBlockSocial(epoch)))
  {
    NewBlockRoundTrip(epoch);
    OpenKeepsInvariantIff(s.chain, epoch);
    ClosingKeepsTracks(rules, s.chain, l.blocks);
    var chain := Node.Open(s, epoch).chain;
    TracksAppend(rules, chain.recent, l.blocks, chain.live.value);
  }

  lemma SubmitCouples(rules: Rules, s: Node.State, l: Listener, action: Bytes)
    requires Coupled(rules, s, l) && WellFormed(l) && Validate(rules, s.chain, action).1
    ensures Coupled(rules, Node.Submit(rules, s, action), Handle(l, ActionSocial(action)))
  {
    var c, d := s.chain, Validate(rules, s.chain, action).0;
    ValidateKeepsInvariant(rules, c, action);
    HeldIncreases(c);
    var n := |c.recent|;
    var pending := l.blocks[c.epoch].(actions := l.blocks[c.epoch].actions + [action]);
    assert Copies(rules, l.blocks[c.epoch], Held(c)[n]);
    assert TransformAll(rules, pending.actions) == TransformAll(rules, l.blocks[c.epoch].actions) + [Transformed(rules, action)];
    TracksUpdate(rules, Held(c), l.blocks, n, d.live.value, pending);
    assert Held(c)[n := d.live.value] == Held(d);
    assert ActionSocial(action)[1..] == action;
  }

  /** A successful seal marks one held block; it closes the newest exactly when it names it. */
  lemma SealHeld(rules: Rules, c: Chain, epoch: U64, origin: Hash)
    requires Inv(c) && SealBlock(rules, c, epoch, origin).result.Ok?
    ensures var d := SealBlock(rules, c, epoch, origin).chain;
            var n := IndexOf(c.recent, epoch);
            && Held(c)[n] == c.recent[n] && Held(c)[n].status < STATUS_SEALED
            && Held(d) == Held(c)[n := c.recent[n].(status := STATUS_SEALED, origin := origin)]
            && (NewestOpen(d) <==> NewestOpen(c) && epoch != c.epoch)
  {
    HeldIncreases(c);
  }

  /** A successful commit takes a sealed block, so never the newest while it is open. */
  lemma CommitHeld(rules: Rules, c: Chain, epoch: U64, invalidated: seq<Hash>)
    requires Inv(c) && Commit(rules, c, epoch, invalidated).result.Ok?
    ensures var d := Commit(rules, c, epoch, invalidated).chain;
            var n := CommitTarget(c.recent, epoch).value;
            && Held(c)[n] == c.recent[n] && Held(c)[n].epoch == epoch && Held(c)[n].status == STATUS_SEALED
            && Held(d) == Held(c)[n := d.recent[n]]
            && d.recent[n].epoch == epoch && d.recent[n].status == STATUS_COMMIT && d.recent[n].actions == Held(c)[n].actions
            && d.recent[n].invalidated == Commit(rules, c, epoch, invalidated).result.value
            && (NewestOpen(d) <==> NewestOpen(c)) && (NewestOpen(c) ==> epoch != c.epoch)
  {
    HeldIncreases(c);
  }

  lemma SealHandled(l: Listener, epoch: U64, hash: Hash)
    requires WellFormed(l) && l.mode == Running && l.current.Attached? && epoch in l.blocks
    ensures Handle(l, SealBlockSocial(epoch, hash)) ==
            l.(current := if l.current.epoch == epoch then NoBlock else l.current,
               blocks := l.blocks[epoch := l.blocks[epoch].(hash := hash)])
  {
    SealRoundTrip(epoch, hash);
  }

  lemma CommitHandled(l: Listener, epoch: U64, invalidated: seq<Hash>)
    requires WellFormed(l) && l.mode == Running && epoch in l.blocks && l.current != Attached(epoch)
    ensures Handle(l, CommitBlockSocial(epoch, invalidated)) ==
            l.(sent := l.sent + [l.blocks[epoch].(invalidated := Clip(invalidated))], blocks := l.blocks - {epoch})
  {
    CommitRoundTrip(epoch, invalidated);
  }

  /** The pending map under a sealed block: its copy gets the hash. */
  lemma TracksSeal(rules: Rules, held: seq<Block>, blocks: map<U64, ProtocolBlock>, n: nat, origin: Hash)
    requires Tracks(rules, held, blocks) && Increasing(held) && n < |held| && held[n].status < STATUS_SEALED
    ensures var b := held[n].(status := STATUS_SEALED, origin := origin);
            b.epoch in blocks &&
            Tracks(rules, held[n := b], blocks[b.epoch := blocks[b.epoch].(hash := rules.hashList(b.actions))])
  {
    var b := held[n].(status := STATUS_SEALED, origin := origin);
    assert Copies(rules, blocks[b.epoch], held[n]);
    TracksUpdate(rules, held, blocks, n, b, blocks[b.epoch].(hash := rules.hashList(b.actions)));
  }

  /** A listener that has taken the seal, beside the sealed chain. */
  lemma SealedCouple(rules: Rules, s: Node.State, d: Chain, forward: seq<Bytes>, l: Listener, epoch: U64, hash: Hash)
    requires Coupled(rules, s, l) && NewestOpen(s.chain) && epoch in l.blocks
    requires Inv(d) && d.epoch == s.chain.epoch && (NewestOpen(d) <==> epoch != s.chain.epoch)
    requires Tracks(rules, Held(d), l.blocks[epoch := l.blocks[epoch].(hash := hash)])
    ensures Coupled(rules, s.(chain := d, forward := forward),
                    l.(current := if l.current.epoch == epoch then NoBlock else l.current,
                       blocks := l.blocks[epoch := l.blocks[epoch].(hash := hash)]))
  {
  }

  /** A seal that succeeds while the newest block is open reaches the listener as intended. */
  lemma SealCouples(rules: Rules, s: Node.State, l: Listener, epoch: U64, origin: Hash)
    requires Coupled(rules, s, l) && WellFormed(l) && NewestOpen(s.chain)
    requires SealBlock(rules, s.chain, epoch, origin).result.Ok?
    ensures var hash := SealBlock(rules, s.chain, epoch, origin).result.value;
            Coupled(rules, Node.Seal(rules, s, epoch, origin), Handle(l, SealBlockSocial(epoch, hash)))
  {
    var c, reply := s.chain, SealBlock(rules, s.chain, epoch, origin);
    SealKeepsInvariant(rules, c, epoch, origin);
    SealHeld(rules, c, epoch, origin);
    HeldIncreases(c);
    TracksSeal(rules, Held(c), l.blocks, IndexOf(c.recent, epoch), origin);
    SealHandled(l, epoch, reply.result.value);
    SealedCouple(rules, s, reply.chain, Node.Seal(rules, s, epoch, origin).forward, l, epoch, reply.result.value);
  }

  /** A seal that succeeds when the newest block is sealed already is one for an older block, and
      finds no current block at the listener. */
  lemma LateSealCrashes(rules: Rules, s: Node.State, l: Listener, epoch: U64, hash: Hash)
    requires Coupled(rules, s, l) && WellFormed(l) && !NewestOpen(s.chain)
    ensures Handle(l, SealBlockSocial(epoch, hash)).mode == Crashed
  {
    SealRoundTrip(epoch, hash);
  }

  lemma RetireCouples(rules: Rules, s: Node.State, l: Listener, epoch: U64, origin: Hash)
    requires Coupled(rules, s, l) && SealBlock(rules, s.chain, epoch, origin).result.Err?
    ensures Coupled(rules, Node.Seal(rules, s, epoch, origin), l)
  {
    var c, d := s.chain, SealBlock(rules, s.chain, epoch, origin).chain;
    SealKeepsInvariant(rules, c, epoch, origin);
    assert Held(d) == Held(c);
  }

  lemma DeliveredMirrors(rules: Rules, pending: ProtocolBlock, sealed: Block, done: Block)
    requires Copies(rules, pending, sealed) && sealed.status == STATUS_SEALED
    requires done.epoch == sealed.epoch && done.actions == sealed.actions
    ensures Mirrors(rules, pending.(invalidated := Clip(done.invalidated)), Node.Published(rules, done))
  {
  }

  lemma MirrorsOneMore(rules: Rules, delivered: seq<ProtocolBlock>, committed: seq<ProtocolBlock>, p: ProtocolBlock, q: ProtocolBlock)
    requires |delivered| == |committed| && MirrorsAll(rules, delivered, committed) && Mirrors(rules, p, q)
    ensures MirrorsAll(rules, delivered + [p], committed + [q])
  {
  }

  lemma CommitCouples(rules: Rules, s: Node.State, l: Listener, epoch: U64, invalidated: seq<Hash>)
    requires Coupled(rules, s, l) && WellFormed(l)
    requires Commit(rules, s.chain, epoch, invalidated).result.Ok?
    ensures var verdict := Commit(rules, s.chain, epoch, invalidated).result.value;
            Coupled(rules, Node.Commit(rules, s, epoch, invalidated), Handle(l, CommitBlockSocial(epoch, verdict)))
  {
    var c, reply := s.chain, Commit(rules, s.chain, epoch, invalidated);
    var n, d := CommitTarget(c.recent, epoch).value, reply.chain;
    CommitHeld(rules, c, epoch, invalidated);
    var pending, done := l.blocks[epoch], d.recent[n];
    assert Inv(d) by {
      CommitKeepsInvariant(rules, c, epoch, invalidated);
    }
    assert Tracks(rules, Held(d), l.blocks - {epoch}) by {
      HeldIncreases(c);
      TracksCommit(rules, Held(c), l.blocks, n, done);
    }
    DeliveredMirrors(rules, pending, Held(c)[n], done);
    MirrorsOneMore(rules, l.sent, s.committed, pending.(invalidated := Clip(done.invalidated)), Node.Published(rules, done));
    CommitHandled(l, epoch, reply.result.value);
  }

  // ----- from steps to runs -----

  /** The caller's side: 64-bit epochs do not wrap. */
  predicate NoWrap(s: Node.State, signal: Node.Signal) {
    signal.NewBlockSignal? && signal.epoch == Next(s.chain.epoch) ==> s.chain.epoch < TWO_64 - 1
  }

  /** The caller's side: a seal that will succeed arrives while the newest block is still open. */
  predicate SealInOrder(rules: Rules, s: Node.State, signal: Node.Signal) {
    signal.SealSignal? && !s.finished && SealBlock(rules, s.chain, signal.epoch, signal.hash).result.Ok? ==>
      NewestOpen(s.chain)
  }

  lemma ConsumeOne(messages: seq<Bytes>, message: Bytes)
    ensures Consume(LISTENING, messages + [message]) == Handle(Consume(LISTENING, messages), message)
  {
    assert (messages + [message])[..|messages|] == messages;
  }

  ghost predicate CoupledNow(rules: Rules, s: Node.State) {
    Coupled(rules, s, Consume(LISTENING, s.forward))
  }

  lemma SubmitStays(rules: Rules, s: Node.State, action: Bytes)
    requires CoupledNow(rules, s)
    ensures CoupledNow(rules, Node.Submit(rules, s, action))
  {
    if Validate(rules, s.chain, action).1 {
      SubmitCouples(rules, s, Consume(LISTENING, s.forward), action);
      ConsumeOne(s.forward, ActionSocial(action));
    } else {
      assert Node.Submit(rules, s, action) == s;
    }
  }

  lemma {:induction false} SubmitTimesStays(rules: Rules, s: Node.State, action: Bytes, count: nat)
    requires CoupledNow(rules, s)
    ensures CoupledNow(rules, Node.SubmitTimes(rules, s, action, count))
  {
    if count > 0 {
      SubmitTimesStays(rules, s, action, count - 1);
      SubmitStays(rules, Node.SubmitTimes(rules, s, action, count - 1), action);
    }
  }

  lemma OpenStays(rules: Rules, s: Node.State, epoch: U64)
    requires CoupledNow(rules, s) && NoWrap(s, Node.NewBlockSignal(epoch))
    ensures CoupledNow(rules, Node.Open(s, epoch))
  {
    if epoch == Next(s.chain.epoch) {
      OpenCouples(rules, s, Consume(LISTENING, s.forward), epoch);
      ConsumeOne(s.forward, NewBlockSocial(epoch));
    } else {
      assert Node.Open(s, epoch) == s;
    }
  }

  lemma SealStaysIff(rules: Rules, s: Node.State, epoch: U64, hash: Hash)
    requires CoupledNow(rules, s) && !s.finished
    ensures var t := Node.Seal(rules, s, epoch, hash);
            if SealInOrder(rules, s, Node.SealSignal(epoch, hash)) then CoupledNow(rules, t)
            else Consume(LISTENING, t.forward).mode == Crashed
  {
    var l, reply := Consume(LISTENING, s.forward), SealBlock(rules, s.chain, epoch, hash);
    if reply.result.Err? {
      RetireCouples(rules, s, l, epoch, hash);
      assert Node.Seal(rules, s, epoch, hash).forward == s.forward;
    } else {
      ConsumeOne(s.forward, SealBlockSocial(epoch, reply.result.value));
      if NewestOpen(s.chain) {
        SealCouples(rules, s, l, epoch, hash);
      } else {
        LateSealCrashes(rules, s, l, epoch, reply.result.value);
      }
    }
  }

  lemma CommitStays(rules: Rules, s: Node.State, epoch: U64, invalidated: seq<Hash>)
    requires CoupledNow(rules, s)
    ensures CoupledNow(rules, Node.Commit(rules, s, epoch, invalidated))
  {
    var reply := Commit(rules, s.chain, epoch, invalidated);
    if reply.result.Ok? {
      CommitCouples(rules, s, Consume(LISTENING, s.forward), epoch, invalidated);
      ConsumeOne(s.forward, CommitBlockSocial(epoch, reply.result.value));
    }
  }

  lemma {:induction false} StepStaysIff(rules: Rules, s: Node.State, signal: Node.Signal)
    requires CoupledNow(rules, s) && NoWrap(s, signal)
    ensures var t := Node.Step(rules, s, signal);
            if SealInOrder(rules, s, signal) then CoupledNow(rules, t)
            else Consume(LISTENING, t.forward).mode == Crashed
  {
    if !s.finished {
      match signal
      case ErrSignal =>
      case NewBlockSignal(epoch) => OpenStays(rules, s, epoch);
      case ActionSignal(action) => SubmitStays(rules, s, action);
      case ActionArraySignal(count, action) => SubmitTimesStays(rules, s, action, count);
      case SealSignal(epoch, hash) => SealStaysIff(rules, s, epoch, hash);
      case CommitSignal(epoch, invalidated) => CommitStays(rules, s, epoch, invalidated);
    }
  }

  ghost predicate NeverWraps(rules: Rules, s: Node.State, signals: seq<Node.Signal>) {
    signals != [] ==>
      && NeverWraps(rules, s, signals[..|signals| - 1])
      && NoWrap(Node.Run(rules, s, signals[..|signals| - 1]), signals[|signals| - 1])
  }

  ghost predicate SealsInOrder(rules: Rules, s: Node.State, signals: seq<Node.Signal>) {
    signals != [] ==>
      && SealsInOrder(rules, s, signals[..|signals| - 1])
      && SealInOrder(rules, Node.Run(rules, s, signals[..|signals| - 1]), signals[|signals| - 1])
  }

  ghost predicate NothingYet(c: Chain) {
    Inv(c) && c.recent == [] && c.live.None?
  }

  /** Coupling holds along any run whose seals are in order, and one late seal is fatal to a
      listener that reads everything, whatever comes before or after it. */
  lemma {:induction false} RunStaysIff(rules: Rules, c: Chain, signals: seq<Node.Signal>)
    requires NothingYet(c) && NeverWraps(rules, Node.Start(c), signals)
    ensures var s := Node.Run(rules, Node.Start(c), signals);
            if SealsInOrder(rules, Node.Start(c), signals) then CoupledNow(rules, s)
            else Consume(LISTENING, s.forward).mode == Crashed
  {
    if signals != [] {
      var last := |signals| - 1;
      var before := Node.Run(rules, Node.Start(c), signals[..last]);
      RunStaysIff(rules, c, signals[..last]);
      if SealsInOrder(rules, Node.Start(c), signals[..last]) {
        StepStaysIff(rules, before, signals[last]);
      } else {
        ForwardGrows(rules, before, signals[last]);
        var after := Node.Step(rules, before, signals[last]);
        assert after.forward == before.forward + after.forward[|before.forward|..];
        ConsumeIsMonotone(LISTENING, before.forward, after.forward[|before.forward|..]);
      }
    }
  }

  lemma {:induction false} SubmitTimesGrows(rules: Rules, s: Node.State, action: Bytes, count: nat)
    ensures var t := Node.SubmitTimes(rules, s, action, count);
            |s.forward| <= |t.forward| && t.forward[..|s.forward|] == s.forward
  {
    if count > 0 {
      SubmitTimesGrows(rules, s, action, count - 1);
    }
  }

  lemma ForwardGrows(rules: Rules, s: Node.State, signal: Node.Signal)
    ensures var t := Node.Step(rules, s, signal);
            |s.forward| <= |t.forward| && t.forward[..|s.forward|] == s.forward
  {
    match signal
    case ActionArraySignal(count, action) => SubmitTimesGrows(rules, s, action, count);
    case _ =>
  }

  /** The listener that drains the queue survives exactly when every seal was in order. */
  lemma ListenerSurvivesIff(rules: Rules, c: Chain, signals: seq<Node.Signal>)
    requires NothingYet(c) && NeverWraps(rules, Node.Start(c), signals)
    ensures var drained := Consume(LISTENING, Node.Run(rules, Node.Start(c), signals).forward);
            && (drained.mode == Running <==> SealsInOrder(rules, Node.Start(c), signals))
            && drained.mode != Stopped
  {
    RunStaysIff(rules, c, signals);
  }

  // ----- the asynchronous system -----

  /** `queue` holds what the node has sent and the listener has not read. */
  datatype System = System(node: Node.State, queue: seq<Bytes>, listener: Listener)
  datatype Move = Signalled(signal: Node.Signal) | Deliver

  function MoveOne(rules: Rules, s: System, move: Move): (t: System)
    requires WellFormed(s.listener)
    ensures WellFormed(t.listener)
  {
    match move
    case Signalled(signal) =>
      ForwardGrows(rules, s.node, signal);
      var node := Node.Step(rules, s.node, signal);
      s.(node := node, queue := s.queue + node.forward[|s.node.forward|..])
    case Deliver =>
      if s.queue == [] then s else s.(queue := s.queue[1..], listener := Handle(s.listener, s.queue[0]))
  }

  function RunSystem(rules: Rules, c: Chain, moves: seq<Move>): (s: System)
    ensures WellFormed(s.listener)
  {
    if moves == [] then System(Node.Start(c), [], LISTENING)
    else MoveOne(rules, RunSystem(rules, c, moves[..|moves| - 1]), moves[|moves| - 1])
  }

  function Signals(moves: seq<Move>): seq<Node.Signal> {
    if moves == [] then []
    else
      var last := moves[|moves| - 1];
      Signals(moves[..|moves| - 1]) + if last.Signalled? then [last.signal] else []
  }

  /** The queue is the unread tail of what was sent, and the listener has consumed the rest. */
  ghost predicate InTransit(s: System) {
    && |s.queue| <= |s.node.forward|
    && s.queue == s.node.forward[|s.node.forward| - |s.queue|..]
    && s.listener == Consume(LISTENING, s.node.forward[..|s.node.forward| - |s.queue|])
  }

  lemma SendKeepsTransit(s: System, node: Node.State)
    requires WellFormed(s.listener) && InTransit(s)
    requires |s.node.forward| <= |node.forward| && node.forward[..|s.node.forward|] == s.node.forward
    ensures InTransit(s.(node := node, queue := s.queue + node.forward[|s.node.forward|..]))
  {
    var read, sent := |s.node.forward| - |s.queue|, |s.node.forward|;
    assert node.forward == s.node.forward + node.forward[sent..];
    assert node.forward[..read] == s.node.forward[..read];
    assert node.forward[read..] == s.node.forward[read..] + node.forward[sent..];
  }

  lemma ReadKeepsTransit(s: System)
    requires WellFormed(s.listener) && InTransit(s) && s.queue != []
    ensures InTransit(s.(queue := s.queue[1..], listener := Handle(s.listener, s.queue[0])))
  {
    var read := |s.node.forward| - |s.queue|;
    assert s.node.forward[..read + 1] == s.node.forward[..read] + [s.queue[0]];
    ConsumeOne(s.node.forward[..read], s.queue[0]);
  }

  lemma MoveKeepsTransit(rules: Rules, s: System, move: Move)
    requires WellFormed(s.listener) && InTransit(s)
    ensures InTransit(MoveOne(rules, s, move))
  {
    match move
    case Signalled(signal) =>
      ForwardGrows(rules, s.node, signal);
      SendKeepsTransit(s, Node.Step(rules, s.node, signal));
    case Deliver =>
      if s.queue != [] {
        ReadKeepsTransit(s);
      }
  }

  lemma {:induction false} SystemIsInTransit(rules: Rules, c: Chain, moves: seq<Move>)
    ensures InTransit(RunSystem(rules, c, moves))
    ensures RunSystem(rules, c, moves).node == Node.Run(rules, Node.Start(c), Signals(moves))
  {
    if moves != [] {
      var last := |moves| - 1;
      SystemIsInTransit(rules, c, moves[..last]);
      MoveKeepsTransit(rules, RunSystem(rules, c, moves[..last]), moves[last]);
      if moves[last].Signalled? {
        assert Signals(moves)[..|Signals(moves)| - 1] == Signals(moves[..last]);
      } else {
        assert Signals(moves) == Signals(moves[..last]);
      }
    }
  }

  lemma PrefixMirrors(rules: Rules, delivered: seq<ProtocolBlock>, all: seq<ProtocolBlock>, committed: seq<ProtocolBlock>)
    requires MirrorsAll(rules, all, committed)
    requires |delivered| <= |all| && all[..|delivered|] == delivered
    ensures MirrorsAll(rules, delivered, committed)
  {
    forall i | 0 <= i < |delivered| ensures Mirrors(rules, delivered[i], committed[i]) {
      assert delivered[i] == all[..|delivered|][i];
    }
  }

  lemma AnyReaderIsFaithful(rules: Rules, s: Node.State, read: nat)
    requires CoupledNow(rules, s) && read <= |s.forward|
    ensures var l := Consume(LISTENING, s.forward[..read]);
            && l.mode == Running && MirrorsAll(rules, l.sent, s.committed)
            && (read == |s.forward| ==> |l.sent| == |s.committed|)
  {
    assert s.forward == s.forward[..read] + s.forward[read..];
    ConsumeIsMonotone(LISTENING, s.forward[..read], s.forward[read..]);
    assert read == |s.forward| ==> s.forward[..read] == s.forward;
    PrefixMirrors(rules, Consume(LISTENING, s.forward[..read]).sent, Consume(LISTENING, s.forward).sent, s.committed);
  }

  lemma TransitIsFaithful(rules: Rules, s: System)
    requires InTransit(s) && CoupledNow(rules, s.node)
    ensures s.listener.mode == Running && MirrorsAll(rules, s.listener.sent, s.node.committed)
    ensures s.queue == [] ==> |s.listener.sent| == |s.node.committed|
  {
    AnyReaderIsFaithful(rules, s.node, |s.node.forward| - |s.queue|);
  }

  /** At every reachable state the delivered blocks are a prefix of the committed ones, in commit
      order, each a copy, and the listener has taken no error or nil branch; with the queue empty
      nothing is missing. */
  lemma DeliveredIsPrefixOfCommitted(rules: Rules, c: Chain, moves: seq<Move>)
    requires NothingYet(c)
    requires NeverWraps(rules, Node.Start(c), Signals(moves)) && SealsInOrder(rules, Node.Start(c), Signals(moves))
    ensures var s := RunSystem(rules, c, moves);
            && s.listener.mode == Running
            && MirrorsAll(rules, s.listener.sent, s.node.committed)
            && (s.queue == [] ==> |s.listener.sent| == |s.node.committed|)
  {
    var s := RunSystem(rules, c, moves);
    SystemIsInTransit(rules, c, moves);
    RunStaysIff(rules, c, Signals(moves));
    TransitIsFaithful(rules, s);
  }

  lemma LateSealOnChain(rules: Rules, state: map<Bytes, Bytes>, h: Hash)
    ensures var two := NextBlock(NextBlock(SocialChain.Start(state, 0), 1).chain, 2).chain;
            var retired := SealBlock(rules, two, 2, h);
            var sealed := SealBlock(rules, retired.chain, 2, h);
            && NewestOpen(two) && NewestOpen(retired.chain) && retired.result.Err?
            && sealed.result.Ok? && !NewestOpen(sealed.chain)
            && SealBlock(rules, sealed.chain, 1, h).result.Ok?
  {
    var two := NextBlock(NextBlock(SocialChain.Start(state, 0), 1).chain, 2).chain;
    var retired := SealBlock(rules, two, 2, h).chain;
    assert |retired.recent| == 2 && retired.recent[0].epoch == 1 && retired.recent[1].epoch == 2;
    assert IndexOf(retired.recent, 2) == 1;
    var sealed := SealBlock(rules, retired, 2, h).chain;
    assert sealed.recent[0] == retired.recent[0] && IndexOf(sealed.recent, 1) == 0;
  }

  /** Two blocks, the second sealed first: every step is legal for the chain, and the message of the
      last one ends the listener. */
  lemma LateSealFails(rules: Rules, state: map<Bytes, Bytes>, h: Hash)
    ensures var two := Node.Open(Node.Open(Node.Start(SocialChain.Start(state, 0)), 1), 2);
            var newestSealed := Node.Seal(rules, Node.Seal(rules, two, 2, h), 2, h);
            Consume(LISTENING, Node.Seal(rules, newestSealed, 1, h).forward).mode == Crashed
  {
    var start := Node.Start(SocialChain.Start(state, 0));
    var two := Node.Open(Node.Open(start, 1), 2);
    LateSealOnChain(rules, state, h);
    OpenStays(rules, start, 1);
    OpenStays(rules, Node.Open(start, 1), 2);
    SealStaysIff(rules, two, 2, h);
    SealStaysIff(rules, Node.Seal(rules, two, 2, h), 2, h);
    SealStaysIff(rules, Node.Seal(rules, Node.Seal(rules, two, 2, h), 2, h), 1, h);
  }
}
