/** What every step of the chain keeps, exactly when it keeps it, and what is frozen once a block
    has left `live`. */
module ChainInvariant {
  import opened Codec
  import opened SocialChain
  import opened Wrappers

  ghost predicate Increasing(blocks: seq<Block>) {
    forall i, j :: 0 <= i < j < |blocks| ==> blocks[i].epoch < blocks[j].epoch
  }

  /** The commit epoch separates committed from uncommitted blocks; with `Increasing`, commits form
      a prefix. */
  ghost predicate Placed(blocks: seq<Block>, epoch: U64, commitEpoch: U64) {
    forall i :: 0 <= i < |blocks| ==>
      && blocks[i].checkpoint < blocks[i].epoch <= epoch
      && (blocks[i].status == STATUS_COMMIT <==> blocks[i].epoch <= commitEpoch)
  }

  ghost predicate Above(live: Block, blocks: seq<Block>) {
    forall i :: 0 <= i < |blocks| ==> blocks[i].epoch < live.epoch
  }

  /** Epochs in `recent` strictly increase up to the chain's epoch, and the live block is not among
      them but above all of them. */
  ghost predicate Inv(c: Chain) {
    && c.commitEpoch <= c.epoch
    && Increasing(c.recent)
    && Placed(c.recent, c.epoch, c.commitEpoch)
    && (c.live.Some? ==>
          && c.live.value.status == STATUS_LIVE
          && c.live.value.checkpoint < c.live.value.epoch == c.epoch
          && c.commitEpoch < c.epoch
          && Above(c.live.value, c.recent))
  }

  ghost predicate HoldsNoCommitAbove(c: Chain, epoch: U64) {
    forall i :: 0 <= i < |c.recent| ==> !(epoch < c.recent[i].epoch <= c.commitEpoch)
  }

  /** The caller's side: an accepted new block must not wrap the 64-bit epoch, and a recovery that
      takes effect must name a kept block (or leave no committed block above the target). */
  ghost predicate Guard(c: Chain, ev: Event) {
    match ev
    case OpenBlock(epoch) => epoch == Next(c.epoch) ==> c.epoch < TWO_64 - 1
    case RecoverTo(epoch) =>
      c.checksumEpoch <= epoch < c.commitEpoch ==>
        IndexOf(c.recent, epoch) < |c.recent| || HoldsNoCommitAbove(c, epoch)
    case _ => true
  }

  lemma OpenKeepsInvariantIff(c: Chain, epoch: U64)
    requires Inv(c)
    ensures Inv(NextBlock(c, epoch).chain) <==> Guard(c, OpenBlock(epoch))
  {
  }

  lemma UpdateKeepsShape(blocks: seq<Block>, n: nat, b: Block, epoch: U64, commitEpoch: U64)
    requires n < |blocks| && b.epoch == blocks[n].epoch && b.checkpoint == blocks[n].checkpoint
    ensures Increasing(blocks) ==> Increasing(blocks[n := b])
    ensures Placed(blocks, epoch, commitEpoch) && (b.status == STATUS_COMMIT <==> b.epoch <= commitEpoch)
            ==> Placed(blocks[n := b], epoch, commitEpoch)
    ensures forall live :: Above(live, blocks) ==> Above(live, blocks[n := b])
  {
  }

  lemma SealKeepsInvariant(rules: Rules, c: Chain, epoch: U64, origin: Hash)
    requires Inv(c)
    ensures Inv(SealBlock(rules, c, epoch, origin).chain)
  {
    var n := IndexOf(c.recent, epoch);
    if !(c.live.Some? && c.live.value.epoch == epoch) && n < |c.recent| && c.recent[n].status < STATUS_SEALED {
      UpdateKeepsShape(c.recent, n, c.recent[n].(status := STATUS_SEALED, origin := origin), c.epoch, c.commitEpoch);
    }
  }

  /** A commit takes exactly the first uncommitted block, so the boundary moves past it alone. */
  lemma CommitMovesBoundary(c: Chain, epoch: U64, b: Block)
    requires Inv(c) && CommitTarget(c.recent, epoch).Ok?
    requires b.epoch == epoch && b.checkpoint < epoch && b.status == STATUS_COMMIT
    ensures Placed(c.recent[CommitTarget(c.recent, epoch).value := b], c.epoch, epoch)
    ensures c.commitEpoch < epoch <= c.epoch && (c.live.Some? ==> epoch < c.epoch)
  {
  }

  lemma CommitKeepsInvariant(rules: Rules, c: Chain, epoch: U64, invalidated: seq<Hash>)
    requires Inv(c)
    ensures Inv(Commit(rules, c, epoch, invalidated).chain)
    ensures Commit(rules, c, epoch, invalidated).result.Ok? ==> c.commitEpoch < epoch
  {
    if CommitTarget(c.recent, epoch).Ok? {
      var n := CommitTarget(c.recent, epoch).value;
      var b := Commit(rules, c, epoch, invalidated).chain.recent[n];
      UpdateKeepsShape(c.recent, n, b, c.epoch, epoch);
      CommitMovesBoundary(c, epoch, b);
    }
  }

  lemma CutKeepsShape(blocks: seq<Block>, n: nat, low: U64, high: U64, commitEpoch: U64)
    requires n <= |blocks| && Increasing(blocks) && Placed(blocks, high, commitEpoch) && low <= commitEpoch
    requires forall i :: 0 <= i < n ==> blocks[i].epoch <= low || commitEpoch < blocks[i].epoch
    ensures Increasing(blocks[..n]) && Placed(blocks[..n], high, low)
  {
  }

  lemma RecoveryKeepsInvariantIff(c: Chain, epoch: U64)
    requires Inv(c)
    ensures Inv(Recovery(c, epoch)) <==> Guard(c, RecoverTo(epoch))
  {
    var n := IndexOf(c.recent, epoch);
    if c.checksumEpoch <= epoch < c.commitEpoch {
      if n < |c.recent| || HoldsNoCommitAbove(c, epoch) {
        CutKeepsShape(c.recent, n, epoch, c.epoch, c.commitEpoch);
      } else {
        var i :| 0 <= i < |c.recent| && epoch < c.recent[i].epoch <= c.commitEpoch;
        assert Recovery(c, epoch).recent[i] == c.recent[i];
      }
    }
  }

  lemma ValidateKeepsInvariant(rules: Rules, c: Chain, action: Bytes)
    requires Inv(c)
    ensures Inv(Validate(rules, c, action).0)
  {
    var d := Validate(rules, c, action).0;
    assert d.recent == c.recent;
  }

  lemma RollbackKeepsInvariant(c: Chain, epoch: U64)
    requires Inv(c)
    ensures Inv(Rollback(c, epoch).chain)
  {
  }

  lemma {:induction false} StepKeepsInvariantIff(rules: Rules, c: Chain, ev: Event)
    requires Inv(c)
    ensures Inv(Step(rules, c, ev)) <==> Guard(c, ev)
  {
    match ev
    case OpenBlock(epoch) => OpenKeepsInvariantIff(c, epoch);
    case Submit(action) => ValidateKeepsInvariant(rules, c, action);
    case Seal(epoch, origin) => SealKeepsInvariant(rules, c, epoch, origin);
    case Accept(epoch, invalidated) => CommitKeepsInvariant(rules, c, epoch, invalidated);
    case RollTo(epoch) => RollbackKeepsInvariant(c, epoch);
    case RecoverTo(epoch) => RecoveryKeepsInvariantIff(c, epoch);
  }

  ghost predicate AllGuarded(rules: Rules, c: Chain, events: seq<Event>) {
    events != [] ==>
      && AllGuarded(rules, c, events[..|events| - 1])
      && Guard(Run(rules, c, events[..|events| - 1]), events[|events| - 1])
  }

  /** The invariant holds at every moment of the run. */
  ghost predicate AlwaysInv(rules: Rules, c: Chain, events: seq<Event>) {
    Inv(Run(rules, c, events)) && (events != [] ==> AlwaysInv(rules, c, events[..|events| - 1]))
  }

  lemma {:induction false} RunKeepsInvariantIff(rules: Rules, c: Chain, events: seq<Event>)
    requires Inv(c)
    ensures AlwaysInv(rules, c, events) <==> AllGuarded(rules, c, events)
  {
    if events != [] {
      var front := events[..|events| - 1];
      RunKeepsInvariantIff(rules, c, front);
      if AllGuarded(rules, c, front) {
        assert Inv(Run(rules, c, front));
        StepKeepsInvariantIff(rules, Run(rules, c, front), events[|events| - 1]);
      }
    }
  }

  /** Position of the first kept block that is not committed, or the length. */
  function FirstOpen(blocks: seq<Block>): (n: nat)
    ensures n <= |blocks| && (n < |blocks| ==> blocks[n].status != STATUS_COMMIT)
    ensures forall i :: 0 <= i < n ==> blocks[i].status == STATUS_COMMIT
  {
    if blocks == [] || blocks[0].status != STATUS_COMMIT then 0 else 1 + FirstOpen(blocks[1..])
  }

  /** Which block a commit takes, and when each refusal is given. */
  lemma CommitOutcomes(c: Chain, epoch: U64)
    requires Inv(c)
    ensures var r, target, n := c.recent, CommitTarget(c.recent, epoch), FirstOpen(c.recent);
            var done := exists i :: 0 <= i < n && r[i].epoch == epoch;
            && (target == Err(AlreadyCommitted) <==> done)
            && (target == Ok(n) <==> n < |r| && r[n].epoch == epoch && r[n].status == STATUS_SEALED)
            && (target.Ok? ==> target == Ok(n))
            && (target == Err(NotSealed) <==> n < |r| && r[n].epoch == epoch && r[n].status < STATUS_SEALED)
            && (target == Err(NonSequentialCommit) <==> !done && n < |r| && r[n].epoch != epoch)
            && (target == Err(NotFound) <==> !done && n == |r|)
  {
  }

  /** A rollback is accepted exactly for a kept block from the commit epoch on; then there is no live
      block, every kept one is earlier, and the next block to open is the one after it. */
  lemma RollbackReopens(c: Chain, epoch: U64)
    requires Inv(c) && epoch < TWO_64 - 1
    ensures var reply := Rollback(c, epoch);
            && (reply.result.Ok? <==> c.commitEpoch <= epoch && exists i :: 0 <= i < |c.recent| && c.recent[i].epoch == epoch)
            && (reply.result.Err? ==> reply.chain == c)
            && (reply.result.Ok? ==>
                  && reply.chain.live.None? && reply.chain.state == c.state
                  && NextBlock(reply.chain, epoch + 1).result.Ok?
                  && |reply.chain.recent| <= |c.recent|
                  && (forall i :: 0 <= i < |reply.chain.recent| ==>
                        reply.chain.recent[i] == c.recent[i] && c.recent[i].epoch < epoch)
                  && (|reply.chain.recent| < |c.recent| ==> c.recent[|reply.chain.recent|].epoch >= epoch))
  {
  }

  predicate Opens(c: Chain, ev: Event) {
    ev.OpenBlock? && NextBlock(c, ev.epoch).result.Ok?
  }

  function Opened(rules: Rules, c: Chain, events: seq<Event>): nat {
    if events == [] then 0
    else
      var front := events[..|events| - 1];
      Opened(rules, c, front) + if Opens(Run(rules, c, front), events[|events| - 1]) then 1 else 0
  }

  lemma StepCountsBlocks(rules: Rules, c: Chain, ev: Event)
    requires Guard(c, ev) && !ev.RollTo?
    ensures Step(rules, c, ev).epoch == c.epoch + if Opens(c, ev) then 1 else 0
  {
  }

  /** Without rollbacks every new block takes the next epoch and nothing else moves it. */
  lemma {:induction false} EpochCountsBlocks(rules: Rules, c: Chain, events: seq<Event>)
    requires AllGuarded(rules, c, events) && forall i :: 0 <= i < |events| ==> !events[i].RollTo?
    ensures Run(rules, c, events).epoch == c.epoch + Opened(rules, c, events)
  {
    if events != [] {
      var front := events[..|events| - 1];
      EpochCountsBlocks(rules, c, front);
      StepCountsBlocks(rules, Run(rules, c, front), events[|events| - 1]);
    }
  }

  /** A second call is what seals the live block, and it answers with the hash of what was live. */
  lemma SealingLiveTakesTwoCalls(rules: Rules, c: Chain, first: Hash, second: Hash)
    requires Inv(c) && c.live.Some?
    ensures var one := SealBlock(rules, c, c.epoch, first);
            var two := SealBlock(rules, one.chain, c.epoch, second);
            && one.result.Err?
            && two.result.Ok? && two.result.value == rules.hashList(c.live.value.actions)
            && two.chain == c.(live := None,
                               recent := c.recent + [c.live.value.(status := STATUS_SEALED, origin := second)])
  {
    var one := SealBlock(rules, c, c.epoch, first);
    assert one.chain.recent[|c.recent|].epoch == c.epoch;
    assert IndexOf(one.chain.recent, c.epoch) == |c.recent|;
  }

  /** `b` is a later stage of `a`: same content, status not lower, origin fixed by the seal. */
  ghost predicate Matured(a: Block, b: Block) {
    && a.epoch == b.epoch && a.checkpoint == b.checkpoint && a.actions == b.actions
    && a.status <= b.status
    && (a.status >= STATUS_SEALED ==> a.origin == b.origin)
    && (a.status == STATUS_COMMIT ==> a == b)
  }

  lemma StepFreezes(rules: Rules, c: Chain, ev: Event)
    ensures var d := Step(rules, c, ev);
            && (forall i :: 0 <= i < Min(|c.recent|, |d.recent|) ==> Matured(c.recent[i], d.recent[i]))
            && (|d.recent| < |c.recent| ==> ev.RollTo? || ev.RecoverTo?)
  {
  }

  /** The step leaves the block at position n where it is. */
  predicate Spares(c: Chain, ev: Event, n: nat) {
    match ev
    case RollTo(epoch) => epoch < c.commitEpoch || n < IndexOf(c.recent, epoch)
    case RecoverTo(epoch) => !(c.checksumEpoch <= epoch < c.commitEpoch) || n < IndexOf(c.recent, epoch)
    case _ => true
  }

  lemma StepSparesIff(rules: Rules, c: Chain, ev: Event, n: nat)
    requires n < |c.recent|
    ensures n < |Step(rules, c, ev).recent| <==> Spares(c, ev, n)
  {
  }

  ghost predicate AllSpare(rules: Rules, c: Chain, events: seq<Event>, n: nat) {
    events != [] ==>
      && AllSpare(rules, c, events[..|events| - 1], n)
      && Spares(Run(rules, c, events[..|events| - 1]), events[|events| - 1], n)
  }

  ghost predicate AlwaysHeld(rules: Rules, c: Chain, events: seq<Event>, n: nat) {
    n < |Run(rules, c, events).recent| && (events != [] ==> AlwaysHeld(rules, c, events[..|events| - 1], n))
  }

  /** A block is held throughout a run exactly when no step cuts at or before it, and then it and
      those before it only mature. */
  lemma {:induction false} RunFreezesIff(rules: Rules, c: Chain, events: seq<Event>, n: nat)
    requires n < |c.recent|
    ensures AlwaysHeld(rules, c, events, n) <==> AllSpare(rules, c, events, n)
    ensures AllSpare(rules, c, events, n) ==>
              forall i :: 0 <= i <= n ==> Matured(c.recent[i], Run(rules, c, events).recent[i])
  {
    if events != [] {
      var last := |events| - 1;
      var d := Run(rules, c, events[..last]);
      RunFreezesIff(rules, c, events[..last], n);
      if AllSpare(rules, c, events[..last], n) {
        StepSparesIff(rules, d, events[last], n);
        StepFreezes(rules, d, events[last]);
      }
    }
  }

  /** Every cut names a later epoch. */
  predicate CutsAbove(events: seq<Event>, epoch: U64) {
    forall i :: 0 <= i < |events| && (events[i].RollTo? || events[i].RecoverTo?) ==> events[i].epoch > epoch
  }

  lemma {:induction false} CutsAboveSpare(rules: Rules, c: Chain, events: seq<Event>, n: nat, epoch: U64)
    requires n < |c.recent| && forall i :: 0 <= i <= n ==> c.recent[i].epoch <= epoch
    requires CutsAbove(events, epoch)
    ensures AllSpare(rules, c, events, n)
  {
    if events != [] {
      var last := |events| - 1;
      CutsAboveSpare(rules, c, events[..last], n, epoch);
      RunFreezesIff(rules, c, events[..last], n);
    }
  }

  predicate Seals(rules: Rules, c: Chain, ev: Event, epoch: U64) {
    ev.Seal? && ev.epoch == epoch && SealBlock(rules, c, epoch, ev.origin).result.Ok?
  }

  /** No later call seals that epoch. */
  ghost predicate NeverResealed(rules: Rules, c: Chain, events: seq<Event>, epoch: U64) {
    events != [] ==>
      && NeverResealed(rules, c, events[..|events| - 1], epoch)
      && !Seals(rules, Run(rules, c, events[..|events| - 1]), events[|events| - 1], epoch)
  }

  /** Whatever block of that epoch is sealed has these actions and this origin. */
  ghost predicate SealedAs(c: Chain, epoch: U64, actions: seq<Bytes>, origin: Hash) {
    && (c.live.Some? ==> c.live.value.status == STATUS_LIVE)
    && forall i :: 0 <= i < |c.recent| && c.recent[i].epoch == epoch && c.recent[i].status >= STATUS_SEALED ==>
         c.recent[i].actions == actions && c.recent[i].origin == origin
  }

  lemma StepKeepsSealed(rules: Rules, c: Chain, ev: Event, epoch: U64, actions: seq<Bytes>, origin: Hash)
    requires SealedAs(c, epoch, actions, origin) && !Seals(rules, c, ev, epoch)
    ensures SealedAs(Step(rules, c, ev), epoch, actions, origin)
  {
  }

  lemma {:induction false} RunKeepsSealed(rules: Rules, c: Chain, events: seq<Event>, epoch: U64, actions: seq<Bytes>, origin: Hash)
    requires SealedAs(c, epoch, actions, origin) && NeverResealed(rules, c, events, epoch)
    ensures SealedAs(Run(rules, c, events), epoch, actions, origin)
  {
    if events != [] {
      var last := |events| - 1;
      RunKeepsSealed(rules, c, events[..last], epoch, actions, origin);
      StepKeepsSealed(rules, Run(rules, c, events[..last]), events[last], epoch, actions, origin);
    }
  }

  /** The hash a seal answers with is the hash of exactly the list that a later commit of that epoch
      revalidates and keeps, through any rollbacks and recoveries, unless a later call has sealed
      that epoch anew (and then that call's answer is). */
  lemma {:induction false} SealedHashIsOfCommittedActions(rules: Rules, c: Chain, epoch: U64, origin: Hash, events: seq<Event>, invalidated: seq<Hash>)
    requires Inv(c) && SealBlock(rules, c, epoch, origin).result.Ok?
    requires NeverResealed(rules, SealBlock(rules, c, epoch, origin).chain, events, epoch)
    requires Commit(rules, Run(rules, SealBlock(rules, c, epoch, origin).chain, events), epoch, invalidated).result.Ok?
    ensures var sealed := SealBlock(rules, c, epoch, origin);
            var d := Run(rules, sealed.chain, events);
            var n := CommitTarget(d.recent, epoch).value;
            && sealed.result.value == rules.hashList(d.recent[n].actions)
            && d.recent[n].actions == c.recent[IndexOf(c.recent, epoch)].actions && d.recent[n].origin == origin
            && Commit(rules, d, epoch, invalidated).chain.recent[n].actions == d.recent[n].actions
  {
    RunKeepsSealed(rules, SealBlock(rules, c, epoch, origin).chain, events, epoch,
                   c.recent[IndexOf(c.recent, epoch)].actions, origin);
  }

  /** As long as cuts name later epochs, nothing is sealed anew. */
  lemma {:induction false} CutsAboveNeverReseal(rules: Rules, c: Chain, events: seq<Event>, n: nat, epoch: U64)
    requires n < |c.recent| && c.recent[n].epoch == epoch && c.recent[n].status >= STATUS_SEALED
    requires forall i :: 0 <= i < n ==> c.recent[i].epoch < epoch
    requires CutsAbove(events, epoch)
    ensures NeverResealed(rules, c, events, epoch)
  {
    if events != [] {
      var last := |events| - 1;
      CutsAboveNeverReseal(rules, c, events[..last], n, epoch);
      CutsAboveSpare(rules, c, events[..last], n, epoch);
      RunFreezesIff(rules, c, events[..last], n);
      var d := Run(rules, c, events[..last]);
      assert forall i :: 0 <= i <= n ==> Matured(c.recent[i], d.recent[i]);
      assert IndexOf(d.recent, epoch) == n;
    }
  }
}
