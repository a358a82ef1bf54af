/** Optimistic validation against the commit it anticipates: as long as nothing has been committed
    since its checkpoint, a live block holds what a commit would apply. */
module ChainValidation {
  import opened ChainInvariant
  import opened ChainReplay
  import opened Codec
  import opened Overlay
  import opened SocialChain
  import opened Wrappers

  /** The live block's checkpoint is the commit epoch it was opened at; until the next commit its
      actions all pass a revalidation, which ends with the live validator's overlay. */
  ghost predicate Optimistic(rules: Rules, c: Chain) {
    c.live.Some? ==>
      && c.live.value.checkpoint <= c.commitEpoch
      && (c.live.value.checkpoint == c.commitEpoch ==>
            Revalidate(rules, c.state, {}, c.live.value.actions) == Verdict([], c.pending))
  }

  lemma RevalidateOneMore(rules: Rules, base: State, actions: seq<Bytes>, action: Bytes)
    ensures var before := Revalidate(rules, base, {}, actions);
            var attempt := Attempt(rules, base, before.mutations, action);
            Revalidate(rules, base, {}, actions + [action]) ==
            if attempt.None? then before.(invalidated := before.invalidated + [rules.hash(action)])
            else before.(mutations := attempt.value)
  {
    assert (actions + [action])[..|actions|] == actions;
  }

  lemma SubmitKeepsOptimistic(rules: Rules, c: Chain, action: Bytes)
    requires Optimistic(rules, c)
    ensures Optimistic(rules, Validate(rules, c, action).0)
  {
    if c.live.Some? {
      RevalidateOneMore(rules, c.state, c.live.value.actions, Transformed(rules, action));
    }
  }

  /** Every guarded step keeps it: a new block starts at the commit epoch, a commit leaves the
      checkpoint behind, and a rollback or recovery drops the live block. */
  lemma StepKeepsOptimistic(rules: Rules, c: Chain, ev: Event)
    requires Inv(c) && Guard(c, ev) && Optimistic(rules, c)
    ensures Optimistic(rules, Step(rules, c, ev))
    ensures ev.OpenBlock? && ev.epoch == Next(c.epoch) ==>
              Step(rules, c, ev).live.Some? && Step(rules, c, ev).live.value.checkpoint == c.commitEpoch
  {
    match ev
    case Submit(action) => SubmitKeepsOptimistic(rules, c, action);
    case Accept(epoch, invalidated) => CommitKeepsInvariant(rules, c, epoch, invalidated);
    case _ =>
  }

  lemma {:induction false} RunIsOptimistic(rules: Rules, c: Chain, events: seq<Event>)
    requires Inv(c) && AllGuarded(rules, c, events) && Optimistic(rules, c)
    ensures Optimistic(rules, Run(rules, c, events)) && Inv(Run(rules, c, events))
  {
    if events != [] {
      var front := events[..|events| - 1];
      RunIsOptimistic(rules, c, front);
      StepKeepsOptimistic(rules, Run(rules, c, front), events[|events| - 1]);
      StepKeepsInvariantIff(rules, Run(rules, c, front), events[|events| - 1]);
    }
  }

  /** So a submitted action is accepted exactly when it is one and the sequential machine would apply
      it after the live block's actions, on the commit state. */
  lemma AcceptedIffApplied(rules: Rules, c: Chain, action: Bytes)
    requires Optimistic(rules, c) && c.live.Some? && c.live.value.checkpoint == c.commitEpoch
    ensures var a := if rules.transform.Some? then rules.transform.value(action) else action;
            var actions := c.live.value.actions;
            var (after, accepted) := Validate(rules, c, action);
            var outcome := Sequential(rules, c.state, Turns(rules, actions, []));
            && outcome.applied == actions
            && (accepted <==> a != [] && rules.execute(outcome.state, a).Some?)
            && after.live == Some(c.live.value.(actions := actions + if accepted then [a] else []))
            && after.recent == c.recent && after.state == c.state
  {
    var actions := c.live.value.actions;
    assert SetOf([]) == {};
    RevalidateIsSequential(rules, c.state, [], actions);
    NoneRejected(rules, c.state, Turns(rules, actions, []));
    assert ActionsOf(Turns(rules, actions, [])) == actions && actions + [] == actions;
  }

  lemma {:induction false} NoneRejected(rules: Rules, start: State, turns: seq<Turn>)
    requires Sequential(rules, start, turns).rejected == []
    ensures Sequential(rules, start, turns).applied == ActionsOf(turns)
  {
    if turns != [] {
      var last := |turns| - 1;
      NoneRejected(rules, start, turns[..last]);
      assert ActionsOf(turns) == ActionsOf(turns[..last]) + [turns[last].action];
    }
  }

  /** A live block without a commit since its checkpoint, sealed and committed with no objection from
      the network, loses no action, and the state becomes the one its validator had. */
  lemma LiveCommitsWhole(rules: Rules, c: Chain, first: Hash, second: Hash)
    requires Inv(c) && Optimistic(rules, c) && c.live.Some? && c.live.value.checkpoint == c.commitEpoch
    requires forall i :: 0 <= i < |c.recent| ==> c.recent[i].status == STATUS_COMMIT
    ensures var sealed := SealBlock(rules, SealBlock(rules, c, c.epoch, first).chain, c.epoch, second).chain;
            var reply := Commit(rules, sealed, c.epoch, []);
            reply.result == Ok([]) && reply.chain.state == Incorporate(c.state, c.pending)
  {
    SealingLiveTakesTwoCalls(rules, c, first, second);
    var sealed := SealBlock(rules, SealBlock(rules, c, c.epoch, first).chain, c.epoch, second).chain;
    var n := |c.recent|;
    assert sealed.recent[n].epoch == c.epoch && sealed.recent[n].status == STATUS_SEALED;
    assert forall i :: 0 <= i < n ==> sealed.recent[i] == c.recent[i];
    assert CommitStop(sealed.recent, c.epoch) == n;
    assert SetOf([]) == {};
  }
}
