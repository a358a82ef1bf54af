/** `SocialBlockChain` itself (social/chain.go): methods that update the chain and its blocks in
    place. Each is proved to take the chain's view through the step of SocialChain.dfy, whatever
    the state it is called in. The mutex is not modelled: one call runs at a time. */
module BlockChain {
  import opened Codec
  import opened Wrappers
  import Overlay
  import Spec = SocialChain

  class SocialBlock {
    const epoch: U64
    const checkpoint: U64
    var origin: Hash
    var actions: seq<Bytes>
    var invalidated: seq<Hash>
    var status: Spec.Status
    var mutations: Overlay.Mutations

    constructor (epoch: U64, checkpoint: U64)
      ensures View() == Spec.Block(epoch, checkpoint, Zeros(HASH_SIZE), [], [], Spec.STATUS_LIVE, map[])
    {
      this.epoch, this.checkpoint := epoch, checkpoint;
      origin, actions, invalidated, status, mutations := Zeros(HASH_SIZE), [], [], Spec.STATUS_LIVE, map[];
    }

    ghost function View(): Spec.Block
      reads this
    {
      Spec.Block(epoch, checkpoint, origin, actions, invalidated, status, mutations)
    }
  }

  ghost function Views(blocks: seq<SocialBlock>): (views: seq<Spec.Block>)
    reads blocks
    ensures |views| == |blocks|
    ensures forall i :: 0 <= i < |blocks| ==> views[i] == blocks[i].View()
  {
    seq(|blocks|, i requires 0 <= i < |blocks| reads blocks => blocks[i].View())
  }

  /** The protocol's committed state. `saved` is what `Recover` goes back to. */
  class CommitState {
    var data: Overlay.State
    const saved: Overlay.State

    constructor (state: Overlay.State)
      ensures data == saved == state
    {
      data, saved := state, state;
    }

    method Incorporate(mutations: Overlay.Mutations)
      modifies this
      ensures data == Overlay.Incorporate(old(data), mutations)
    {
      data := Overlay.Incorporate(data, mutations);
    }

    method Recover()
      modifies this
      ensures data == saved
    {
      data := saved;
    }
  }

  /** A validator reads the commit state by reference, through the mutations it has collected. */
  class Validator {
    const base: CommitState
    var overlay: Overlay.Mutations

    constructor (base: CommitState)
      ensures this.base == base && overlay == map[]
    {
      this.base, overlay := base, map[];
    }

    method Validate(rules: Spec.Rules, action: Bytes) returns (valid: bool)
      modifies this
      ensures var attempt := Spec.Attempt(rules, base.data, old(overlay), action);
              && valid == attempt.Some?
              && overlay == if valid then attempt.value else old(overlay)
    {
      var delta := rules.execute(Overlay.Incorporate(base.data, overlay), action);
      valid := delta.Some?;
      if valid {
        overlay := Overlay.Merge(overlay, delta.value);
      }
    }
  }

  lemma GatherOneMore(blocks: seq<Spec.Block>, n: nat, checksum: U64, epoch: U64)
    requires n < |blocks|
    ensures Spec.Gather(blocks[..n + 1], checksum, epoch) ==
            if blocks[n].epoch == Next(checksum) then blocks[n].mutations
            else if blocks[n].epoch > Next(checksum) && blocks[n].epoch <= epoch
              then Overlay.Merge(Spec.Gather(blocks[..n], checksum, epoch), blocks[n].mutations)
            else Spec.Gather(blocks[..n], checksum, epoch)
  {
    assert blocks[..n + 1][..n] == blocks[..n];
  }

  lemma WalkedTo(blocks: seq<Spec.Block>, epoch: U64, n: nat)
    requires n <= |blocks| && forall i :: 0 <= i < n ==> blocks[i].epoch != epoch
    requires n < |blocks| ==> blocks[n].epoch == epoch
    ensures n == Spec.IndexOf(blocks, epoch)
    ensures Spec.Walked(blocks, epoch) == if n == |blocks| then blocks[..n] else blocks[..n + 1]
  {
    assert blocks[..|blocks|] == blocks;
  }

  class SocialBlockChain {
    const rules: Spec.Rules
    var epoch: U64
    var live: SocialBlock?
    var validator: Validator
    const commit: CommitState
    var commitEpoch: U64
    var recentBlocks: seq<SocialBlock>
    const checksumEpoch: U64 := 0

    ghost predicate Valid()
      reads this
    {
      && validator.base == commit
      && live !in recentBlocks
      && forall i, j :: 0 <= i < j < |recentBlocks| ==> recentBlocks[i] != recentBlocks[j]
    }

    ghost function Repr(): set<object>
      reads this
    {
      (if live == null then {} else {live as object}) + {this, commit, validator} + set b | b in recentBlocks
    }

    ghost function View(): Spec.Chain
      reads this, live, validator, commit, recentBlocks
    {
      Spec.Chain(epoch, if live == null then None else Some(live.View()), validator.overlay,
                 commit.data, commit.saved, commitEpoch, Views(recentBlocks), checksumEpoch)
    }

    constructor (rules: Spec.Rules, state: CommitState, epoch: U64)
      ensures Valid() && fresh(Repr() - {state})
      ensures this.rules == rules && commit == state
      ensures state.data == state.saved ==> View() == Spec.Start(state.data, epoch)
    {
      this.rules, this.epoch, commit, commitEpoch := rules, epoch, state, epoch;
      live, recentBlocks := null, [];
      validator := new Validator(state);
    }

    method Validate(action: Bytes) returns (valid: bool)
      requires Valid()
      modifies live, validator
      ensures Valid()
      ensures (View(), valid) == Spec.Validate(rules, old(View()), action)
    {
      var a := action;
      if rules.transform.Some? {
        a := rules.transform.value(a);
      }
      valid := false;
      if |a| > 0 && live != null {
        var accepted := validator.Validate(rules, a);
        if accepted {
          live.actions := live.actions + [a];
          valid := true;
        }
      }
    }

    /** The live block goes to the end of `recentBlocks`. */
    method Retire()
      requires Valid() && live != null
      modifies this`live, this`recentBlocks
      ensures Valid() && Repr() == old(Repr()) && live == null
      ensures var c := old(View());
              View() == c.(live := None, recent := c.recent + [c.live.value])
    {
      recentBlocks := recentBlocks + [live];
      live := null;
      assert Views(recentBlocks) == old(Views(recentBlocks) + [live.View()]);
    }

    /** Lines 95-102: a new live block under a new validator. */
    method OpenNext()
      requires Valid()
      modifies this`epoch, this`live, this`validator
      ensures Valid() && recentBlocks == old(recentBlocks) && fresh(validator) && live != null && fresh(live)
      ensures var c := old(View());
              View() == c.(epoch := Next(c.epoch), pending := map[],
                           live := Some(Spec.Block(Next(c.epoch), c.commitEpoch, Zeros(HASH_SIZE), [], [], Spec.STATUS_LIVE, map[])))
    {
      epoch := Next(epoch);
      live := new SocialBlock(epoch, commitEpoch);
      validator := new Validator(commit);
    }

    method NextBlock(epoch: U64) returns (result: Result<(), Spec.Refusal>)
      requires Valid()
      modifies this, live
      ensures Valid() && fresh(Repr() - old(Repr()))
      ensures Spec.Reply(View(), result) == Spec.NextBlock(old(View()), epoch)
    {
      if epoch != Next(this.epoch) {
        return Err(Spec.NonSequentialBlock);
      }
      if live != null {
        live.status := Spec.STATUS_DONE;
        live.mutations := validator.overlay;
        assert Views(recentBlocks) == old(Views(recentBlocks));
        Retire();
      }
      OpenNext();
      result := Ok(());
    }

    method FindBlock(epoch: U64) returns (block: SocialBlock?, n: nat)
      requires Valid()
      ensures n == Spec.IndexOf(View().recent, epoch)
      ensures if n == |recentBlocks| then block == null else block == recentBlocks[n]
    {
      for k := 0 to |recentBlocks|
        invariant forall i :: 0 <= i < k ==> recentBlocks[i].epoch != epoch
      {
        if recentBlocks[k].epoch == epoch {
          return recentBlocks[k], k;
        }
      }
      return null, |recentBlocks|;
    }

    /** Lines 120-122. */
    method Mark(n: nat, hash: Hash) returns (actionsHash: Hash)
      requires Valid() && n < |recentBlocks|
      modifies recentBlocks[n]
      ensures var c := old(View());
              && View() == c.(recent := c.recent[n := c.recent[n].(status := Spec.STATUS_SEALED, origin := hash)])
              && actionsHash == rules.hashList(c.recent[n].actions)
    {
      var sealed := recentBlocks[n];
      assert forall i :: 0 <= i < |recentBlocks| && i != n ==> recentBlocks[i] != sealed;
      sealed.status := Spec.STATUS_SEALED;
      sealed.origin := hash;
      actionsHash := rules.hashList(sealed.actions);
      assert Views(recentBlocks) == old(Views(recentBlocks))[n := sealed.View()];
    }

    method SealBlock(epoch: U64, hash: Hash) returns (result: Result<Hash, Spec.Refusal>)
      requires Valid()
      modifies this, recentBlocks
      ensures Valid() && Repr() == old(Repr())
      ensures Spec.Reply(View(), result) == Spec.SealBlock(rules, old(View()), epoch, hash)
    {
      var sealed: SocialBlock? := null;
      var n := 0;
      if live != null && live.epoch == epoch {
        Retire();
      } else {
        sealed, n := FindBlock(epoch);
      }
      if sealed == null {
        return Err(Spec.NotFound);
      }
      if sealed.status >= Spec.STATUS_SEALED {
        return Err(Spec.AlreadySealed);
      }
      var actionsHash := Mark(n, hash);
      result := Ok(actionsHash);
    }

    method Revalidate(actions: seq<Bytes>, invalidated: seq<Hash>)
        returns (socialInvalidated: seq<Hash>, mutations: Overlay.Mutations)
      ensures Spec.Verdict(socialInvalidated, mutations)
           == Spec.Revalidate(rules, commit.data, Spec.SetOf(invalidated), actions)
    {
      var notValid: set<Hash> := {};
      for k := 0 to |invalidated|
        invariant notValid == Spec.SetOf(invalidated[..k])
      {
        notValid := notValid + {invalidated[k]};
      }
      assert invalidated[..|invalidated|] == invalidated;
      var checker := new Validator(commit);
      socialInvalidated := [];
      for n := 0 to |actions|
        invariant checker.base == commit
        invariant Spec.Verdict(socialInvalidated, checker.overlay)
               == Spec.Revalidate(rules, commit.data, notValid, actions[..n])
      {
        assert actions[..n + 1][..n] == actions[..n];
        var hash := rules.hash(actions[n]);
        var rejected := hash in notValid;
        if !rejected {
          var valid := checker.Validate(rules, actions[n]);
          rejected := !valid;
        }
        if rejected {
          socialInvalidated := socialInvalidated + [hash];
        }
      }
      assert actions[..|actions|] == actions;
      mutations := checker.overlay;
    }

    /** Lines 159-162: the block is marked, revalidated and incorporated. */
    method Settle(n: nat, invalidated: seq<Hash>) returns (verdict: seq<Hash>)
      requires Valid() && n < |recentBlocks|
      modifies this`commitEpoch, commit, recentBlocks[n]
      ensures Valid()
      ensures var c := old(View());
              var v := Spec.Revalidate(rules, c.state, Spec.SetOf(invalidated), c.recent[n].actions);
              var b := c.recent[n].(status := Spec.STATUS_COMMIT, invalidated := v.invalidated, mutations := v.mutations);
              && verdict == v.invalidated
              && View() == c.(recent := c.recent[n := b], state := Overlay.Incorporate(c.state, v.mutations), commitEpoch := b.epoch)
    {
      var block := recentBlocks[n];
      assert forall i :: 0 <= i < |recentBlocks| && i != n ==> recentBlocks[i] != block;
      block.status := Spec.STATUS_COMMIT;
      var mutations;
      verdict, mutations := Revalidate(block.actions, invalidated);
      block.invalidated, block.mutations := verdict, mutations;
      commit.Incorporate(block.mutations);
      commitEpoch := block.epoch;
      assert Views(recentBlocks) == old(Views(recentBlocks))[n := block.View()];
    }

    method Commit(epoch: U64, invalidated: seq<Hash>) returns (result: Result<seq<Hash>, Spec.Refusal>)
      requires Valid()
      modifies this, commit, recentBlocks
      ensures Valid() && Repr() == old(Repr())
      ensures Spec.Reply(View(), result) == Spec.Commit(rules, old(View()), epoch, invalidated)
    {
      ghost var c := View();
      for n := 0 to |recentBlocks|
        invariant forall i :: 0 <= i < n ==> c.recent[i].epoch != epoch && c.recent[i].status == Spec.STATUS_COMMIT
      {
        var block := recentBlocks[n];
        assert c.recent[n] == block.View();
        if block.epoch == epoch {
          assert Spec.CommitStop(c.recent, epoch) == n;
          if block.status == Spec.STATUS_COMMIT {
            return Err(Spec.AlreadyCommitted);
          } else if block.status != Spec.STATUS_SEALED {
            return Err(Spec.NotSealed);
          }
          var verdict := Settle(n, invalidated);
          return Ok(verdict);
        } else if block.status != Spec.STATUS_COMMIT {
          assert Spec.CommitStop(c.recent, epoch) == n;
          return Err(Spec.NonSequentialCommit);
        }
      }
      assert Spec.CommitStop(c.recent, epoch) == |c.recent|;
      return Err(Spec.NotFound);
    }

    /** The first n blocks are kept and there is no live block. */
    method CutAt(n: nat)
      requires Valid() && n <= |recentBlocks|
      modifies this`live, this`recentBlocks
      ensures Valid() && Repr() <= old(Repr())
      ensures View() == old(View()).(recent := old(View()).recent[..n], live := None)
    {
      ghost var kept := View().recent[..n];
      recentBlocks := recentBlocks[..n];
      live := null;
      assert Views(recentBlocks) == kept;
    }

    method Rollback(epoch: U64) returns (result: Result<(), Spec.Refusal>)
      requires Valid()
      modifies this
      ensures Valid() && Repr() <= old(Repr())
      ensures Spec.Reply(View(), result) == Spec.Rollback(old(View()), epoch)
    {
      if epoch < commitEpoch {
        return Err(Spec.BeforeCommit);
      }
      for n := 0 to |recentBlocks|
        invariant forall i :: 0 <= i < n ==> recentBlocks[i].epoch != epoch
      {
        if recentBlocks[n].epoch == epoch {
          assert Spec.IndexOf(View().recent, epoch) == n;
          CutAt(n);
          this.epoch := epoch;
          return Ok(());
        }
      }
      assert Spec.IndexOf(View().recent, epoch) == |recentBlocks|;
      return Err(Spec.NotFound);
    }

    /** The walk of `Recovery`: merges as it goes and stops at the named block. */
    method Walk(epoch: U64) returns (mutations: Overlay.Mutations, n: nat)
      requires Valid()
      ensures n == Spec.IndexOf(View().recent, epoch)
      ensures mutations == Spec.Gather(Spec.Walked(View().recent, epoch), checksumEpoch, epoch)
    {
      ghost var recent := Views(recentBlocks);
      mutations, n := map[], 0;
      while n < |recentBlocks|
        invariant 0 <= n <= |recentBlocks|
        invariant forall i :: 0 <= i < n ==> recent[i].epoch != epoch
        invariant mutations == Spec.Gather(recent[..n], checksumEpoch, epoch)
      {
        var block := recentBlocks[n];
        assert recent[n] == block.View();
        GatherOneMore(recent, n, checksumEpoch, epoch);
        if block.epoch == Next(checksumEpoch) {
          mutations := block.mutations;
        } else if block.epoch > Next(checksumEpoch) && block.epoch <= epoch {
          mutations := Overlay.Merge(mutations, block.mutations);
        }
        if block.epoch == epoch {
          break;
        }
        n := n + 1;
      }
      WalkedTo(recent, epoch, n);
    }

    /** Lines 208-210. */
    method Restore(epoch: U64, mutations: Overlay.Mutations)
      requires Valid()
      modifies this`commitEpoch, commit
      ensures Valid() && Repr() == old(Repr())
      ensures var c := old(View());
              View() == c.(state := Overlay.Incorporate(c.saved, mutations), commitEpoch := epoch)
    {
      commit.Recover();
      commit.Incorporate(mutations);
      commitEpoch := epoch;
      assert Views(recentBlocks) == old(Views(recentBlocks));
    }

    method Recovery(epoch: U64)
      requires Valid()
      modifies this, commit
      ensures Valid() && Repr() <= old(Repr())
      ensures View() == Spec.Recovery(old(View()), epoch)
    {
      if epoch < checksumEpoch || epoch >= commitEpoch {
        return;
      }
      var mutations, n := Walk(epoch);
      CutAt(n);
      Restore(epoch, mutations);
    }
  }
}
