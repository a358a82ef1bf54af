/** Concrete runs, each legal for the chain, on the failing side of the chain's exact conditions. */
module ChainExamples {
  import opened ChainInvariant
  import opened ChainRecovery
  import opened ChainReplay
  import opened Codec
  import opened Overlay
  import opened SocialChain
  import opened Wrappers

  /** A protocol that stores every action under itself; two list hashes tell no actions from some. */
  function StoreEverything(): Rules {
    Rules((s, a) => Some(map[a := Put(a)]), a => Zeros(HASH_SIZE),
          l => seq(HASH_SIZE, i => if l == [] then 0 else 1), None)
  }

  /** A block of that epoch with one action, opened on top of the chain. */
  function WithBlock(c: Chain, epoch: U64, action: Bytes): Chain {
    Validate(StoreEverything(), NextBlock(c, epoch).chain, action).0
  }

  /** Sealing the live block, both calls. */
  function Sealed(c: Chain, epoch: U64): Chain {
    SealBlock(StoreEverything(), SealBlock(StoreEverything(), c, epoch, Zeros(HASH_SIZE)).chain, epoch, Zeros(HASH_SIZE)).chain
  }

  function Committed(c: Chain, epoch: U64): Chain {
    Commit(StoreEverything(), c, epoch, []).chain
  }

  /** Open, seal and commit one block holding one action. */
  function OneMore(c: Chain, epoch: U64, action: Bytes): Chain {
    Committed(Sealed(WithBlock(c, epoch, action), epoch), epoch)
  }

  function BlockAt(c: Chain, epoch: U64, action: Bytes, status: Status): Block {
    Block(epoch, c.commitEpoch, Zeros(HASH_SIZE), [action], [], status,
          if status == STATUS_COMMIT then map[action := Put(action)] else map[])
  }

  /** No live block, and every kept block of another epoch. */
  predicate Closed(c: Chain, epoch: U64) {
    c.live.None? && epoch == Next(c.epoch) && forall i :: 0 <= i < |c.recent| ==> c.recent[i].epoch != epoch
  }

  lemma WithBlockIs(c: Chain, epoch: U64, action: Bytes)
    requires Closed(c, epoch) && action != []
    ensures WithBlock(c, epoch, action) ==
            c.(epoch := epoch, pending := map[action := Put(action)], live := Some(BlockAt(c, epoch, action, STATUS_LIVE)))
  {
    assert [] + [action] == [action];
    assert c.recent + [] == c.recent;
  }

  lemma SealedIs(c: Chain, d: Chain, epoch: U64, action: Bytes)
    requires Closed(c, epoch) && d.recent == c.recent && d.live == Some(BlockAt(c, epoch, action, STATUS_LIVE))
    ensures Sealed(d, epoch) == d.(live := None, recent := c.recent + [BlockAt(c, epoch, action, STATUS_SEALED)])
  {
    var retired := c.recent + [BlockAt(c, epoch, action, STATUS_LIVE)];
    assert retired[|c.recent|].epoch == epoch;
    assert forall i :: 0 <= i < |c.recent| ==> retired[i] == c.recent[i];
    assert IndexOf(retired, epoch) == |c.recent|;
  }

  lemma CommittedIs(c: Chain, d: Chain, epoch: U64, action: Bytes)
    requires Closed(c, epoch) && forall i :: 0 <= i < |c.recent| ==> c.recent[i].status == STATUS_COMMIT
    requires d.recent == c.recent + [BlockAt(c, epoch, action, STATUS_SEALED)]
    ensures Committed(d, epoch) ==
            d.(recent := c.recent + [BlockAt(c, epoch, action, STATUS_COMMIT)], commitEpoch := epoch,
               state := Incorporate(d.state, map[action := Put(action)]))
  {
    var n := |c.recent|;
    assert d.recent[n] == BlockAt(c, epoch, action, STATUS_SEALED);
    assert forall i :: 0 <= i < n ==> d.recent[i] == c.recent[i];
    assert CommitStop(d.recent, epoch) == n;
    RevalidateOne(d.state, action);
    assert d.recent[n := BlockAt(c, epoch, action, STATUS_COMMIT)] == c.recent + [BlockAt(c, epoch, action, STATUS_COMMIT)];
  }

  lemma RevalidateOne(s: State, action: Bytes)
    ensures Revalidate(StoreEverything(), s, SetOf([]), [action]) == Verdict([], map[action := Put(action)])
  {
    var overlay: Mutations := map[action := Put(action)];
    assert [action][..0] == [] && Merge(map[], overlay) == overlay;
    assert Revalidate(StoreEverything(), s, SetOf([]), []) == Verdict([], map[]);
  }

  lemma OneMoreIs(c: Chain, epoch: U64, action: Bytes)
    requires Closed(c, epoch) && action != []
    requires forall i :: 0 <= i < |c.recent| ==> c.recent[i].status == STATUS_COMMIT
    ensures OneMore(c, epoch, action) ==
            c.(epoch := epoch, pending := map[action := Put(action)], commitEpoch := epoch,
               recent := c.recent + [BlockAt(c, epoch, action, STATUS_COMMIT)],
               state := Incorporate(c.state, map[action := Put(action)]))
  {
    WithBlockIs(c, epoch, action);
    SealedIs(c, WithBlock(c, epoch, action), epoch, action);
    CommittedIs(c, Sealed(WithBlock(c, epoch, action), epoch), epoch, action);
  }

  /** A chain with nothing in it, at any epoch, committed up to some epoch. */
  function Bare(state: State, epoch: U64, commitEpoch: U64): Chain {
    Start(map[], 0).(epoch := epoch, commitEpoch := commitEpoch, state := state)
  }

  lemma PutOne(s: State, k: Bytes)
    ensures Incorporate(s, map[k := Put(k)]) == s[k := k]
  {
    assert Incorporate(s, map[k := Put(k)]).Keys == s[k := k].Keys;
  }

  /** One block with one action, committed; recovering to epoch 0 then leaves the action applied. */
  lemma RecoveryToChecksumFails()
    ensures var committed := OneMore(Start(map[], 0), 1, [7]);
            && committed.commitEpoch == 1 && TakesEffect(committed, 0)
            && Recovery(committed, 0).state == map[[7] := [7]] && Recovery(committed, 0).commitEpoch == 0
  {
    var start := Start(map[], 0);
    var committed := OneMore(start, 1, [7]);
    OneMoreIs(start, 1, [7]);
    assert committed.recent == [BlockAt(start, 1, [7], STATUS_COMMIT)];
    GatherAtChecksum(committed.recent, 0);
    PutOne(map[], [7]);
  }

  /** Two committed blocks, and a recovery to the first, which the cut drops. */
  function Recovered(): Chain {
    Recovery(OneMore(OneMore(Start(map[], 0), 1, [1]), 2, [2]), 1)
  }

  /** Recovering to the first kept block leaves that block's mutations on the saved state. */
  lemma RecoveryToFirst(c: Chain, epoch: U64)
    requires c.recent != [] && c.recent[0].epoch == epoch && c.checksumEpoch < epoch < c.commitEpoch
    ensures Recovery(c, epoch) ==
            c.(state := Incorporate(c.saved, c.recent[0].mutations), recent := [], commitEpoch := epoch, live := None)
  {
    var a := c.recent[0];
    assert IndexOf(c.recent, epoch) == 0 && Walked(c.recent, epoch) == [a];
    assert [a][..0] == [] && Merge(map[], a.mutations) == a.mutations;
    assert Gather([a], c.checksumEpoch, epoch) == a.mutations;
  }

  lemma RecoveredIs()
    ensures Recovered() == Bare(map[[1] := [1]], 2, 1).(pending := map[[2] := Put([2])])
  {
    var start := Start(map[], 0);
    var one := OneMore(start, 1, [1]);
    var two := OneMore(one, 2, [2]);
    OneMoreIs(start, 1, [1]);
    OneMoreIs(one, 2, [2]);
    var a, b := BlockAt(start, 1, [1], STATUS_COMMIT), BlockAt(one, 2, [2], STATUS_COMMIT);
    assert two.recent == [a, b];
    RecoveryToFirst(two, 1);
    PutOne(map[], [1]);
  }

  /** One more block after that recovery. */
  function Three(): Chain {
    OneMore(Recovered(), 3, [3])
  }

  lemma ThreeIs()
    ensures Three() == Bare(map[[1] := [1], [3] := [3]], 3, 3).(
                         pending := map[[3] := Put([3])], recent := [BlockAt(Recovered(), 3, [3], STATUS_COMMIT)])
  {
    RecoveredIs();
    OneMoreIs(Recovered(), 3, [3]);
    PutOne(map[[1] := [1]], [3]);
    assert [] + [BlockAt(Recovered(), 3, [3], STATUS_COMMIT)] == [BlockAt(Recovered(), 3, [3], STATUS_COMMIT)];
  }

  /** The later recovery of a block that is still held, as is everything committed since: the action
      of the block the earlier recovery dropped is lost. */
  lemma RecoveryForgets()
    ensures var four := OneMore(Three(), 4, [4]);
            && TakesEffect(four, 3) && IndexOf(four.recent, 3) < |four.recent| && Guard(four, RecoverTo(3))
            && Three().commitEpoch == 3 && Three().state == map[[1] := [1], [3] := [3]]
            && Recovery(four, 3).state == map[[3] := [3]]
  {
    ThreeIs();
    OneMoreIs(Three(), 4, [4]);
    RecoveryToFirst(OneMore(Three(), 4, [4]), 3);
    PutOne(map[], [3]);
  }

  lemma ThreeIsSound()
    ensures Inv(Three())
  {
    ThreeIs();
    RecoveredIs();
  }

  lemma RecoveryBelow(c: Chain, b: Block, epoch: U64)
    requires c.recent == [b] && b.status == STATUS_COMMIT && epoch < b.epoch && TakesEffect(c, epoch)
    ensures Recovery(c, epoch).commitEpoch == epoch && Recovery(c, epoch).recent == [b] && !Inv(Recovery(c, epoch))
  {
    assert IndexOf(c.recent, epoch) == 1 && [b][..1] == [b];
    assert Recovery(c, epoch).recent[0] == b;
  }

  /** A recovery to an epoch that is missing from the list, below a committed block: the block stays
      committed above the commit epoch. */
  lemma RecoveryBreaksInvariant()
    ensures Inv(Three()) && TakesEffect(Three(), 2)
    ensures var d := Recovery(Three(), 2);
            d.commitEpoch == 2 && d.recent == Three().recent && d.recent != [] && d.recent[0].epoch == 3 && !Inv(d)
  {
    ThreeIsSound();
    ThreeIs();
    RecoveryBelow(Three(), BlockAt(Recovered(), 3, [3], STATUS_COMMIT), 2);
  }

  /** Three open blocks, the second sealed, a rollback to the first, and epoch 2 again with an action
      in it: the hash the first seal answered with is not that of the list that is committed. */
  lemma ResealedHashIsStale()
    ensures var rules := StoreEverything();
            var three := NextBlock(NextBlock(NextBlock(Start(map[], 0), 1).chain, 2).chain, 3).chain;
            var first := SealBlock(rules, three, 2, Zeros(HASH_SIZE));
            var rolled := Rollback(first.chain, 1);
            var committed := OneMore(rolled.chain, 2, [7]);
            && first.result.Ok? && rolled.result.Ok? && committed.commitEpoch == 2
            && committed.recent[0].epoch == 2 && first.result.value != rules.hashList(committed.recent[0].actions)
  {
    var rules := StoreEverything();
    var three := NextBlock(NextBlock(NextBlock(Start(map[], 0), 1).chain, 2).chain, 3).chain;
    assert |three.recent| == 2 && three.recent[0].epoch == 1 && three.recent[1].epoch == 2 && three.recent[1].actions == [];
    assert IndexOf(three.recent, 2) == 1;
    var first := SealBlock(rules, three, 2, Zeros(HASH_SIZE));
    assert IndexOf(first.chain.recent, 1) == 0;
    var rolled := Rollback(first.chain, 1).chain;
    OneMoreIs(rolled, 2, [7]);
    assert rules.hashList([])[0] == 0 && rules.hashList([[7]])[0] == 1;
  }

  /** A protocol that takes every action once. */
  function TakeOnce(): Rules {
    StoreEverything().(execute := (s, a) => if a in s then None else Some(map[a := Put(a)]))
  }

  /** Two blocks accept the same action, the second while the first is not committed yet: committing
      the first invalidates the action in the second. */
  function Twice(): Chain {
    var rules := TakeOnce();
    var one := Validate(rules, NextBlock(Start(map[], 0), 1).chain, [7]).0;
    var two := Validate(rules, NextBlock(one, 2).chain, [7]).0;
    Commit(rules, SealBlock(rules, two, 1, Zeros(HASH_SIZE)).chain, 1, []).chain
  }

  lemma TwiceIs()
    ensures var c := Twice();
            && c.state == map[[7] := [7]] && c.commitEpoch == 1 && c.epoch == 2
            && c.live == Some(Block(2, 0, Zeros(HASH_SIZE), [[7]], [], STATUS_LIVE, map[]))
            && |c.recent| == 1 && c.recent[0].epoch == 1 && c.recent[0].status == STATUS_COMMIT
  {
    var rules := TakeOnce();
    var one := Validate(rules, NextBlock(Start(map[], 0), 1).chain, [7]).0;
    var two := Validate(rules, NextBlock(one, 2).chain, [7]).0;
    var none: State, overlay: Mutations := map[], map[[7] := Put([7])];
    assert Incorporate(none, map[]) == none && [] + [[7]] == [[7]];
    assert one.recent == [] && one.live.value.actions == [[7]];
    assert two.recent == [one.live.value.(status := STATUS_DONE, mutations := one.pending)];
    assert two.live == Some(Block(2, 0, Zeros(HASH_SIZE), [[7]], [], STATUS_LIVE, map[]));
    var sealed := SealBlock(rules, two, 1, Zeros(HASH_SIZE)).chain;
    assert IndexOf(two.recent, 1) == 0 && CommitStop(sealed.recent, 1) == 0;
    CommitIsSequential(rules, sealed, 1, []);
    TakenFirst();
    PutOne(none, [7]);
  }

  lemma TakenFirst()
    ensures Sequential(TakeOnce(), map[], Turns(TakeOnce(), [[7]], [])).state == Incorporate(map[], map[[7] := Put([7])])
    ensures Sequential(TakeOnce(), map[[7] := [7]], Turns(TakeOnce(), [[7]], [])).rejected == [[7]]
  {
    var turns := Turns(TakeOnce(), [[7]], []);
    assert SetOf([]) == {};
    assert turns[..0] == [] && turns[0] == Turn([7], false);
    assert Sequential(TakeOnce(), map[], []) == Outcome(map[], [], []);
    assert Sequential(TakeOnce(), map[[7] := [7]], []) == Outcome(map[[7] := [7]], [], []);
    assert [] + [[7]] == [[7]];
  }

  lemma TwiceSealed()
    ensures var rules := TakeOnce();
            var sealed := SealBlock(rules, SealBlock(rules, Twice(), 2, Zeros(HASH_SIZE)).chain, 2, Zeros(HASH_SIZE)).chain;
            && sealed.state == map[[7] := [7]] && CommitTarget(sealed.recent, 2) == Ok(1)
            && sealed.recent[1].actions == [[7]]
  {
    var rules, c := TakeOnce(), Twice();
    TwiceIs();
    var retired := SealBlock(rules, c, 2, Zeros(HASH_SIZE)).chain;
    assert retired.recent == [c.recent[0], c.live.value] && IndexOf(retired.recent, 2) == 1;
    var sealed := SealBlock(rules, retired, 2, Zeros(HASH_SIZE)).chain;
    assert sealed.recent[0] == c.recent[0] && CommitStop(sealed.recent, 2) == 1;
  }

  lemma OptimismFails()
    ensures var rules := TakeOnce();
            var sealed := SealBlock(rules, SealBlock(rules, Twice(), 2, Zeros(HASH_SIZE)).chain, 2, Zeros(HASH_SIZE)).chain;
            Commit(rules, sealed, 2, []).result == Ok([rules.hash([7])])
  {
    var rules := TakeOnce();
    var sealed := SealBlock(rules, SealBlock(rules, Twice(), 2, Zeros(HASH_SIZE)).chain, 2, Zeros(HASH_SIZE)).chain;
    TwiceSealed();
    CommitIsSequential(rules, sealed, 2, []);
    TakenFirst();
    assert [[7]][..0] == [];
    assert Hashes(rules, [[7]]) == Hashes(rules, []) + [rules.hash([7])] == [rules.hash([7])];
  }
}
