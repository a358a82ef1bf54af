/** Whole runs of the chain against the sequential machine: the commit state is that machine's state
    exactly as long as every recovery still holds what it needs, and `Recovery` lands where `Commit`
    stood under the same condition. */
module ChainRecovery {
  import opened ChainInvariant
  import opened ChainReplay
  import opened Codec
  import opened Overlay
  import opened SocialChain
  import opened Wrappers

  datatype Trace = Trace(chain: Chain, log: seq<Entry>)

  predicate TakesEffect(c: Chain, epoch: U64) {
    c.checksumEpoch <= epoch < c.commitEpoch
  }

  /** The commits that stand after a step: a commit adds one, a recovery drops those above it. */
  function LogAfter(rules: Rules, t: Trace, ev: Event): seq<Entry> {
    match ev
    case Accept(epoch, invalidated) =>
      var target := CommitTarget(t.chain.recent, epoch);
      if target.Err? then t.log
      else
        var actions := t.chain.recent[target.value].actions;
        t.log + [Entry(epoch, Turns(rules, actions, invalidated),
                       Revalidate(rules, t.chain.state, SetOf(invalidated), actions).mutations)]
    case RecoverTo(epoch) => if TakesEffect(t.chain, epoch) then KeptTo(t.log, epoch) else t.log
    case _ => t.log
  }

  function Traced(rules: Rules, c: Chain, events: seq<Event>): Trace {
    if events == [] then Trace(c, [])
    else
      var t := Traced(rules, c, events[..|events| - 1]);
      var ev := events[|events| - 1];
      Trace(Step(rules, t.chain, ev), LogAfter(rules, t, ev))
  }

  lemma {:induction false} TracedIsRun(rules: Rules, c: Chain, events: seq<Event>)
    ensures Traced(rules, c, events).chain == Run(rules, c, events)
  {
    if events != [] {
      TracedIsRun(rules, c, events[..|events| - 1]);
    }
  }

  lemma TracedOne(rules: Rules, c: Chain, events: seq<Event>, ev: Event)
    ensures Traced(rules, c, events + [ev]) ==
            Trace(Step(rules, Traced(rules, c, events).chain, ev), LogAfter(rules, Traced(rules, c, events), ev))
  {
    assert (events + [ev])[..|events|] == events;
  }

  function EpochsOf(blocks: seq<Block>): set<U64> {
    set b | b in blocks :: b.epoch
  }

  /** What an effective recovery must still hold: above the checksum epoch, every last change of the
      commits up to its target; at the checksum epoch, no first block that changes anything. */
  ghost predicate Restores(c: Chain, log: seq<Entry>, epoch: U64) {
    if c.checksumEpoch < epoch then NothingLost(c.saved, KeptTo(log, epoch), EpochsOf(c.recent))
    else
      c.recent != [] && c.recent[0].epoch == c.checksumEpoch + 1 ==>
        Incorporate(c.saved, c.recent[0].mutations) == c.saved
  }

  ghost predicate Restoring(t: Trace, ev: Event) {
    ev.RecoverTo? && TakesEffect(t.chain, ev.epoch) ==> Restores(t.chain, t.log, ev.epoch)
  }

  ghost predicate IsFresh(c: Chain) {
    c.recent == [] && c.live.None? && c.saved == c.state && c.checksumEpoch <= c.epoch == c.commitEpoch
  }

  ghost predicate Logged(log: seq<Entry>, b: Block) {
    exists i :: 0 <= i < |log| && log[i].epoch == b.epoch && log[i].mutations == b.mutations
  }

  ghost predicate Ordered(log: seq<Entry>, low: U64, high: U64) {
    InOrder(log) && forall i :: 0 <= i < |log| ==> low < log[i].epoch <= high
  }

  /** Each committed block that is still held carries the mutations its log entry recorded. */
  ghost predicate AllLogged(recent: seq<Block>, log: seq<Entry>, low: U64) {
    forall i :: 0 <= i < |recent| ==>
      && low < recent[i].epoch
      && (recent[i].status == STATUS_COMMIT ==> Logged(log, recent[i]))
  }

  ghost predicate Aligned(c0: Chain, t: Trace) {
    && Inv(t.chain)
    && t.chain.saved == c0.saved && t.chain.checksumEpoch == c0.checksumEpoch <= t.chain.commitEpoch
    && Ordered(t.log, c0.checksumEpoch, t.chain.commitEpoch)
    && AllLogged(t.chain.recent, t.log, c0.checksumEpoch)
  }

  ghost predicate Faithful(rules: Rules, start: State, t: Trace) {
    && Replays(rules, start, t.log)
    && t.chain.state == Sequential(rules, start, AllTurns(t.log)).state
  }

  ghost predicate TraceInv(rules: Rules, c0: Chain, t: Trace) {
    Aligned(c0, t) && Faithful(rules, c0.saved, t)
  }

  // ----- what a recovery gathers -----

  /** The blocks up to an epoch. */
  function BlocksTo(blocks: seq<Block>, epoch: U64): seq<Block> {
    if blocks != [] && blocks[|blocks| - 1].epoch > epoch then BlocksTo(blocks[..|blocks| - 1], epoch) else blocks
  }

  lemma {:induction false} BlocksToIsPrefix(blocks: seq<Block>, epoch: U64)
    requires Increasing(blocks)
    ensures var kept := BlocksTo(blocks, epoch);
            && |kept| <= |blocks| && kept == blocks[..|kept|]
            && forall i :: 0 <= i < |blocks| ==> (blocks[i].epoch <= epoch <==> i < |kept|)
  {
    if blocks != [] && blocks[|blocks| - 1].epoch > epoch {
      BlocksToIsPrefix(blocks[..|blocks| - 1], epoch);
    }
  }

  lemma {:induction false} GatherStops(blocks: seq<Block>, checksum: U64, epoch: U64)
    requires checksum < epoch
    ensures Gather(blocks, checksum, epoch) == Gather(BlocksTo(blocks, epoch), checksum, epoch)
  {
    if blocks != [] && blocks[|blocks| - 1].epoch > epoch {
      GatherStops(blocks[..|blocks| - 1], checksum, epoch);
    }
  }

  /** Where the walk ends makes no difference: later blocks are passed over anyway. */
  lemma WalkGathers(blocks: seq<Block>, checksum: U64, epoch: U64)
    requires Increasing(blocks) && checksum < epoch
    ensures Gather(Walked(blocks, epoch), checksum, epoch) == Gather(BlocksTo(blocks, epoch), checksum, epoch)
  {
    var n := IndexOf(blocks, epoch);
    if n < |blocks| {
      BlocksToIsPrefix(blocks, epoch);
      assert n < |BlocksTo(blocks, epoch)| && (n + 1 < |blocks| ==> blocks[n].epoch < blocks[n + 1].epoch);
      assert |BlocksTo(blocks, epoch)| == n + 1;
    } else {
      GatherStops(blocks, checksum, epoch);
    }
  }

  lemma GatherMerges(blocks: seq<Block>, checksum: U64, epoch: U64)
    requires blocks != [] && checksum < epoch && Increasing(blocks)
    requires forall i :: 0 <= i < |blocks| ==> checksum < blocks[i].epoch <= epoch
    ensures Gather(blocks, checksum, epoch) ==
            Merge(Gather(blocks[..|blocks| - 1], checksum, epoch), blocks[|blocks| - 1].mutations)
  {
    var last := |blocks| - 1;
    assert last > 0 ==> blocks[last - 1].epoch < blocks[last].epoch;
  }

  ghost predicate LoggedUpTo(blocks: seq<Block>, log: seq<Entry>, checksum: U64, epoch: U64) {
    forall i :: 0 <= i < |blocks| ==> checksum < blocks[i].epoch <= epoch && Logged(log, blocks[i])
  }

  lemma LoggedBefore(log: seq<Entry>, last: Entry, b: Block)
    requires InOrder(log + [last]) && Logged(log + [last], b) && b.epoch != last.epoch
    ensures Logged(log, b) && b.epoch < last.epoch
  {
    var i :| 0 <= i < |log + [last]| && (log + [last])[i].epoch == b.epoch && (log + [last])[i].mutations == b.mutations;
    assert log[i] == (log + [last])[i] && (log + [last])[|log|] == last;
  }

  lemma LoggedLast(log: seq<Entry>, last: Entry, b: Block)
    requires InOrder(log + [last]) && Logged(log + [last], b) && b.epoch == last.epoch
    ensures b.mutations == last.mutations
  {
    var i :| 0 <= i < |log + [last]| && (log + [last])[i].epoch == b.epoch && (log + [last])[i].mutations == b.mutations;
    assert (log + [last])[|log|] == last;
  }

  lemma FrontIsLogged(before: seq<Block>, b: Block, front: seq<Entry>, last: Entry, checksum: U64, epoch: U64)
    requires Increasing(before + [b]) && InOrder(front + [last]) && LoggedUpTo(before + [b], front + [last], checksum, epoch)
    requires b.epoch == last.epoch
    ensures Increasing(before) && InOrder(front) && LoggedUpTo(before, front, checksum, epoch) && b.mutations == last.mutations
    ensures forall i :: 0 <= i < |front| ==> (front[i].epoch in EpochsOf(before) <==> front[i].epoch in EpochsOf(before + [b]))
  {
    var blocks, log := before + [b], front + [last];
    assert blocks[|before|] == b && log[|front|] == last;
    assert forall i :: 0 <= i < |front| ==> log[i] == front[i];
    LoggedLast(front, last, b);
    forall i | 0 <= i < |before| ensures before[i] == blocks[i] && before[i].epoch < b.epoch && Logged(front, before[i]) {
      LoggedBefore(front, last, blocks[i]);
    }
  }

  lemma AllAreLoggedBefore(blocks: seq<Block>, front: seq<Entry>, last: Entry, checksum: U64, epoch: U64)
    requires Increasing(blocks) && InOrder(front + [last]) && LoggedUpTo(blocks, front + [last], checksum, epoch)
    requires blocks != [] ==> blocks[|blocks| - 1].epoch != last.epoch
    ensures InOrder(front) && LoggedUpTo(blocks, front, checksum, epoch) && last.epoch !in EpochsOf(blocks)
  {
    assert forall i :: 0 <= i < |front| ==> (front + [last])[i] == front[i];
    forall i | 0 <= i < |blocks| ensures Logged(front, blocks[i]) && blocks[i].epoch != last.epoch {
      LoggedBefore(front, last, blocks[|blocks| - 1]);
      assert i < |blocks| - 1 ==> blocks[i].epoch < blocks[|blocks| - 1].epoch;
      LoggedBefore(front, last, blocks[i]);
    }
  }

  lemma MergeHeldOne(front: seq<Entry>, last: Entry, held: set<U64>)
    ensures MergeHeld(front + [last], held) ==
            if last.epoch in held then Merge(MergeHeld(front, held), last.mutations) else MergeHeld(front, held)
  {
    assert (front + [last])[..|front|] == front;
  }

  lemma LastIsHeld(before: seq<Block>, b: Block)
    ensures b.epoch in EpochsOf(before + [b])
  {
    assert b in before + [b];
  }

  /** What `Recovery` gathers is the log, as far as its blocks are held. */
  lemma {:induction false} GatherIsHeld(blocks: seq<Block>, log: seq<Entry>, checksum: U64, epoch: U64)
    requires checksum < epoch && Increasing(blocks) && InOrder(log) && LoggedUpTo(blocks, log, checksum, epoch)
    ensures Gather(blocks, checksum, epoch) == MergeHeld(log, EpochsOf(blocks))
    decreases |log|
  {
    if log == [] {
      assert blocks == [];
    } else {
      var front, last := log[..|log| - 1], log[|log| - 1];
      assert log == front + [last];
      MergeHeldOne(front, last, EpochsOf(blocks));
      if blocks != [] && blocks[|blocks| - 1].epoch == last.epoch {
        var before, b := blocks[..|blocks| - 1], blocks[|blocks| - 1];
        assert blocks == before + [b];
        FrontIsLogged(before, b, front, last, checksum, epoch);
        LastIsHeld(before, b);
        GatherMerges(blocks, checksum, epoch);
        GatherIsHeld(before, front, checksum, epoch);
        MergeHeldAlike(front, EpochsOf(before), EpochsOf(blocks));
      } else {
        AllAreLoggedBefore(blocks, front, last, checksum, epoch);
        GatherIsHeld(blocks, front, checksum, epoch);
      }
    }
  }

  /** The blocks up to the target are committed, and their entries are kept. */
  lemma BlocksToAreLogged(c0: Chain, t: Trace, epoch: U64)
    requires Aligned(c0, t) && TakesEffect(t.chain, epoch)
    ensures LoggedUpTo(BlocksTo(t.chain.recent, epoch), KeptTo(t.log, epoch), c0.checksumEpoch, epoch)
  {
    var recent, kept := t.chain.recent, KeptTo(t.log, epoch);
    var blocks := BlocksTo(recent, epoch);
    BlocksToIsPrefix(recent, epoch);
    KeptToIsPrefix(t.log, epoch);
    forall i | 0 <= i < |blocks| ensures c0.checksumEpoch < blocks[i].epoch <= epoch && Logged(kept, blocks[i]) {
      assert blocks[i] == recent[i];
      LoggedStays(t.log, kept, recent[i]);
    }
  }

  /** Above the checksum epoch a recovery gathers the held part of the log. */
  lemma WalkIsHeldPart(recent: seq<Block>, kept: seq<Entry>, checksum: U64, epoch: U64)
    requires Increasing(recent) && InOrder(kept) && checksum < epoch
    requires forall i :: 0 <= i < |kept| ==> kept[i].epoch <= epoch
    requires LoggedUpTo(BlocksTo(recent, epoch), kept, checksum, epoch)
    ensures Gather(Walked(recent, epoch), checksum, epoch) == MergeHeld(kept, EpochsOf(recent))
  {
    var blocks := BlocksTo(recent, epoch);
    WalkGathers(recent, checksum, epoch);
    BlocksToIsPrefix(recent, epoch);
    GatherIsHeld(blocks, kept, checksum, epoch);
    SameUpTo(recent, blocks, kept, epoch);
    MergeHeldAlike(kept, EpochsOf(blocks), EpochsOf(recent));
  }

  lemma RecoveryIsHeldPart(c: Chain, kept: seq<Entry>, epoch: U64)
    requires TakesEffect(c, epoch) && c.checksumEpoch < epoch && Increasing(c.recent)
    requires InOrder(kept) && forall i :: 0 <= i < |kept| ==> kept[i].epoch <= epoch
    requires LoggedUpTo(BlocksTo(c.recent, epoch), kept, c.checksumEpoch, epoch)
    ensures Recovery(c, epoch).state == Incorporate(c.saved, MergeHeld(kept, EpochsOf(c.recent)))
  {
    WalkIsHeldPart(c.recent, kept, c.checksumEpoch, epoch);
  }

  lemma LoggedStays(log: seq<Entry>, kept: seq<Entry>, b: Block)
    requires |kept| <= |log| && kept == log[..|kept|] && Logged(log, b)
    requires forall i :: 0 <= i < |log| && log[i].epoch == b.epoch ==> i < |kept|
    ensures Logged(kept, b)
  {
    var i :| 0 <= i < |log| && log[i].epoch == b.epoch && log[i].mutations == b.mutations;
    assert kept[i] == log[i];
  }

  lemma SameUpTo(recent: seq<Block>, blocks: seq<Block>, kept: seq<Entry>, epoch: U64)
    requires |blocks| <= |recent| && blocks == recent[..|blocks|]
    requires forall i :: 0 <= i < |recent| ==> (recent[i].epoch <= epoch <==> i < |blocks|)
    requires forall i :: 0 <= i < |kept| ==> kept[i].epoch <= epoch
    ensures forall i :: 0 <= i < |kept| ==> (kept[i].epoch in EpochsOf(blocks) <==> kept[i].epoch in EpochsOf(recent))
  {
    forall i | 0 <= i < |kept| && kept[i].epoch in EpochsOf(recent) ensures kept[i].epoch in EpochsOf(blocks) {
      var j :| 0 <= j < |recent| && recent[j].epoch == kept[i].epoch;
      assert blocks[j] == recent[j];
    }
    forall i | 0 <= i < |kept| && kept[i].epoch in EpochsOf(blocks) ensures kept[i].epoch in EpochsOf(recent) {
      var j :| 0 <= j < |blocks| && blocks[j].epoch == kept[i].epoch;
      assert recent[j] == blocks[j] && recent[j] in recent;
    }
  }

  lemma {:induction false} GatherAtChecksum(blocks: seq<Block>, checksum: U64)
    requires Increasing(blocks) && checksum < TWO_64 - 1
    requires forall i :: 0 <= i < |blocks| ==> checksum < blocks[i].epoch
    ensures Gather(blocks, checksum, checksum) ==
            if blocks != [] && blocks[0].epoch == checksum + 1 then blocks[0].mutations else map[]
  {
    if blocks != [] {
      var last := |blocks| - 1;
      GatherAtChecksum(blocks[..last], checksum);
      assert last > 0 ==> blocks[0].epoch < blocks[last].epoch;
    }
  }

  /** At the checksum epoch itself no block stops the walk (chain.go lines 196-207), which incorporates
      the next block. The checksum state comes back exactly when that block is gone or changes
      nothing. */
  lemma RecoveryToChecksumIff(c: Chain)
    requires Inv(c) && TakesEffect(c, c.checksumEpoch)
    requires forall i :: 0 <= i < |c.recent| ==> c.checksumEpoch < c.recent[i].epoch
    ensures Recovery(c, c.checksumEpoch).state == c.saved <==>
            (c.recent != [] && c.recent[0].epoch == c.checksumEpoch + 1 ==>
               Incorporate(c.saved, c.recent[0].mutations) == c.saved)
  {
    GatherAtChecksum(c.recent, c.checksumEpoch);
    IncorporateNothing(c.saved);
  }

  lemma HeldPartRestoresIff(rules: Rules, c: Chain, kept: seq<Entry>, epoch: U64)
    requires TakesEffect(c, epoch) && c.checksumEpoch < epoch && Increasing(c.recent)
    requires InOrder(kept) && forall i :: 0 <= i < |kept| ==> kept[i].epoch <= epoch
    requires LoggedUpTo(BlocksTo(c.recent, epoch), kept, c.checksumEpoch, epoch)
    requires Replays(rules, c.saved, kept)
    ensures Recovery(c, epoch).state == Sequential(rules, c.saved, AllTurns(kept)).state <==>
            NothingLost(c.saved, kept, EpochsOf(c.recent))
  {
    RecoveryIsHeldPart(c, kept, epoch);
    MergeReplays(rules, c.saved, kept);
    HeldSufficesIff(c.saved, kept, EpochsOf(c.recent));
  }

  lemma ChecksumRestoresIff(rules: Rules, c: Chain, log: seq<Entry>)
    requires Inv(c) && TakesEffect(c, c.checksumEpoch)
    requires forall i :: 0 <= i < |c.recent| ==> c.checksumEpoch < c.recent[i].epoch
    requires forall i :: 0 <= i < |log| ==> c.checksumEpoch < log[i].epoch
    ensures var replay := Sequential(rules, c.saved, AllTurns(KeptTo(log, c.checksumEpoch))).state;
            Recovery(c, c.checksumEpoch).state == replay <==> Restores(c, log, c.checksumEpoch)
  {
    NothingKept(log, c.checksumEpoch);
    RecoveryToChecksumIff(c);
  }

  lemma {:induction false} NothingKept(log: seq<Entry>, epoch: U64)
    requires forall i :: 0 <= i < |log| ==> epoch < log[i].epoch
    ensures KeptTo(log, epoch) == []
  {
    if log != [] {
      NothingKept(log[..|log| - 1], epoch);
    }
  }

  lemma AboveChecksumRestoresIff(rules: Rules, c0: Chain, t: Trace, epoch: U64)
    requires TraceInv(rules, c0, t) && TakesEffect(t.chain, epoch) && t.chain.checksumEpoch < epoch
    ensures var replay := Sequential(rules, t.chain.saved, AllTurns(KeptTo(t.log, epoch))).state;
            Recovery(t.chain, epoch).state == replay <==>
            NothingLost(t.chain.saved, KeptTo(t.log, epoch), EpochsOf(t.chain.recent))
  {
    BlocksToAreLogged(c0, t, epoch);
    KeptToIsPrefix(t.log, epoch);
    KeptToReplays(rules, c0.saved, t.log, epoch);
    HeldPartRestoresIff(rules, t.chain, KeptTo(t.log, epoch), epoch);
  }

  /** One recovery, at any effective target: its state is the replay of the commits up to the target
      exactly when it still holds what that takes. */
  lemma {:induction false} RecoveryRestoresIff(rules: Rules, c0: Chain, t: Trace, epoch: U64)
    requires TraceInv(rules, c0, t) && TakesEffect(t.chain, epoch)
    ensures var replay := Sequential(rules, t.chain.saved, AllTurns(KeptTo(t.log, epoch))).state;
            Recovery(t.chain, epoch).state == replay <==> Restores(t.chain, t.log, epoch)
  {
    if t.chain.checksumEpoch < epoch {
      AboveChecksumRestoresIff(rules, c0, t, epoch);
    } else {
      ChecksumRestoresIff(rules, t.chain, t.log);
    }
  }

  // ----- steps -----

  lemma RecoveryKeepsAligned(c0: Chain, t: Trace, epoch: U64)
    requires Aligned(c0, t) && TakesEffect(t.chain, epoch) && Guard(t.chain, RecoverTo(epoch))
    ensures Aligned(c0, Trace(Recovery(t.chain, epoch), KeptTo(t.log, epoch)))
  {
    var c, d, kept := t.chain, Recovery(t.chain, epoch), KeptTo(t.log, epoch);
    assert Inv(d) by {
      RecoveryKeepsInvariantIff(c, epoch);
    }
    KeptToIsPrefix(t.log, epoch);
    forall i | 0 <= i < |d.recent|
      ensures c0.checksumEpoch < d.recent[i].epoch
      ensures d.recent[i].status == STATUS_COMMIT ==> Logged(kept, d.recent[i])
    {
      assert d.recent[i] == c.recent[i];
      if d.recent[i].status == STATUS_COMMIT {
        assert d.recent[i].epoch <= epoch;
        LoggedStays(t.log, kept, c.recent[i]);
      }
    }
  }

  lemma RecoveryKeepsTraceIff(rules: Rules, c0: Chain, t: Trace, epoch: U64)
    requires TraceInv(rules, c0, t) && Guard(t.chain, RecoverTo(epoch))
    ensures var u := Trace(Recovery(t.chain, epoch), LogAfter(rules, t, RecoverTo(epoch)));
            && (Restoring(t, RecoverTo(epoch)) ==> TraceInv(rules, c0, u))
            && (u.chain.state == Sequential(rules, c0.saved, AllTurns(u.log)).state <==> Restoring(t, RecoverTo(epoch)))
  {
    if TakesEffect(t.chain, epoch) {
      RecoveryKeepsAligned(c0, t, epoch);
      RecoveryRestoresIff(rules, c0, t, epoch);
      KeptToReplays(rules, c0.saved, t.log, epoch);
    }
  }

  lemma LoggedGrows(log: seq<Entry>, entry: Entry, b: Block)
    ensures Logged(log, b) ==> Logged(log + [entry], b)
    ensures entry.epoch == b.epoch && entry.mutations == b.mutations ==> Logged(log + [entry], b)
  {
    if Logged(log, b) {
      var k :| 0 <= k < |log| && log[k].epoch == b.epoch && log[k].mutations == b.mutations;
      assert (log + [entry])[k] == log[k];
    }
    assert (log + [entry])[|log|] == entry;
  }

  lemma CommitKeepsAligned(rules: Rules, c0: Chain, t: Trace, epoch: U64, invalidated: seq<Hash>)
    requires Aligned(c0, t)
    ensures Aligned(c0, Trace(Commit(rules, t.chain, epoch, invalidated).chain, LogAfter(rules, t, Accept(epoch, invalidated))))
  {
    var c := t.chain;
    var d := Commit(rules, c, epoch, invalidated).chain;
    CommitKeepsInvariant(rules, c, epoch, invalidated);
    if CommitTarget(c.recent, epoch).Ok? {
      var n := CommitTarget(c.recent, epoch).value;
      var log := LogAfter(rules, t, Accept(epoch, invalidated));
      assert log == t.log + [log[|t.log|]] && log[|t.log|].epoch == epoch;
      forall i | 0 <= i < |d.recent|
        ensures c0.checksumEpoch < d.recent[i].epoch
        ensures d.recent[i].status == STATUS_COMMIT ==> Logged(log, d.recent[i])
      {
        assert i != n ==> d.recent[i] == c.recent[i];
        LoggedGrows(t.log, log[|t.log|], d.recent[i]);
      }
    }
  }

  lemma EntryKeepsFaithful(rules: Rules, start: State, t: Trace, d: Chain, entry: Entry)
    requires Faithful(rules, start, t) && d.state == Incorporate(t.chain.state, entry.mutations)
    requires Incorporate(t.chain.state, entry.mutations) == Sequential(rules, t.chain.state, entry.turns).state
    ensures Faithful(rules, start, Trace(d, t.log + [entry]))
  {
    ReplaysAppend(rules, start, t.log, entry);
  }

  lemma CommitKeepsFaithful(rules: Rules, start: State, t: Trace, epoch: U64, invalidated: seq<Hash>)
    requires Faithful(rules, start, t)
    ensures Faithful(rules, start, Trace(Commit(rules, t.chain, epoch, invalidated).chain, LogAfter(rules, t, Accept(epoch, invalidated))))
  {
    if CommitTarget(t.chain.recent, epoch).Ok? {
      var actions := t.chain.recent[CommitTarget(t.chain.recent, epoch).value].actions;
      var mutations := Revalidate(rules, t.chain.state, SetOf(invalidated), actions).mutations;
      RevalidateIsSequential(rules, t.chain.state, invalidated, actions);
      EntryKeepsFaithful(rules, start, t, Commit(rules, t.chain, epoch, invalidated).chain,
                         Entry(epoch, Turns(rules, actions, invalidated), mutations));
    }
  }

  lemma NextBlockKeepsAligned(c0: Chain, t: Trace, epoch: U64)
    requires Aligned(c0, t) && Guard(t.chain, OpenBlock(epoch))
    ensures Aligned(c0, Trace(NextBlock(t.chain, epoch).chain, t.log))
    ensures NextBlock(t.chain, epoch).chain.state == t.chain.state
  {
    OpenKeepsInvariantIff(t.chain, epoch);
  }

  lemma SealKeepsAligned(rules: Rules, c0: Chain, t: Trace, epoch: U64, origin: Hash)
    requires Aligned(c0, t)
    ensures Aligned(c0, Trace(SealBlock(rules, t.chain, epoch, origin).chain, t.log))
    ensures SealBlock(rules, t.chain, epoch, origin).chain.state == t.chain.state
  {
    SealKeepsInvariant(rules, t.chain, epoch, origin);
  }

  lemma ValidateKeepsTrace(rules: Rules, c0: Chain, t: Trace, action: Bytes)
    requires TraceInv(rules, c0, t)
    ensures TraceInv(rules, c0, Trace(Validate(rules, t.chain, action).0, t.log))
  {
    ValidateKeepsInvariant(rules, t.chain, action);
    var d := Validate(rules, t.chain, action).0;
    assert d.recent == t.chain.recent && d.state == t.chain.state;
  }

  lemma RollbackKeepsAligned(c0: Chain, t: Trace, epoch: U64)
    requires Aligned(c0, t)
    ensures Aligned(c0, Trace(Rollback(t.chain, epoch).chain, t.log))
    ensures Rollback(t.chain, epoch).chain.state == t.chain.state
  {
    RollbackKeepsInvariant(t.chain, epoch);
  }

  lemma CommitKeepsTrace(rules: Rules, c0: Chain, t: Trace, epoch: U64, invalidated: seq<Hash>)
    requires TraceInv(rules, c0, t)
    ensures TraceInv(rules, c0, Trace(Commit(rules, t.chain, epoch, invalidated).chain, LogAfter(rules, t, Accept(epoch, invalidated))))
  {
    CommitKeepsAligned(rules, c0, t, epoch, invalidated);
    CommitKeepsFaithful(rules, c0.saved, t, epoch, invalidated);
  }

  lemma PlainStepKeepsTrace(rules: Rules, c0: Chain, t: Trace, ev: Event)
    requires TraceInv(rules, c0, t) && Guard(t.chain, ev) && !ev.RecoverTo?
    ensures TraceInv(rules, c0, Trace(Step(rules, t.chain, ev), LogAfter(rules, t, ev)))
  {
    match ev
    case OpenBlock(epoch) => NextBlockKeepsAligned(c0, t, epoch);
    case Submit(action) => ValidateKeepsTrace(rules, c0, t, action);
    case Seal(epoch, origin) => SealKeepsAligned(rules, c0, t, epoch, origin);
    case Accept(epoch, invalidated) => CommitKeepsTrace(rules, c0, t, epoch, invalidated);
    case RollTo(epoch) => RollbackKeepsAligned(c0, t, epoch);
  }

  /** A guarded step keeps the state sequential exactly when it restores. */
  lemma {:induction false} StepKeepsTraceIff(rules: Rules, c0: Chain, t: Trace, ev: Event)
    requires TraceInv(rules, c0, t) && Guard(t.chain, ev)
    ensures var u := Trace(Step(rules, t.chain, ev), LogAfter(rules, t, ev));
            && (Restoring(t, ev) ==> TraceInv(rules, c0, u))
            && (u.chain.state == Sequential(rules, c0.saved, AllTurns(u.log)).state <==> Restoring(t, ev))
  {
    if ev.RecoverTo? {
      RecoveryKeepsTraceIff(rules, c0, t, ev.epoch);
    } else {
      PlainStepKeepsTrace(rules, c0, t, ev);
    }
  }

  // ----- runs -----

  ghost predicate AllRestoring(rules: Rules, c: Chain, events: seq<Event>) {
    events != [] ==>
      && AllRestoring(rules, c, events[..|events| - 1])
      && Restoring(Traced(rules, c, events[..|events| - 1]), events[|events| - 1])
  }

  /** At every moment of the run the commit state is the sequential machine's after the standing
      commits' actions, one at a time. */
  ghost predicate AlwaysSequential(rules: Rules, c: Chain, events: seq<Event>) {
    && Run(rules, c, events).state == Sequential(rules, c.saved, AllTurns(Traced(rules, c, events).log)).state
    && (events != [] ==> AlwaysSequential(rules, c, events[..|events| - 1]))
  }

  lemma {:induction false} RunKeepsTrace(rules: Rules, c0: Chain, events: seq<Event>)
    requires IsFresh(c0) && AllGuarded(rules, c0, events) && AllRestoring(rules, c0, events)
    ensures TraceInv(rules, c0, Traced(rules, c0, events))
  {
    if events != [] {
      var front := events[..|events| - 1];
      RunKeepsTrace(rules, c0, front);
      TracedIsRun(rules, c0, front);
      StepKeepsTraceIff(rules, c0, Traced(rules, c0, front), events[|events| - 1]);
    }
  }

  /** The commit state of a guarded run from a fresh chain is sequential at every moment exactly when
      every effective recovery restores: live validators, block boundaries and rollbacks leave no
      mark at all. */
  lemma {:induction false} RunIsSequentialIff(rules: Rules, c0: Chain, events: seq<Event>)
    requires IsFresh(c0) && AllGuarded(rules, c0, events)
    ensures AlwaysSequential(rules, c0, events) <==> AllRestoring(rules, c0, events)
  {
    TracedIsRun(rules, c0, events);
    if events != [] {
      var front := events[..|events| - 1];
      RunIsSequentialIff(rules, c0, front);
      if AllRestoring(rules, c0, front) {
        RunKeepsTrace(rules, c0, front);
        TracedIsRun(rules, c0, front);
        StepKeepsTraceIff(rules, c0, Traced(rules, c0, front), events[|events| - 1]);
      }
    }
  }

  // ----- a condition on the chain alone -----

  /** The chain still holds every epoch from the checksum up to the target. */
  predicate Contiguous(c: Chain, epoch: U64) {
    c.checksumEpoch < epoch && forall e: U64 :: c.checksumEpoch < e <= epoch ==> IndexOf(c.recent, e) < |c.recent|
  }

  lemma {:induction false} ContiguousRestores(rules: Rules, c0: Chain, t: Trace, epoch: U64)
    requires TraceInv(rules, c0, t) && Contiguous(t.chain, epoch)
    ensures Restores(t.chain, t.log, epoch)
  {
    var kept, recent := KeptTo(t.log, epoch), t.chain.recent;
    KeptToIsPrefix(t.log, epoch);
    forall i | 0 <= i < |kept| ensures kept[i].epoch in EpochsOf(recent) {
      assert kept[i] == t.log[i];
      assert recent[IndexOf(recent, kept[i].epoch)] in recent;
    }
  }

  ghost predicate ContiguousRecoveries(rules: Rules, c: Chain, events: seq<Event>) {
    events != [] ==>
      && ContiguousRecoveries(rules, c, events[..|events| - 1])
      && var d := Run(rules, c, events[..|events| - 1]);
         var ev := events[|events| - 1];
         ev.RecoverTo? && TakesEffect(d, ev.epoch) ==> Contiguous(d, ev.epoch)
  }

  /** What a caller can check on the chain: recoveries whose blocks are all still held restore. */
  lemma {:induction false} ContiguousRunRestores(rules: Rules, c0: Chain, events: seq<Event>)
    requires IsFresh(c0) && AllGuarded(rules, c0, events) && ContiguousRecoveries(rules, c0, events)
    ensures AllRestoring(rules, c0, events)
  {
    if events != [] {
      var front, ev := events[..|events| - 1], events[|events| - 1];
      ContiguousRunRestores(rules, c0, front);
      RunKeepsTrace(rules, c0, front);
      TracedIsRun(rules, c0, front);
      if ev.RecoverTo? && TakesEffect(Run(rules, c0, front), ev.epoch) {
        ContiguousRestores(rules, c0, Traced(rules, c0, front), ev.epoch);
      }
    }
  }

  /** So with contiguous recoveries the commit state is sequential throughout. */
  lemma {:induction false} CommitStateIsSequential(rules: Rules, c0: Chain, events: seq<Event>)
    requires IsFresh(c0) && AllGuarded(rules, c0, events) && ContiguousRecoveries(rules, c0, events)
    ensures AlwaysSequential(rules, c0, events)
  {
    ContiguousRunRestores(rules, c0, events);
    RunIsSequentialIff(rules, c0, events);
  }

  // ----- recovery against the commit it goes back to -----

  /** No block of that epoch is held or will be held again. */
  ghost predicate Gone(c: Chain, epoch: U64) {
    && epoch <= c.epoch
    && (c.live.Some? ==> epoch < c.live.value.epoch)
    && forall i :: 0 <= i < |c.recent| ==> epoch < c.recent[i].epoch || (c.recent[i].epoch < epoch && c.recent[i].epoch < c.commitEpoch)
  }

  lemma CommitKeepsGone(rules: Rules, c: Chain, at: U64, invalidated: seq<Hash>, epoch: U64)
    requires Inv(c) && Gone(c, epoch)
    ensures Gone(Commit(rules, c, at, invalidated).chain, epoch)
  {
    CommitKeepsInvariant(rules, c, at, invalidated);
  }

  lemma CutKeepsGone(c: Chain, at: U64, epoch: U64)
    requires Inv(c) && Gone(c, epoch)
    ensures Gone(Rollback(c, at).chain, epoch)
    ensures Guard(c, RecoverTo(at)) ==> Gone(Recovery(c, at), epoch)
  {
  }

  lemma SealKeepsGone(rules: Rules, c: Chain, at: U64, origin: Hash, epoch: U64)
    requires Inv(c) && Gone(c, epoch)
    ensures Gone(SealBlock(rules, c, at, origin).chain, epoch)
  {
  }

  lemma GoneStays(rules: Rules, c: Chain, ev: Event, epoch: U64)
    requires Inv(c) && Guard(c, ev) && Gone(c, epoch)
    ensures Gone(Step(rules, c, ev), epoch)
  {
    match ev
    case OpenBlock(_) =>
    case Submit(_) =>
    case Seal(at, origin) => SealKeepsGone(rules, c, at, origin, epoch);
    case Accept(at, invalidated) => CommitKeepsGone(rules, c, at, invalidated, epoch);
    case RollTo(at) => CutKeepsGone(c, at, epoch);
    case RecoverTo(at) => CutKeepsGone(c, at, epoch);
  }

  /** A recovery to a committed epoch or below leaves no block of that epoch, for good. */
  lemma RecoveryMakesGone(c: Chain, at: U64, epoch: U64)
    requires Inv(c) && Guard(c, RecoverTo(at)) && TakesEffect(c, at) && at <= epoch <= c.commitEpoch
    ensures Gone(Recovery(c, at), epoch)
  {
  }

  /** The commits up to an epoch all still stand. */
  ghost predicate Stands(t: Trace, log: seq<Entry>, epoch: U64) {
    && epoch <= t.chain.commitEpoch
    && |log| <= |t.log| && log == t.log[..|log|]
  }

  lemma RecoveryStandsOrGone(t: Trace, log: seq<Entry>, epoch: U64, at: U64)
    requires Inv(t.chain) && InOrder(t.log)
    requires Guard(t.chain, RecoverTo(at)) && TakesEffect(t.chain, at) && Stands(t, log, epoch)
    requires forall i :: 0 <= i < |log| ==> log[i].epoch <= epoch
    ensures Stands(Trace(Recovery(t.chain, at), KeptTo(t.log, at)), log, epoch) || Gone(Recovery(t.chain, at), epoch)
  {
    if at <= epoch {
      RecoveryMakesGone(t.chain, at, epoch);
    } else {
      KeptToIsPrefix(t.log, at);
      assert |log| > 0 ==> t.log[|log| - 1] == log[|log| - 1];
    }
  }

  lemma CommitStands(rules: Rules, t: Trace, log: seq<Entry>, epoch: U64, at: U64, invalidated: seq<Hash>)
    requires Inv(t.chain) && Stands(t, log, epoch)
    ensures Stands(Trace(Commit(rules, t.chain, at, invalidated).chain, LogAfter(rules, t, Accept(at, invalidated))), log, epoch)
  {
    CommitKeepsInvariant(rules, t.chain, at, invalidated);
  }

  lemma StepStandsOrGone(rules: Rules, c0: Chain, t: Trace, log: seq<Entry>, epoch: U64, ev: Event)
    requires TraceInv(rules, c0, t) && Guard(t.chain, ev) && Stands(t, log, epoch)
    requires forall i :: 0 <= i < |log| ==> log[i].epoch <= epoch
    ensures var u := Trace(Step(rules, t.chain, ev), LogAfter(rules, t, ev));
            Stands(u, log, epoch) || Gone(u.chain, epoch)
  {
    match ev
    case Accept(at, invalidated) => CommitStands(rules, t, log, epoch, at, invalidated);
    case RecoverTo(at) =>
      if TakesEffect(t.chain, at) {
        RecoveryStandsOrGone(t, log, epoch, at);
      }
    case _ =>
  }

  lemma {:induction false} PrefixIsAllowed(rules: Rules, c: Chain, first: seq<Event>, second: seq<Event>)
    requires AllGuarded(rules, c, first + second) && AllRestoring(rules, c, first + second)
    ensures AllGuarded(rules, c, first) && AllRestoring(rules, c, first)
  {
    if second == [] {
      assert first + second == first;
    } else {
      assert (first + second)[..|first + second| - 1] == first + second[..|second| - 1];
      PrefixIsAllowed(rules, c, first, second[..|second| - 1]);
    }
  }

  lemma {:induction false} RunStandsOrGone(rules: Rules, c0: Chain, committed: seq<Event>, after: seq<Event>, epoch: U64)
    requires IsFresh(c0) && AllGuarded(rules, c0, committed + after) && AllRestoring(rules, c0, committed + after)
    requires Traced(rules, c0, committed).chain.commitEpoch == epoch
    ensures var t := Traced(rules, c0, committed + after);
            Stands(t, Traced(rules, c0, committed).log, epoch) || Gone(t.chain, epoch)
  {
    if after == [] {
      assert committed + after == committed;
    } else {
      var front, ev := after[..|after| - 1], after[|after| - 1];
      var events := committed + front;
      assert committed + after == events + [ev] && (events + [ev])[..|events|] == events;
      RunStandsOrGone(rules, c0, committed, front, epoch);
      PrefixIsAllowed(rules, c0, committed, after);
      RunKeepsTrace(rules, c0, committed);
      RunKeepsTrace(rules, c0, events);
      TracedIsRun(rules, c0, events);
      TracedOne(rules, c0, events, ev);
      var t := Traced(rules, c0, events);
      if Gone(t.chain, epoch) {
        GoneStays(rules, t.chain, ev, epoch);
      } else {
        StepStandsOrGone(rules, c0, t, Traced(rules, c0, committed).log, epoch, ev);
      }
    }
  }

  /** A successful commit is the last entry of the log. */
  lemma CommittedLog(rules: Rules, c0: Chain, before: seq<Event>, epoch: U64, invalidated: seq<Hash>)
    requires Commit(rules, Run(rules, c0, before), epoch, invalidated).result.Ok?
    ensures var t := Traced(rules, c0, before + [Accept(epoch, invalidated)]);
            t.chain.commitEpoch == epoch && t.log != [] && t.log[|t.log| - 1].epoch == epoch
  {
    TracedIsRun(rules, c0, before);
    TracedOne(rules, c0, before, Accept(epoch, invalidated));
  }

  lemma StandingLog(long: seq<Entry>, short: seq<Entry>, epoch: U64)
    requires InOrder(long)
    requires short != [] && |short| <= |long| && short == long[..|short|] && short[|short| - 1].epoch == epoch
    ensures KeptTo(long, epoch) == short
  {
    KeptToIsPrefix(long, epoch);
    assert long[|short| - 1] == short[|short| - 1];
  }

  /** `Recovery(epoch)` of a block that is still held leaves the commit state as `Commit(epoch)` left
      it exactly when nothing is lost, whatever ran in between. */
  lemma {:induction false} RecoveryEqualsReplayIff(rules: Rules, c0: Chain, before: seq<Event>, epoch: U64, invalidated: seq<Hash>, after: seq<Event>)
    requires var events := before + [Accept(epoch, invalidated)] + after;
             && IsFresh(c0) && AllGuarded(rules, c0, events) && AllRestoring(rules, c0, events)
             && Commit(rules, Run(rules, c0, before), epoch, invalidated).result.Ok?
             && TakesEffect(Run(rules, c0, events), epoch)
             && IndexOf(Run(rules, c0, events).recent, epoch) < |Run(rules, c0, events).recent|
    ensures var events := before + [Accept(epoch, invalidated)] + after;
            Recovery(Run(rules, c0, events), epoch).state == Run(rules, c0, before + [Accept(epoch, invalidated)]).state <==>
            NothingLost(c0.saved, KeptTo(Traced(rules, c0, events).log, epoch), EpochsOf(Run(rules, c0, events).recent))
  {
    var committed := before + [Accept(epoch, invalidated)];
    var events := committed + after;
    CommittedLog(rules, c0, before, epoch, invalidated);
    PrefixIsAllowed(rules, c0, committed, after);
    RunKeepsTrace(rules, c0, committed);
    RunKeepsTrace(rules, c0, events);
    RunStandsOrGone(rules, c0, committed, after, epoch);
    TracedIsRun(rules, c0, committed);
    TracedIsRun(rules, c0, events);
    var s, t := Traced(rules, c0, committed), Traced(rules, c0, events);
    assert !Gone(t.chain, epoch) by {
      assert t.chain.recent[IndexOf(t.chain.recent, epoch)].epoch == epoch;
    }
    StandingLog(t.log, s.log, epoch);
    RecoveryRestoresIff(rules, c0, t, epoch);
  }

  /** With every epoch up to it still held, recovery equals replay. */
  lemma {:induction false} RecoveryEqualsReplay(rules: Rules, c0: Chain, before: seq<Event>, epoch: U64, invalidated: seq<Hash>, after: seq<Event>)
    requires var events := before + [Accept(epoch, invalidated)] + after;
             && IsFresh(c0) && AllGuarded(rules, c0, events) && ContiguousRecoveries(rules, c0, events)
             && Commit(rules, Run(rules, c0, before), epoch, invalidated).result.Ok?
             && TakesEffect(Run(rules, c0, events), epoch) && Contiguous(Run(rules, c0, events), epoch)
    ensures Recovery(Run(rules, c0, before + [Accept(epoch, invalidated)] + after), epoch).state ==
            Run(rules, c0, before + [Accept(epoch, invalidated)]).state
  {
    var events := before + [Accept(epoch, invalidated)] + after;
    ContiguousRunRestores(rules, c0, events);
    RunKeepsTrace(rules, c0, events);
    TracedIsRun(rules, c0, events);
    ContiguousRestores(rules, c0, Traced(rules, c0, events), epoch);
    RecoveryEqualsReplayIff(rules, c0, before, epoch, invalidated, after);
  }
}
