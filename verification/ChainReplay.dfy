/** A commit against a sequential machine that has no blocks, no live validator and no overlays, and
    a log of commits replayed on that machine: in full, or only as far as the blocks still held. */
module ChainReplay {
  import opened Codec
  import opened Overlay
  import opened SocialChain
  import opened Wrappers

  /** One action at its turn; `blocked` when the network has invalidated its hash. */
  datatype Turn = Turn(action: Bytes, blocked: bool)
  datatype Outcome = Outcome(state: State, applied: seq<Bytes>, rejected: seq<Bytes>)

  function Sequential(rules: Rules, start: State, turns: seq<Turn>): Outcome {
    if turns == [] then Outcome(start, [], [])
    else
      var turn := turns[|turns| - 1];
      var before := Sequential(rules, start, turns[..|turns| - 1]);
      var delta := if turn.blocked then None else rules.execute(before.state, turn.action);
      if delta.None? then before.(rejected := before.rejected + [turn.action])
      else Outcome(Incorporate(before.state, delta.value), before.applied + [turn.action], before.rejected)
  }

  lemma {:induction false} SequentialAppend(rules: Rules, start: State, first: seq<Turn>, second: seq<Turn>)
    ensures Sequential(rules, start, first + second).state ==
            Sequential(rules, Sequential(rules, start, first).state, second).state
  {
    if second == [] {
      assert first + second == first;
    } else {
      var last := |second| - 1;
      assert (first + second)[..|first + second| - 1] == first + second[..last];
      SequentialAppend(rules, start, first, second[..last]);
    }
  }

  function Turns(rules: Rules, actions: seq<Bytes>, invalidated: seq<Hash>): (turns: seq<Turn>)
    ensures |turns| == |actions|
  {
    seq(|actions|, i requires 0 <= i < |actions| => Turn(actions[i], rules.hash(actions[i]) in SetOf(invalidated)))
  }

  function Hashes(rules: Rules, actions: seq<Bytes>): (hashes: seq<Hash>)
    ensures |hashes| == |actions|
  {
    if actions == [] then [] else Hashes(rules, actions[..|actions| - 1]) + [rules.hash(actions[|actions| - 1])]
  }

  /** A block revalidated behind its overlay is the same actions taken one at a time on the state. */
  lemma {:induction false} RevalidateIsSequential(rules: Rules, base: State, invalidated: seq<Hash>, actions: seq<Bytes>)
    ensures var verdict := Revalidate(rules, base, SetOf(invalidated), actions);
            var outcome := Sequential(rules, base, Turns(rules, actions, invalidated));
            && Incorporate(base, verdict.mutations) == outcome.state
            && verdict.invalidated == Hashes(rules, outcome.rejected)
  {
    if actions == [] {
      IncorporateNothing(base);
    } else {
      var last := |actions| - 1;
      var turns := Turns(rules, actions, invalidated);
      assert turns[..last] == Turns(rules, actions[..last], invalidated);
      RevalidateIsSequential(rules, base, invalidated, actions[..last]);
      var before := Revalidate(rules, base, SetOf(invalidated), actions[..last]);
      var delta := if turns[last].blocked then None else rules.execute(Incorporate(base, before.mutations), actions[last]);
      if delta.None? {
        var rejected := Sequential(rules, base, turns[..last]).rejected;
        assert (rejected + [actions[last]])[..|rejected|] == rejected;
      } else {
        IncorporateMerge(base, before.mutations, delta.value);
      }
    }
  }

  function ActionsOf(turns: seq<Turn>): (actions: seq<Bytes>)
    ensures |actions| == |turns|
  {
    seq(|turns|, i requires 0 <= i < |turns| => turns[i].action)
  }

  lemma {:induction false} TurnsAreAppliedOrRejected(rules: Rules, start: State, turns: seq<Turn>)
    ensures var outcome := Sequential(rules, start, turns);
            && multiset(outcome.applied) + multiset(outcome.rejected) == multiset(ActionsOf(turns))
            && |outcome.applied| + |outcome.rejected| == |turns|
  {
    if turns != [] {
      var last := |turns| - 1;
      TurnsAreAppliedOrRejected(rules, start, turns[..last]);
      assert ActionsOf(turns) == ActionsOf(turns[..last]) + [turns[last].action];
    }
  }

  lemma {:induction false} AppliedTurnsAreNotBlocked(rules: Rules, start: State, turns: seq<Turn>, blocked: set<Hash>)
    requires forall i :: 0 <= i < |turns| && !turns[i].blocked ==> rules.hash(turns[i].action) !in blocked
    ensures forall a :: a in Sequential(rules, start, turns).applied ==> rules.hash(a) !in blocked
  {
    if turns != [] {
      AppliedTurnsAreNotBlocked(rules, start, turns[..|turns| - 1], blocked);
    }
  }

  /** Every action is either applied or reported, once, and none of the applied ones carries a
      network-invalidated hash. */
  lemma CommitAccountsForEveryAction(rules: Rules, base: State, invalidated: seq<Hash>, actions: seq<Bytes>)
    ensures var verdict := Revalidate(rules, base, SetOf(invalidated), actions);
            var outcome := Sequential(rules, base, Turns(rules, actions, invalidated));
            && verdict.invalidated == Hashes(rules, outcome.rejected)
            && multiset(outcome.applied) + multiset(outcome.rejected) == multiset(actions)
            && |outcome.applied| + |verdict.invalidated| == |actions|
            && forall a :: a in outcome.applied ==> rules.hash(a) !in invalidated
  {
    RevalidateIsSequential(rules, base, invalidated, actions);
    var turns := Turns(rules, actions, invalidated);
    TurnsAreAppliedOrRejected(rules, base, turns);
    AppliedTurnsAreNotBlocked(rules, base, turns, SetOf(invalidated));
    assert ActionsOf(turns) == actions;
  }

  /** A commit answers with the hashes of exactly the actions the sequential machine rejects, keeps
      that list with the block, and leaves that machine's state; no other block is touched. */
  lemma CommitIsSequential(rules: Rules, c: Chain, epoch: U64, invalidated: seq<Hash>)
    requires CommitTarget(c.recent, epoch).Ok?
    ensures var n, reply := CommitTarget(c.recent, epoch).value, Commit(rules, c, epoch, invalidated);
            var outcome := Sequential(rules, c.state, Turns(rules, c.recent[n].actions, invalidated));
            && c.recent[n].epoch == epoch
            && reply.result == Ok(Hashes(rules, outcome.rejected))
            && reply.chain.state == outcome.state && reply.chain.commitEpoch == epoch
            && |reply.chain.recent| == |c.recent|
            && (forall i :: 0 <= i < |c.recent| && i != n ==> reply.chain.recent[i] == c.recent[i])
            && reply.chain.recent[n].actions == c.recent[n].actions
            && reply.chain.recent[n].invalidated == Hashes(rules, outcome.rejected)
            && Incorporate(c.state, reply.chain.recent[n].mutations) == outcome.state
  {
    var n := CommitTarget(c.recent, epoch).value;
    RevalidateIsSequential(rules, c.state, invalidated, c.recent[n].actions);
  }

  /** The verdict does not depend on what the validator would say about an invalidated action. */
  lemma {:induction false} InvalidatedActionsNeverReachTheValidator(
      rules: Rules, other: Rules, base: State, blocked: set<Hash>, actions: seq<Bytes>)
    requires other.hash == rules.hash
    requires forall s, a :: rules.hash(a) !in blocked ==> other.execute(s, a) == rules.execute(s, a)
    ensures Revalidate(other, base, blocked, actions) == Revalidate(rules, base, blocked, actions)
  {
    if actions != [] {
      InvalidatedActionsNeverReachTheValidator(rules, other, base, blocked, actions[..|actions| - 1]);
    }
  }

  // ----- the log of commits -----

  /** One committed block: the turns it contributed and the overlay it incorporated. */
  datatype Entry = Entry(epoch: U64, turns: seq<Turn>, mutations: Mutations)

  function AllTurns(log: seq<Entry>): seq<Turn> {
    if log == [] then [] else AllTurns(log[..|log| - 1]) + log[|log| - 1].turns
  }

  function KeptTo(log: seq<Entry>, epoch: U64): seq<Entry> {
    if log != [] && log[|log| - 1].epoch > epoch then KeptTo(log[..|log| - 1], epoch) else log
  }

  ghost predicate InOrder(log: seq<Entry>) {
    forall i, j :: 0 <= i < j < |log| ==> log[i].epoch < log[j].epoch
  }

  /** Every entry of the log did on the state what its turns do there one at a time. */
  ghost predicate Replays(rules: Rules, start: State, log: seq<Entry>) {
    log != [] ==>
      var before := log[..|log| - 1];
      var s := Sequential(rules, start, AllTurns(before)).state;
      && Replays(rules, start, before)
      && Incorporate(s, log[|log| - 1].mutations) == Sequential(rules, s, log[|log| - 1].turns).state
  }

  lemma {:induction false} KeptToIsPrefix(log: seq<Entry>, epoch: U64)
    requires InOrder(log)
    ensures var kept := KeptTo(log, epoch);
            && |kept| <= |log| && kept == log[..|kept|]
            && forall i :: 0 <= i < |log| ==> (log[i].epoch <= epoch <==> i < |kept|)
  {
    if log != [] && log[|log| - 1].epoch > epoch {
      KeptToIsPrefix(log[..|log| - 1], epoch);
    }
  }

  lemma {:induction false} KeptToReplays(rules: Rules, start: State, log: seq<Entry>, epoch: U64)
    requires Replays(rules, start, log)
    ensures Replays(rules, start, KeptTo(log, epoch))
  {
    if log != [] && log[|log| - 1].epoch > epoch {
      KeptToReplays(rules, start, log[..|log| - 1], epoch);
    }
  }

  lemma ReplaysAppend(rules: Rules, start: State, log: seq<Entry>, entry: Entry)
    requires Replays(rules, start, log)
    requires var s := Sequential(rules, start, AllTurns(log)).state;
             Incorporate(s, entry.mutations) == Sequential(rules, s, entry.turns).state
    ensures Replays(rules, start, log + [entry])
    ensures Sequential(rules, start, AllTurns(log + [entry])).state ==
            Incorporate(Sequential(rules, start, AllTurns(log)).state, entry.mutations)
  {
    assert (log + [entry])[..|log|] == log;
    SequentialAppend(rules, start, AllTurns(log), entry.turns);
  }

  function MergeAll(log: seq<Entry>): Mutations {
    if log == [] then map[] else Merge(MergeAll(log[..|log| - 1]), log[|log| - 1].mutations)
  }

  /** Only the entries whose epochs are held. */
  function MergeHeld(log: seq<Entry>, held: set<U64>): Mutations {
    if log == [] then map[]
    else
      var before, last := MergeHeld(log[..|log| - 1], held), log[|log| - 1];
      if last.epoch in held then Merge(before, last.mutations) else before
  }

  /** One incorporate of all merged mutations is the whole log, one action at a time. */
  lemma {:induction false} MergeReplays(rules: Rules, start: State, log: seq<Entry>)
    requires Replays(rules, start, log)
    ensures Incorporate(start, MergeAll(log)) == Sequential(rules, start, AllTurns(log)).state
  {
    if log == [] {
      IncorporateNothing(start);
    } else {
      var front, last := log[..|log| - 1], log[|log| - 1];
      MergeReplays(rules, start, front);
      IncorporateMerge(start, MergeAll(front), last.mutations);
      assert log == front + [last];
      ReplaysAppend(rules, start, front, last);
    }
  }

  // ----- what a log loses when some of its blocks are gone -----

  /** Entry i has the last word on key k. */
  ghost predicate LastChange(log: seq<Entry>, i: int, k: Bytes) {
    0 <= i < |log| && k in log[i].mutations && forall j :: i < j < |log| ==> k !in log[j].mutations
  }

  lemma {:induction false} LastChangeDecides(log: seq<Entry>, held: set<U64>, i: int, k: Bytes)
    requires LastChange(log, i, k)
    ensures k in MergeAll(log) && MergeAll(log)[k] == log[i].mutations[k]
    ensures log[i].epoch in held ==> k in MergeHeld(log, held) && MergeHeld(log, held)[k] == log[i].mutations[k]
  {
    if i < |log| - 1 {
      assert LastChange(log[..|log| - 1], i, k);
      LastChangeDecides(log[..|log| - 1], held, i, k);
    }
  }

  lemma {:induction false} EveryChangeHasALast(log: seq<Entry>, held: set<U64>, k: Bytes) returns (i: int)
    requires k in MergeAll(log) || k in MergeHeld(log, held)
    ensures LastChange(log, i, k)
  {
    i := |log| - 1;
    if k !in log[i].mutations {
      i := EveryChangeHasALast(log[..i], held, k);
    }
  }

  predicate Shows(s: State, k: Bytes, change: Change) {
    match change
    case Put(value) => k in s && s[k] == value
    case Delete => k !in s
  }

  /** Each last word of a block that is gone is on the state all the same. */
  ghost predicate NothingLost(start: State, log: seq<Entry>, held: set<U64>) {
    forall i, k :: LastChange(log, i, k) && log[i].epoch !in held ==>
      Shows(Incorporate(start, MergeHeld(log, held)), k, log[i].mutations[k])
  }

  /** Replaying only the held entries gives the whole replay exactly when nothing is lost. */
  lemma {:induction false} HeldSufficesIff(start: State, log: seq<Entry>, held: set<U64>)
    ensures Incorporate(start, MergeHeld(log, held)) == Incorporate(start, MergeAll(log)) <==> NothingLost(start, log, held)
  {
    var part, whole := Incorporate(start, MergeHeld(log, held)), Incorporate(start, MergeAll(log));
    forall i, k | LastChange(log, i, k) ensures Shows(whole, k, log[i].mutations[k]) {
      LastChangeDecides(log, held, i, k);
    }
    if NothingLost(start, log, held) {
      forall k ensures k in part <==> k in whole
               ensures k in part ==> part[k] == whole[k]
      {
        if k in MergeAll(log) || k in MergeHeld(log, held) {
          var i := EveryChangeHasALast(log, held, k);
          LastChangeDecides(log, held, i, k);
        }
      }
      assert part.Keys == whole.Keys;
    }
  }

  /** From every start state, that is: each lost last word repeats what the held entries before it
      already say. */
  lemma {:induction false} HeldAlwaysSufficesIff(log: seq<Entry>, held: set<U64>)
    ensures (forall start :: Incorporate(start, MergeHeld(log, held)) == Incorporate(start, MergeAll(log))) <==>
            forall i, k :: LastChange(log, i, k) && log[i].epoch !in held ==>
              k in MergeHeld(log, held) && MergeHeld(log, held)[k] == log[i].mutations[k]
  {
    if forall start :: Incorporate(start, MergeHeld(log, held)) == Incorporate(start, MergeAll(log)) {
      forall i, k | LastChange(log, i, k) && log[i].epoch !in held
        ensures k in MergeHeld(log, held) && MergeHeld(log, held)[k] == log[i].mutations[k]
      {
        var start: State := if log[i].mutations[k].Delete? then map[k := []] else map[];
        HeldSufficesIff(start, log, held);
        assert NothingLost(start, log, held);
      }
    } else {
      var start :| Incorporate(start, MergeHeld(log, held)) != Incorporate(start, MergeAll(log));
      HeldSufficesIff(start, log, held);
    }
  }

  lemma {:induction false} MergeHeldAlike(log: seq<Entry>, a: set<U64>, b: set<U64>)
    requires forall i :: 0 <= i < |log| ==> (log[i].epoch in a <==> log[i].epoch in b)
    ensures MergeHeld(log, a) == MergeHeld(log, b)
  {
    if log != [] {
      MergeHeldAlike(log[..|log| - 1], a, b);
    }
  }
}
