/** The step functions of the social chain's commit protocol (social/chain.go): what each method
    does to the chain, as a function of the chain it is called on. The class that performs these
    steps in place is in BlockChain.dfy. */
module SocialChain {
  import opened Codec
  import opened Overlay
  import opened Wrappers

  type Status = x: int | 0 <= x <= 3
  const STATUS_LIVE: Status := 0
  const STATUS_DONE: Status := 1
  const STATUS_SEALED: Status := 2
  const STATUS_COMMIT: Status := 3

  /** What the chain takes from outside: how a protocol executes an action on a state (None when
      the action is not valid there), the two hash functions, and the optional action filter.
      Nothing is assumed of any of them. */
  datatype Rules = Rules(
    execute: (State, Bytes) -> Option<Mutations>,
    hash: Bytes -> Hash,
    hashList: seq<Bytes> -> Hash,
    transform: Option<Bytes -> Bytes>)

  datatype Block = Block(
    epoch: U64,
    checkpoint: U64,
    origin: Hash,
    actions: seq<Bytes>,
    invalidated: seq<Hash>,
    status: Status,
    mutations: Mutations)

  /** `pending` is the overlay of the live validator; it reads through to the current commit
      state. `saved` is the state `Recover` restores, the one as of `checksumEpoch`. */
  datatype Chain = Chain(
    epoch: U64,
    live: Option<Block>,
    pending: Mutations,
    state: State,
    saved: State,
    commitEpoch: U64,
    recent: seq<Block>,
    checksumEpoch: U64)

  datatype Refusal =
    | NonSequentialBlock
    | NotFound
    | AlreadySealed
    | AlreadyCommitted
    | NotSealed
    | NonSequentialCommit
    | BeforeCommit

  datatype Reply<+T> = Reply(chain: Chain, result: Result<T, Refusal>)

  function Start(state: State, epoch: U64): Chain {
    Chain(epoch, None, map[], state, state, epoch, [], 0)
  }

  function Transformed(rules: Rules, action: Bytes): Bytes {
    if rules.transform.Some? then rules.transform.value(action) else action
  }

  /** One validator call: the action runs on the base state seen through the overlay so far. */
  function Attempt(rules: Rules, base: State, overlay: Mutations, action: Bytes): Option<Mutations> {
    match rules.execute(Incorporate(base, overlay), action)
    case None => None
    case Some(delta) => Some(Merge(overlay, delta))
  }

  function Validate(rules: Rules, c: Chain, action: Bytes): (Chain, bool) {
    var a := Transformed(rules, action);
    if |a| == 0 || c.live.None? then (c, false)
    else
      match Attempt(rules, c.state, c.pending, a)
      case None => (c, false)
      case Some(overlay) =>
        (c.(live := Some(c.live.value.(actions := c.live.value.actions + [a])), pending := overlay), true)
  }

  function NextBlock(c: Chain, epoch: U64): Reply<()> {
    if epoch != Next(c.epoch) then Reply(c, Err(NonSequentialBlock))
    else
      var closed := if c.live.None? then [] else [c.live.value.(status := STATUS_DONE, mutations := c.pending)];
      var created := Block(epoch, c.commitEpoch, Zeros(HASH_SIZE), [], [], STATUS_LIVE, map[]);
      Reply(c.(epoch := epoch, live := Some(created), pending := map[], recent := c.recent + closed), Ok(()))
  }

  /** Position of the first block of that epoch, or the length when there is none. */
  function IndexOf(blocks: seq<Block>, epoch: U64): (n: nat)
    ensures n <= |blocks|
    ensures n < |blocks| ==> blocks[n].epoch == epoch
    ensures forall i :: 0 <= i < n ==> blocks[i].epoch != epoch
  {
    if blocks == [] then 0 else if blocks[0].epoch == epoch then 0 else 1 + IndexOf(blocks[1..], epoch)
  }

  /** Sealing the live block only retires it: the call still answers with an error, and a second
      call seals it (lines 108-116 leave `sealed` nil). */
  function SealBlock(rules: Rules, c: Chain, epoch: U64, origin: Hash): Reply<Hash> {
    if c.live.Some? && c.live.value.epoch == epoch then
      Reply(c.(live := None, recent := c.recent + [c.live.value]), Err(NotFound))
    else
      var n := IndexOf(c.recent, epoch);
      if n == |c.recent| then Reply(c, Err(NotFound))
      else if c.recent[n].status >= STATUS_SEALED then Reply(c, Err(AlreadySealed))
      else
        Reply(c.(recent := c.recent[n := c.recent[n].(status := STATUS_SEALED, origin := origin)]),
              Ok(rules.hashList(c.recent[n].actions)))
  }

  datatype Verdict = Verdict(invalidated: seq<Hash>, mutations: Mutations)

  /** `revalidate`: a fresh validator over the commit state, with the network's verdict first. */
  function Revalidate(rules: Rules, base: State, blocked: set<Hash>, actions: seq<Bytes>): Verdict {
    if actions == [] then Verdict([], map[])
    else
      var last := |actions| - 1;
      var before := Revalidate(rules, base, blocked, actions[..last]);
      var hash := rules.hash(actions[last]);
      var attempt := if hash in blocked then None else Attempt(rules, base, before.mutations, actions[last]);
      if attempt.None? then before.(invalidated := before.invalidated + [hash])
      else before.(mutations := attempt.value)
  }

  function SetOf(hashes: seq<Hash>): set<Hash> {
    set h | h in hashes
  }

  /** Position of the first block that is the one asked for or is not committed yet. */
  function CommitStop(blocks: seq<Block>, epoch: U64): (n: nat)
    ensures n <= |blocks|
    ensures n < |blocks| ==> blocks[n].epoch == epoch || blocks[n].status != STATUS_COMMIT
    ensures forall i :: 0 <= i < n ==> blocks[i].epoch != epoch && blocks[i].status == STATUS_COMMIT
  {
    if blocks == [] then 0
    else if blocks[0].epoch == epoch || blocks[0].status != STATUS_COMMIT then 0
    else 1 + CommitStop(blocks[1..], epoch)
  }

  function CommitTarget(blocks: seq<Block>, epoch: U64): Result<nat, Refusal> {
    var n := CommitStop(blocks, epoch);
    if n == |blocks| then Err(NotFound)
    else if blocks[n].epoch != epoch then Err(NonSequentialCommit)
    else if blocks[n].status == STATUS_COMMIT then Err(AlreadyCommitted)
    else if blocks[n].status != STATUS_SEALED then Err(NotSealed)
    else Ok(n)
  }

  function Commit(rules: Rules, c: Chain, epoch: U64, invalidated: seq<Hash>): Reply<seq<Hash>> {
    match CommitTarget(c.recent, epoch)
    case Err(e) => Reply(c, Err(e))
    case Ok(n) =>
      var verdict := Revalidate(rules, c.state, SetOf(invalidated), c.recent[n].actions);
      var done := c.recent[n].(status := STATUS_COMMIT, invalidated := verdict.invalidated, mutations := verdict.mutations);
      Reply(c.(recent := c.recent[n := done], state := Incorporate(c.state, verdict.mutations), commitEpoch := epoch),
            Ok(verdict.invalidated))
  }

  /** The cut `[:n]` drops the named block too. */
  function Rollback(c: Chain, epoch: U64): Reply<()> {
    if epoch < c.commitEpoch then Reply(c, Err(BeforeCommit))
    else
      var n := IndexOf(c.recent, epoch);
      if n == |c.recent| then Reply(c, Err(NotFound))
      else Reply(c.(recent := c.recent[..n], live := None, epoch := epoch), Ok(()))
  }

  /** The mutations `Recovery` gathers from the blocks it walks over. The result of `Merge`, which
      line 201 discards, is accumulated. */
  function Gather(blocks: seq<Block>, checksum: U64, epoch: U64): Mutations {
    if blocks == [] then map[]
    else
      var last := blocks[|blocks| - 1];
      var before := Gather(blocks[..|blocks| - 1], checksum, epoch);
      if last.epoch == Next(checksum) then last.mutations
      else if last.epoch > Next(checksum) && last.epoch <= epoch then Merge(before, last.mutations)
      else before
  }

  /** The blocks `Recovery` walks over: up to the named one, or all when it is not kept. */
  function Walked(blocks: seq<Block>, epoch: U64): seq<Block> {
    var n := IndexOf(blocks, epoch);
    if n == |blocks| then blocks else blocks[..n + 1]
  }

  /** The named block is cut too, or nothing when it is not kept. The epoch counter stays. */
  function Recovery(c: Chain, epoch: U64): Chain {
    if epoch < c.checksumEpoch || epoch >= c.commitEpoch then c
    else
      var n := IndexOf(c.recent, epoch);
      var gathered := Gather(Walked(c.recent, epoch), c.checksumEpoch, epoch);
      c.(state := Incorporate(c.saved, gathered), recent := c.recent[..n], commitEpoch := epoch, live := None)
  }

  datatype Event =
    | OpenBlock(epoch: U64)
    | Submit(action: Bytes)
    | Seal(epoch: U64, origin: Hash)
    | Accept(epoch: U64, invalidated: seq<Hash>)
    | RollTo(epoch: U64)
    | RecoverTo(epoch: U64)

  function Step(rules: Rules, c: Chain, ev: Event): Chain {
    match ev
    case OpenBlock(epoch) => NextBlock(c, epoch).chain
    case Submit(action) => Validate(rules, c, action).0
    case Seal(epoch, origin) => SealBlock(rules, c, epoch, origin).chain
    case Accept(epoch, invalidated) => Commit(rules, c, epoch, invalidated).chain
    case RollTo(epoch) => Rollback(c, epoch).chain
    case RecoverTo(epoch) => Recovery(c, epoch)
  }

  function Run(rules: Rules, c: Chain, events: seq<Event>): Chain {
    if events == [] then c
    else Step(rules, Run(rules, c, events[..|events| - 1]), events[|events| - 1])
  }
}
