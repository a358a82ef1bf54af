/** blocks/blocks.go: a block is created as `Current`, may wait unsealed, is sealed, and on commit is
    written to storage. No block is lost, duplicated or changed on the way. */
module Lifecycle {
  import opened ByteStores
  import opened Codec
  import opened Wrappers

  /** breeze's header, seal and commit records; only the epoch of a header is looked at. */
  datatype Header = Header(epoch: U64, content: Bytes)
  datatype Builder = Builder(header: Header, actions: seq<Bytes>)
  datatype SealedBlock = SealedBlock(header: Header, actions: seq<Bytes>, seal: Bytes)
  datatype CommitBlock = CommitBlock(header: Header, actions: seq<Bytes>, seal: Bytes, commit: Bytes)

  datatype Pools = Pools(
    current: Option<Builder>,
    unsealed: seq<Builder>,
    sealed: seq<SealedBlock>,
    written: seq<CommitBlock>)

  datatype Event =
    | NewBlock(header: Header)
    | AddAction(action: Bytes)
    | SealEpoch(epoch: U64, seal: Bytes)
    | CommitEpoch(epoch: U64, commit: Bytes)

  function Without<T>(s: seq<T>, n: nat): seq<T>
    requires n < |s|
  {
    s[..n] + s[n + 1..]
  }

  function FindUnsealed(blocks: seq<Builder>, epoch: U64): (n: nat)
    ensures n <= |blocks| && (n < |blocks| ==> blocks[n].header.epoch == epoch)
    ensures forall i :: 0 <= i < n ==> blocks[i].header.epoch != epoch
  {
    if blocks == [] || blocks[0].header.epoch == epoch then 0 else 1 + FindUnsealed(blocks[1..], epoch)
  }

  function FindSealed(blocks: seq<SealedBlock>, epoch: U64): (n: nat)
    ensures n <= |blocks| && (n < |blocks| ==> blocks[n].header.epoch == epoch)
    ensures forall i :: 0 <= i < n ==> blocks[i].header.epoch != epoch
  {
    if blocks == [] || blocks[0].header.epoch == epoch then 0 else 1 + FindSealed(blocks[1..], epoch)
  }

  function New(p: Pools, header: Header): Pools {
    p.(current := Some(Builder(header, [])),
       unsealed := p.unsealed + if p.current.None? then [] else [p.current.value])
  }

  function Action(p: Pools, action: Bytes): Pools
    requires p.current.Some?
  {
    p.(current := Some(p.current.value.(actions := p.current.value.actions + [action])))
  }

  function Seal(p: Pools, epoch: U64, seal: Bytes): Pools
    requires p.current.Some?
  {
    var n := FindUnsealed(p.unsealed, epoch);
    if p.current.value.header.epoch == epoch then
      p.(current := None, sealed := p.sealed + [SealedBlock(p.current.value.header, p.current.value.actions, seal)])
    else if n == |p.unsealed| then p
    else
      p.(unsealed := Without(p.unsealed, n),
         sealed := p.sealed + [SealedBlock(p.unsealed[n].header, p.unsealed[n].actions, seal)])
  }

  function Commit(p: Pools, epoch: U64, commit: Bytes): Pools {
    var n := FindSealed(p.sealed, epoch);
    if n == |p.sealed| then p
    else
      var b := p.sealed[n];
      p.(sealed := Without(p.sealed, n), written := p.written + [CommitBlock(b.header, b.actions, b.seal, commit)])
  }

  /** `Action` and `Seal` dereference `Current`. */
  predicate Legal(p: Pools, ev: Event) {
    ev.AddAction? || ev.SealEpoch? ==> p.current.Some?
  }

  function Step(p: Pools, ev: Event): Pools
    requires Legal(p, ev)
  {
    match ev
    case NewBlock(header) => New(p, header)
    case AddAction(action) => Action(p, action)
    case SealEpoch(epoch, seal) => Seal(p, epoch, seal)
    case CommitEpoch(epoch, commit) => Commit(p, epoch, commit)
  }

  // ----- conservation -----

  function FromSealed(blocks: seq<SealedBlock>): (out: seq<Builder>)
    ensures |out| == |blocks|
  {
    seq(|blocks|, i requires 0 <= i < |blocks| => Builder(blocks[i].header, blocks[i].actions))
  }

  function FromWritten(blocks: seq<CommitBlock>): (out: seq<Builder>)
    ensures |out| == |blocks|
  {
    seq(|blocks|, i requires 0 <= i < |blocks| => Builder(blocks[i].header, blocks[i].actions))
  }

  function Open(current: Option<Builder>, unsealed: seq<Builder>): multiset<Builder> {
    (if current.None? then multiset{} else multiset{current.value}) + multiset(unsealed)
  }

  function Closed(sealed: seq<SealedBlock>, written: seq<CommitBlock>): multiset<Builder> {
    multiset(FromSealed(sealed)) + multiset(FromWritten(written))
  }

  /** Everything held or written, wherever it is. */
  function Pool(p: Pools): multiset<Builder> {
    Open(p.current, p.unsealed) + Closed(p.sealed, p.written)
  }

  lemma WithoutLosesOne<T>(s: seq<T>, n: nat)
    requires n < |s|
    ensures multiset(s) == multiset(Without(s, n)) + multiset{s[n]}
  {
    assert s == s[..n] + [s[n]] + s[n + 1..];
  }

  lemma MovingKeepsAll<T>(a: seq<T>, b: seq<T>, n: nat)
    requires n < |a|
    ensures multiset(a) + multiset(b) == multiset(Without(a, n)) + multiset(b + [a[n]])
  {
    WithoutLosesOne(a, n);
  }

  lemma SealConserves(p: Pools, epoch: U64, seal: Bytes)
    requires p.current.Some?
    ensures Pool(Seal(p, epoch, seal)) == Pool(p)
    ensures Seal(p, epoch, seal).current in {None, p.current}
  {
    var q, n := Seal(p, epoch, seal), FindUnsealed(p.unsealed, epoch);
    if q.sealed != p.sealed {
      var b := if p.current.value.header.epoch == epoch then p.current.value else p.unsealed[n];
      assert FromSealed(q.sealed) == FromSealed(p.sealed) + [b];
      if p.current.value.header.epoch != epoch {
        WithoutLosesOne(p.unsealed, n);
      }
    }
  }

  lemma WritingKeepsClosed(sealed: seq<SealedBlock>, written: seq<CommitBlock>, n: nat, commit: Bytes)
    requires n < |sealed|
    ensures var b := sealed[n];
            Closed(Without(sealed, n), written + [CommitBlock(b.header, b.actions, b.seal, commit)]) == Closed(sealed, written)
  {
    var b, builders := sealed[n], FromSealed(sealed);
    assert FromSealed(Without(sealed, n)) == Without(builders, n);
    assert FromWritten(written + [CommitBlock(b.header, b.actions, b.seal, commit)]) == FromWritten(written) + [builders[n]];
    MovingKeepsAll(builders, FromWritten(written), n);
  }

  lemma CommitConserves(p: Pools, epoch: U64, commit: Bytes)
    ensures Pool(Commit(p, epoch, commit)) == Pool(p)
    ensures Commit(p, epoch, commit).current == p.current
  {
    var n := FindSealed(p.sealed, epoch);
    if n < |p.sealed| {
      WritingKeepsClosed(p.sealed, p.written, n, commit);
    }
  }

  /** The blocks a run creates, read off its events alone: seals and commits play no part, and an
      action belongs to the latest block created. */
  function Created(events: seq<Event>): seq<Builder> {
    if events == [] then []
    else
      var before := Created(events[..|events| - 1]);
      match events[|events| - 1]
      case NewBlock(header) => before + [Builder(header, [])]
      case AddAction(action) =>
        if before == [] then before
        else before[|before| - 1 := before[|before| - 1].(actions := before[|before| - 1].actions + [action])]
      case _ => before
  }

  const NOTHING := Pools(None, [], [], [])

  /** None once a step dereferences a nil `Current`. */
  function Run(events: seq<Event>): Option<Pools> {
    if events == [] then Some(NOTHING)
    else
      var before, ev := Run(events[..|events| - 1]), events[|events| - 1];
      if before.None? || !Legal(before.value, ev) then None else Some(Step(before.value, ev))
  }

  ghost predicate LatestIs(created: seq<Builder>, current: Option<Builder>) {
    current.Some? ==> created != [] && created[|created| - 1] == current.value
  }

  /** The current block is the latest created. */
  ghost predicate Accounted(p: Pools, created: seq<Builder>) {
    Pool(p) == multiset(created) && LatestIs(created, p.current)
  }

  lemma AccountedStays(p: Pools, q: Pools, created: seq<Builder>)
    requires Accounted(p, created) && Pool(q) == Pool(p) && q.current in {None, p.current}
    ensures Accounted(q, created)
  {
  }

  lemma NewAddsOne(p: Pools, header: Header)
    ensures Pool(New(p, header)) == Pool(p) + multiset{Builder(header, [])}
  {
  }

  lemma NewAccounts(p: Pools, events: seq<Event>, header: Header)
    requires Accounted(p, Created(events))
    ensures Accounted(New(p, header), Created(events + [NewBlock(header)]))
  {
    assert (events + [NewBlock(header)])[..|events|] == events;
    NewAddsOne(p, header);
  }

  lemma SealAccounts(p: Pools, events: seq<Event>, epoch: U64, seal: Bytes)
    requires Accounted(p, Created(events)) && p.current.Some?
    ensures Accounted(Seal(p, epoch, seal), Created(events + [SealEpoch(epoch, seal)]))
  {
    assert (events + [SealEpoch(epoch, seal)])[..|events|] == events;
    SealConserves(p, epoch, seal);
    AccountedStays(p, Seal(p, epoch, seal), Created(events));
  }

  lemma CommitAccounts(p: Pools, events: seq<Event>, epoch: U64, commit: Bytes)
    requires Accounted(p, Created(events))
    ensures Accounted(Commit(p, epoch, commit), Created(events + [CommitEpoch(epoch, commit)]))
  {
    assert (events + [CommitEpoch(epoch, commit)])[..|events|] == events;
    CommitConserves(p, epoch, commit);
    AccountedStays(p, Commit(p, epoch, commit), Created(events));
  }

  /** The current block is the last created and stays it. */
  lemma ActionAccounts(p: Pools, created: seq<Builder>, action: Bytes)
    requires p.current.Some? && Accounted(p, created)
    ensures Accounted(Action(p, action), created[|created| - 1 := Action(p, action).current.value])
  {
    var rest, front := multiset(p.unsealed) + Closed(p.sealed, p.written), created[..|created| - 1];
    assert created == front + [p.current.value];
    assert created[|created| - 1 := Action(p, action).current.value] == front + [Action(p, action).current.value];
    assert Pool(p) == multiset{p.current.value} + rest;
    assert Pool(Action(p, action)) == multiset{Action(p, action).current.value} + rest;
    SwapOne(rest, front, p.current.value, Action(p, action).current.value);
  }

  lemma SwapOne<T>(rest: multiset<T>, front: seq<T>, a: T, b: T)
    requires multiset{a} + rest == multiset(front + [a])
    ensures multiset{b} + rest == multiset(front + [b])
  {
    assert multiset(front) == multiset(front + [a]) - multiset{a} == rest;
  }

  lemma ActionCreates(events: seq<Event>, created: seq<Builder>, action: Bytes)
    requires Created(events) == created && created != []
    ensures Created(events + [AddAction(action)]) ==
            created[|created| - 1 := created[|created| - 1].(actions := created[|created| - 1].actions + [action])]
  {
    assert (events + [AddAction(action)])[..|events|] == events;
  }

  lemma LastActionAccounts(p: Pools, events: seq<Event>, created: seq<Builder>, action: Bytes)
    requires created == Created(events) && Accounted(p, created) && p.current.Some?
    ensures Accounted(Action(p, action), Created(events + [AddAction(action)]))
  {
    ActionCreates(events, created, action);
    ActionAccounts(p, created, action);
  }

  lemma StepAccounts(p: Pools, events: seq<Event>, ev: Event)
    requires Accounted(p, Created(events)) && Legal(p, ev)
    ensures Accounted(Step(p, ev), Created(events + [ev]))
  {
    match ev
    case NewBlock(header) => NewAccounts(p, events, header);
    case AddAction(action) => LastActionAccounts(p, events, Created(events), action);
    case SealEpoch(epoch, seal) => SealAccounts(p, events, epoch, seal);
    case CommitEpoch(epoch, commit) => CommitAccounts(p, events, epoch, commit);
  }

  lemma RunOne(events: seq<Event>, ev: Event)
    ensures Run(events + [ev]) ==
            if Run(events).None? || !Legal(Run(events).value, ev) then None else Some(Step(Run(events).value, ev))
  {
    assert (events + [ev])[..|events|] == events;
  }

  /** Over any run, the blocks created are the blocks in `Current`, `Unselaed`, `Sealed` and storage,
      with their actions as they were when they left `Current`. */
  lemma {:induction false} BlocksAreConserved(events: seq<Event>)
    requires Run(events).Some?
    ensures Accounted(Run(events).value, Created(events))
  {
    if events == [] {
      assert Pool(NOTHING) == multiset{};
    } else {
      var front, ev := events[..|events| - 1], events[|events| - 1];
      assert events == front + [ev];
      RunOne(front, ev);
      BlocksAreConserved(front);
      StepAccounts(Run(front).value, front, ev);
    }
  }

  // ----- order -----

  /** The first list is the second with some left out. */
  ghost predicate Within<T(!new)>(part: seq<T>, whole: seq<T>) {
    part == [] || (whole != [] &&
      var p, w := |part| - 1, |whole| - 1;
      (part[p] == whole[w] && Within(part[..p], whole[..w])) || Within(part, whole[..w]))
  }

  lemma {:induction false} WithinWithout<T(!new)>(part: seq<T>, whole: seq<T>, n: nat)
    requires n < |part| && Within(part, whole)
    ensures Within(Without(part, n), whole)
  {
    var p, w := |part| - 1, |whole| - 1;
    if Within(part, whole[..w]) {
      WithinWithout(part, whole[..w], n);
    } else if n < p {
      WithinWithout(part[..p], whole[..w], n);
      assert Without(part, n)[..p - 1] == Without(part[..p], n) && Without(part, n)[p - 1] == part[p];
    } else {
      assert Without(part, n) == part[..p];
      WithinMore(part[..p], whole[..w], whole[w]);
      assert whole[..w] + [whole[w]] == whole;
    }
  }

  lemma WithinMore<T(!new)>(part: seq<T>, whole: seq<T>, x: T)
    requires Within(part, whole)
    ensures Within(part, whole + [x]) && Within(part + [x], whole + [x])
  {
    assert (whole + [x])[..|whole|] == whole && (part + [x])[..|part|] == part;
  }

  /** The unsealed blocks, the current one last, are created blocks in the order of their creation. */
  ghost predicate InOrder(p: Pools, created: seq<Builder>) {
    match p.current
    case None => Within(p.unsealed, created)
    case Some(b) => created != [] && created[|created| - 1] == b && Within(p.unsealed, created[..|created| - 1])
  }

  lemma NewKeepsOrder(p: Pools, created: seq<Builder>, header: Header)
    requires InOrder(p, created)
    ensures InOrder(New(p, header), created + [Builder(header, [])])
  {
    assert (created + [Builder(header, [])])[..|created|] == created;
    if p.current.Some? {
      var front := created[..|created| - 1];
      assert created == front + [p.current.value];
      WithinMore(p.unsealed, front, p.current.value);
    } else {
      assert p.unsealed + [] == p.unsealed;
    }
  }

  lemma SealKeepsOrder(p: Pools, created: seq<Builder>, epoch: U64, seal: Bytes)
    requires InOrder(p, created) && p.current.Some?
    ensures InOrder(Seal(p, epoch, seal), created)
  {
    var front, n := created[..|created| - 1], FindUnsealed(p.unsealed, epoch);
    if p.current.value.header.epoch == epoch {
      WithinMore(p.unsealed, front, p.current.value);
      assert created == front + [p.current.value];
    } else if n < |p.unsealed| {
      WithinWithout(p.unsealed, front, n);
    }
  }

  /** Over any run the unsealed blocks wait in the order they were created, so a seal takes the earliest
      one of its epoch. */
  lemma {:induction false} UnsealedInOrder(events: seq<Event>)
    requires Run(events).Some?
    ensures InOrder(Run(events).value, Created(events))
  {
    if events != [] {
      var front, ev := events[..|events| - 1], events[|events| - 1];
      assert events == front + [ev];
      RunOne(front, ev);
      UnsealedInOrder(front);
      var p := Run(front).value;
      match ev
      case NewBlock(header) => NewKeepsOrder(p, Created(front), header);
      case SealEpoch(epoch, seal) => SealKeepsOrder(p, Created(front), epoch, seal);
      case _ =>
    }
  }

  // ----- seals and commits -----

  /** A seal or a commit and the epoch it is for. */
  datatype Stamp = Stamp(epoch: U64, content: Bytes)

  function SealStamps(blocks: seq<SealedBlock>): (out: seq<Stamp>)
    ensures |out| == |blocks|
  {
    seq(|blocks|, i requires 0 <= i < |blocks| => Stamp(blocks[i].header.epoch, blocks[i].seal))
  }

  function WrittenSeals(blocks: seq<CommitBlock>): (out: seq<Stamp>)
    ensures |out| == |blocks|
  {
    seq(|blocks|, i requires 0 <= i < |blocks| => Stamp(blocks[i].header.epoch, blocks[i].seal))
  }

  function WrittenCommits(blocks: seq<CommitBlock>): (out: seq<Stamp>)
    ensures |out| == |blocks|
  {
    seq(|blocks|, i requires 0 <= i < |blocks| => Stamp(blocks[i].header.epoch, blocks[i].commit))
  }

  function SealsOf(events: seq<Event>): seq<Stamp> {
    if events == [] then []
    else
      var last := events[|events| - 1];
      SealsOf(events[..|events| - 1]) + if last.SealEpoch? then [Stamp(last.epoch, last.seal)] else []
  }

  function CommitsOf(events: seq<Event>): seq<Stamp> {
    if events == [] then []
    else
      var last := events[|events| - 1];
      CommitsOf(events[..|events| - 1]) + if last.CommitEpoch? then [Stamp(last.epoch, last.commit)] else []
  }

  /** Every seal and every commit a block carries came in an event of the block's own epoch, and each
      event stamped at most one block. */
  ghost predicate Stamped(p: Pools, seals: seq<Stamp>, commits: seq<Stamp>) {
    && multiset(SealStamps(p.sealed)) + multiset(WrittenSeals(p.written)) <= multiset(seals)
    && multiset(WrittenCommits(p.written)) <= multiset(commits)
  }

  lemma SealIsStamped(p: Pools, epoch: U64, seal: Bytes, seals: seq<Stamp>, commits: seq<Stamp>)
    requires p.current.Some? && Stamped(p, seals, commits)
    ensures Stamped(Seal(p, epoch, seal), seals + [Stamp(epoch, seal)], commits)
  {
    var q := Seal(p, epoch, seal);
    if q.sealed != p.sealed {
      assert SealStamps(q.sealed) == SealStamps(p.sealed) + [Stamp(epoch, seal)];
    }
  }

  lemma CommitIsStamped(p: Pools, epoch: U64, commit: Bytes, seals: seq<Stamp>, commits: seq<Stamp>)
    requires Stamped(p, seals, commits)
    ensures Stamped(Commit(p, epoch, commit), seals, commits + [Stamp(epoch, commit)])
  {
    var q, n := Commit(p, epoch, commit), FindSealed(p.sealed, epoch);
    if n < |p.sealed| {
      var stamps := SealStamps(p.sealed);
      assert SealStamps(q.sealed) == Without(stamps, n);
      assert WrittenSeals(q.written) == WrittenSeals(p.written) + [stamps[n]];
      assert WrittenCommits(q.written) == WrittenCommits(p.written) + [Stamp(epoch, commit)];
      MovingKeepsAll(stamps, WrittenSeals(p.written), n);
    }
  }

  lemma StampsOne(events: seq<Event>, ev: Event)
    ensures SealsOf(events + [ev]) == SealsOf(events) + if ev.SealEpoch? then [Stamp(ev.epoch, ev.seal)] else []
    ensures CommitsOf(events + [ev]) == CommitsOf(events) + if ev.CommitEpoch? then [Stamp(ev.epoch, ev.commit)] else []
  {
    assert (events + [ev])[..|events|] == events;
  }

  /** Over any run: what a written block carries as its seal came as a seal of its epoch, and what it
      carries as its commit came as a commit of its epoch. */
  lemma {:induction false} BlocksAreStamped(events: seq<Event>)
    requires Run(events).Some?
    ensures Stamped(Run(events).value, SealsOf(events), CommitsOf(events))
  {
    if events != [] {
      var front, ev := events[..|events| - 1], events[|events| - 1];
      assert events == front + [ev];
      RunOne(front, ev);
      BlocksAreStamped(front);
      StampsOne(front, ev);
      var p := Run(front).value;
      match ev
      case SealEpoch(epoch, seal) => SealIsStamped(p, epoch, seal, SealsOf(front), CommitsOf(front));
      case CommitEpoch(epoch, commit) => CommitIsStamped(p, epoch, commit, SealsOf(front), CommitsOf(front));
      case _ =>
    }
  }

  lemma SealKeepsSealedOrder(p: Pools, epoch: U64, seal: Bytes, seals: seq<Stamp>)
    requires p.current.Some? && Within(SealStamps(p.sealed), seals)
    ensures Within(SealStamps(Seal(p, epoch, seal).sealed), seals + [Stamp(epoch, seal)])
    ensures Seal(p, epoch, seal).written == p.written
  {
    WithinMore(SealStamps(p.sealed), seals, Stamp(epoch, seal));
    if Seal(p, epoch, seal).sealed != p.sealed {
      assert SealStamps(Seal(p, epoch, seal).sealed) == SealStamps(p.sealed) + [Stamp(epoch, seal)];
    }
  }

  lemma CommitKeepsSealedOrder(p: Pools, epoch: U64, commit: Bytes, seals: seq<Stamp>)
    requires Within(SealStamps(p.sealed), seals)
    ensures Within(SealStamps(Commit(p, epoch, commit).sealed), seals)
  {
    var n := FindSealed(p.sealed, epoch);
    if n < |p.sealed| {
      WithinWithout(SealStamps(p.sealed), seals, n);
      assert SealStamps(Without(p.sealed, n)) == Without(SealStamps(p.sealed), n);
    }
  }

  lemma CommitKeepsWrittenOrder(p: Pools, epoch: U64, commit: Bytes, commits: seq<Stamp>)
    requires Within(WrittenCommits(p.written), commits)
    ensures Within(WrittenCommits(Commit(p, epoch, commit).written), commits + [Stamp(epoch, commit)])
  {
    WithinMore(WrittenCommits(p.written), commits, Stamp(epoch, commit));
    if FindSealed(p.sealed, epoch) < |p.sealed| {
      assert WrittenCommits(Commit(p, epoch, commit).written) == WrittenCommits(p.written) + [Stamp(epoch, commit)];
    }
  }

  lemma {:induction false} StepKeepsStampOrder(p: Pools, ev: Event, seals: seq<Stamp>, commits: seq<Stamp>)
    requires Legal(p, ev) && Within(SealStamps(p.sealed), seals) && Within(WrittenCommits(p.written), commits)
    ensures Within(SealStamps(Step(p, ev).sealed), if ev.SealEpoch? then seals + [Stamp(ev.epoch, ev.seal)] else seals)
    ensures Within(WrittenCommits(Step(p, ev).written),
                   if ev.CommitEpoch? then commits + [Stamp(ev.epoch, ev.commit)] else commits)
  {
    match ev
    case SealEpoch(epoch, seal) => SealKeepsSealedOrder(p, epoch, seal, seals);
    case CommitEpoch(epoch, commit) =>
      CommitKeepsSealedOrder(p, epoch, commit, seals);
      CommitKeepsWrittenOrder(p, epoch, commit, commits);
    case _ =>
  }

  /** Sealed blocks wait in the order they were sealed, and blocks are written in the order they were
      committed. */
  lemma {:induction false} StampsInOrder(events: seq<Event>)
    requires Run(events).Some?
    ensures Within(SealStamps(Run(events).value.sealed), SealsOf(events))
    ensures Within(WrittenCommits(Run(events).value.written), CommitsOf(events))
  {
    if events != [] {
      var front, ev := events[..|events| - 1], events[|events| - 1];
      assert events == front + [ev];
      RunOne(front, ev);
      StampsInOrder(front);
      StampsOne(front, ev);
      StepKeepsStampOrder(Run(front).value, ev, SealsOf(front), CommitsOf(front));
      assert SealsOf(front) + [] == SealsOf(front) && CommitsOf(front) + [] == CommitsOf(front);
    }
  }

  // ----- the store -----

  datatype BlockIndex = BlockIndex(storageCount: nat, offset: nat)

  /** `prependSize`: the length is cut to four bytes. */
  function PrependSize(data: Bytes): Bytes {
    PutUint(|data| % TWO_32, 4) + data
  }

  ghost predicate Framed(data: Bytes, offset: nat, payload: Bytes) {
    && offset + 4 + |payload| <= |data|
    && data[offset..offset + 4] == PutUint(|payload| % TWO_32, 4)
    && data[offset + 4..offset + 4 + |payload|] == payload
  }

  lemma FramedReads(data: Bytes, offset: nat, payload: Bytes)
    requires Framed(data, offset, payload)
    ensures var size := Value(ReadBytes(data, offset, 4));
            size == |payload| % TWO_32 && ReadBytes(data, offset + 4, size) == payload[..size]
  {
    var size := |payload| % TWO_32;
    WidthBounds();
    ValueOfPut(size, 4);
    ReadInside(data, offset, 4);
    ReadInside(data, offset + 4, size);
    TakeWithin(data, offset + 4, offset + 4 + |payload|, size);
  }

  class BlockStore {
    const serialize: CommitBlock -> Bytes
    const storage: seq<ByteStore>
    var blocks: seq<BlockIndex>
    var current: Option<Builder>
    var unsealed: seq<Builder>
    var sealed: seq<SealedBlock>
    ghost var written: seq<CommitBlock>

    ghost predicate Valid()
      reads this, storage
    {
      && storage != [] && |blocks| == |written|
      && forall k :: 0 <= k < |blocks| ==>
           && blocks[k].storageCount < |storage|
           && Framed(storage[blocks[k].storageCount].data, blocks[k].offset, serialize(written[k]))
    }

    ghost function View(): Pools
      reads this
    {
      Pools(current, unsealed, sealed, written)
    }

    constructor (serialize: CommitBlock -> Bytes, storage: seq<ByteStore>)
      requires storage != []
      ensures Valid() && View() == NOTHING && this.storage == storage && this.serialize == serialize
    {
      this.serialize, this.storage := serialize, storage;
      blocks, current, unsealed, sealed, written := [], None, [], [], [];
    }

    method NewBlock(header: Header)
      requires Valid()
      modifies this`current, this`unsealed
      ensures Valid() && View() == New(old(View()), header)
    {
      if current.Some? {
        unsealed := unsealed + [current.value];
      }
      current := Some(Builder(header, []));
    }

    method AddAction(action: Bytes)
      requires Valid() && current.Some?
      modifies this`current
      ensures Valid() && View() == Action(old(View()), action)
    {
      current := Some(current.value.(actions := current.value.actions + [action]));
    }

    method SealBlock(epoch: U64, seal: Bytes)
      requires Valid() && current.Some?
      modifies this`current, this`unsealed, this`sealed
      ensures Valid() && View() == Seal(old(View()), epoch, seal)
    {
      var block: Option<Builder> := None;
      if current.value.header.epoch == epoch {
        block := current;
        current := None;
      } else {
        for n := 0 to |unsealed|
          invariant block == None && unsealed == old(unsealed)
          invariant forall i :: 0 <= i < n ==> unsealed[i].header.epoch != epoch
        {
          if unsealed[n].header.epoch == epoch {
            assert FindUnsealed(unsealed, epoch) == n;
            block := Some(unsealed[n]);
            unsealed := Without(unsealed, n);
            break;
          }
        }
      }
      if block.Some? {
        sealed := sealed + [SealedBlock(block.value.header, block.value.actions, seal)];
      }
    }

    method AppendBlock(commit: CommitBlock)
      requires Valid()
      modifies this`blocks, this`written, storage[|storage| - 1]
      ensures Valid() && written == old(written) + [commit]
    {
      var bytes := serialize(commit);
      var last := |storage| - 1;
      var offset := |storage[last].data|;
      storage[last].Append(PrependSize(bytes));
      blocks := blocks + [BlockIndex(last, offset)];
      written := written + [commit];
      Splits(storage[last].data, old(storage[last].data) + PutUint(|bytes| % TWO_32, 4), bytes, []);
      Splits(storage[last].data, old(storage[last].data), PutUint(|bytes| % TWO_32, 4), bytes);
      forall k | 0 <= k < |blocks| - 1
        ensures Framed(storage[blocks[k].storageCount].data, blocks[k].offset, serialize(written[k]))
      {
        FramedStays(old(storage[blocks[k].storageCount].data), storage[blocks[k].storageCount].data,
                    blocks[k].offset, serialize(written[k]));
      }
    }

    method CommitBlockOf(epoch: U64, commit: Bytes)
      requires Valid()
      modifies this`blocks, this`written, this`sealed, storage[|storage| - 1]
      ensures Valid() && View() == Commit(old(View()), epoch, commit)
    {
      for n := 0 to |sealed|
        invariant forall i :: 0 <= i < n ==> sealed[i].header.epoch != epoch
      {
        if sealed[n].header.epoch == epoch {
          assert FindSealed(sealed, epoch) == n;
          var block := sealed[n];
          sealed := Without(sealed, n);
          AppendBlock(CommitBlock(block.header, block.actions, block.seal, commit));
          return;
        }
      }
      assert FindSealed(sealed, epoch) == |sealed|;
    }

    /** The k-th block written reads back whole exactly when its length fits four bytes. */
    method GetBlock(epoch: nat) returns (data: Option<Bytes>)
      requires Valid()
      ensures epoch >= |written| ==> data == None
      ensures epoch < |written| ==>
                var payload := serialize(written[epoch]);
                && data == Some(payload[..|payload| % TWO_32])
                && (data == Some(payload) <==> |payload| < TWO_32)
    {
      if epoch >= |blocks| {
        return None;
      }
      var index := blocks[epoch];
      ghost var payload := serialize(written[epoch]);
      FramedReads(storage[index.storageCount].data, index.offset, payload);
      assert payload[..|payload|] == payload;
      var head := storage[index.storageCount].ReadAt(index.offset, 4);
      var bytes := storage[index.storageCount].ReadAt(index.offset + 4, Value(head));
      data := Some(bytes);
    }
  }

  lemma FramedStays(data: Bytes, longer: Bytes, offset: nat, payload: Bytes)
    requires Framed(data, offset, payload) && |data| <= |longer| && longer[..|data|] == data
    ensures Framed(longer, offset, payload)
  {
    PrefixSlice(data, longer, offset, offset + 4);
    PrefixSlice(data, longer, offset + 4, offset + 4 + |payload|);
  }
}
