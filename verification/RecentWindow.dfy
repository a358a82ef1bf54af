/** `RecentBlocks` in topos/chain.go and `MemoryBlock` in topos/block.go: a window of the last closed
    blocks, and the catch-up stream a late connection gets from it. The lock is not modelled. */
module RecentWindow {
  import opened Codec

  /** `ends[n]` is where the n-th action ends in `data`. */
  datatype MemoryBlock = MemoryBlock(epoch: nat, ends: seq<nat>, data: Bytes) {
    ghost predicate WellFormed() {
      && (forall i, j :: 0 <= i <= j < |ends| ==> ends[i] <= ends[j])
      && (forall i :: 0 <= i < |ends| ==> ends[i] <= |data|)
      && |data| == if ends == [] then 0 else ends[|ends| - 1]
    }

    function StartOf(n: nat): nat
      requires n < |ends|
    {
      if n == 0 then 0 else ends[n - 1]
    }

    function Action(n: nat): Bytes
      requires WellFormed() && n < |ends|
    {
      data[StartOf(n)..ends[n]]
    }

    function Append(action: Bytes): MemoryBlock {
      MemoryBlock(epoch, ends + [|data| + |action|], data + action)
    }

    /** The slice starts one byte late, and panics on an empty action (topos/block.go line 28). */
    function Get(n: nat): Bytes
      requires WellFormed() && n < |ends| && Action(n) != []
    {
      data[StartOf(n) + 1..ends[n]]
    }
  }

  lemma AppendKeepsActions(b: MemoryBlock, action: Bytes, n: nat)
    requires b.WellFormed() && n <= |b.ends|
    ensures b.Append(action).WellFormed()
    ensures b.Append(action).Action(n) == if n < |b.ends| then b.Action(n) else action
  {
    var after := b.Append(action);
    if n < |b.ends| {
      assert after.data[after.StartOf(n)..after.ends[n]] == b.data[b.StartOf(n)..b.ends[n]];
    }
  }

  datatype Message =
    | BlockMessage(epoch: nat, previous: Hash)
    | ActionMessage(content: Bytes)
    | SyncError

  /** The messages of the first n actions of a block. */
  function ActionMessages(b: MemoryBlock, n: nat): seq<Message>
    requires b.WellFormed() && n <= |b.ends| && NoEmptyAction(b)
  {
    if n == 0 then [] else ActionMessages(b, n - 1) + [ActionMessage(b.Action(n - 1)[1..])]
  }

  ghost predicate NoEmptyAction(b: MemoryBlock)
    requires b.WellFormed()
  {
    forall n :: 0 <= n < |b.ends| ==> b.Action(n) != []
  }

  ghost predicate AllSendable(blocks: seq<MemoryBlock>) {
    forall i :: 0 <= i < |blocks| ==> blocks[i].WellFormed() && NoEmptyAction(blocks[i])
  }

  function BlockMessages(hasher: Bytes -> Hash, previous: MemoryBlock, b: MemoryBlock): seq<Message>
    requires b.WellFormed() && NoEmptyAction(b)
  {
    [BlockMessage(b.epoch, hasher(previous.data))] + ActionMessages(b, |b.ends|)
  }

  /** The stream of some blocks: every header names its predecessor's hash. */
  function Stream(hasher: Bytes -> Hash, previous: MemoryBlock, blocks: seq<MemoryBlock>): seq<Message>
    requires AllSendable(blocks)
    decreases |blocks|
  {
    if blocks == [] then [] else BlockMessages(hasher, previous, blocks[0]) + Stream(hasher, blocks[0], blocks[1..])
  }

  /** The blocks after position k. */
  function After(all: seq<MemoryBlock>, k: nat): seq<MemoryBlock> {
    if k < |all| then all[k + 1..] else []
  }

  /** Everything after position k, all of it. */
  function CatchUp(hasher: Bytes -> Hash, all: seq<MemoryBlock>, k: nat): seq<Message>
    requires AllSendable(After(all, k))
  {
    if k < |all| then Stream(hasher, all[k], After(all, k)) else []
  }

  /** What `Sync` sends a peer at `shift` epochs past the oldest block: an error below it, nothing
      one epoch past it, everything later beyond that. */
  function Answer(hasher: Bytes -> Hash, all: seq<MemoryBlock>, shift: int): seq<Message>
    requires shift > 1 ==> AllSendable(After(all, shift))
  {
    if shift < 1 then [SyncError] else if shift == 1 then [] else CatchUp(hasher, all, shift)
  }

  /** A peer that gets no error gets everything it lacks exactly when it is not one epoch past the
      oldest block, or lacks nothing. */
  lemma AnswerIsCompleteIff(hasher: Bytes -> Hash, all: seq<MemoryBlock>, shift: nat)
    requires 1 <= shift && AllSendable(After(all, shift))
    ensures Answer(hasher, all, shift) == CatchUp(hasher, all, shift) <==> shift != 1 || |all| <= 2
  {
    if shift == 1 && |all| > 2 {
      assert |CatchUp(hasher, all, 1)| >= |BlockMessages(hasher, all[1], all[2])| > 0;
    }
  }

  /** A window of two blocks and the current one, and a peer at the second: nothing is sent, and the
      current block is missing. */
  lemma AnswerIsIncomplete(hasher: Bytes -> Hash)
    ensures var all := [MemoryBlock(1, [], []), MemoryBlock(2, [], []), MemoryBlock(3, [], [])];
            Answer(hasher, all, 1) == [] && CatchUp(hasher, all, 1) == [BlockMessage(3, hasher([]))]
  {
    var a, b, c := MemoryBlock(1, [], []), MemoryBlock(2, [], []), MemoryBlock(3, [], []);
    assert After([a, b, c], 1) == [c];
    assert Stream(hasher, c, []) == [] && ActionMessages(c, 0) == [];
    assert Stream(hasher, b, [c]) == BlockMessages(hasher, b, c) + Stream(hasher, c, [c][1..]);
  }

  /** What a peer makes of a stream: a header opens a block, an action belongs to the last one. */
  datatype Received = Received(epoch: nat, previous: Hash, contents: seq<Bytes>)

  function ReadOne(blocks: seq<Received>, m: Message): seq<Received> {
    match m
    case BlockMessage(epoch, previous) => blocks + [Received(epoch, previous, [])]
    case ActionMessage(content) =>
      if blocks == [] then blocks
      else
        var last := |blocks| - 1;
        blocks[last := blocks[last].(contents := blocks[last].contents + [content])]
    case SyncError => blocks
  }

  function Read(blocks: seq<Received>, messages: seq<Message>): seq<Received>
    decreases |messages|
  {
    if messages == [] then blocks else Read(ReadOne(blocks, messages[0]), messages[1..])
  }

  lemma {:induction false} ReadAppend(blocks: seq<Received>, first: seq<Message>, second: seq<Message>)
    ensures Read(blocks, first + second) == Read(Read(blocks, first), second)
    decreases |first|
  {
    if first == [] {
      assert first + second == second;
    } else {
      assert (first + second)[1..] == first[1..] + second;
      ReadAppend(ReadOne(blocks, first[0]), first[1..], second);
    }
  }

  lemma ReadLast(blocks: seq<Received>, messages: seq<Message>, m: Message)
    ensures Read(blocks, messages + [m]) == ReadOne(Read(blocks, messages), m)
  {
    ReadAppend(blocks, messages, [m]);
    assert [m][1..] == [];
  }

  /** What arrives of an action: its bytes but the first, which `Get` loses. */
  ghost predicate Carries(r: Received, b: MemoryBlock, previous: Hash, n: nat)
    requires b.WellFormed() && n <= |b.ends|
  {
    && r.epoch == b.epoch && r.previous == previous && |r.contents| == n
    && forall k :: 0 <= k < n ==> b.Action(k) != [] && r.contents[k] == b.Action(k)[1..]
  }

  lemma {:induction false} ActionsAreRead(blocks: seq<Received>, r: Received, b: MemoryBlock, n: nat) returns (s: Received)
    requires b.WellFormed() && NoEmptyAction(b) && n <= |b.ends| && r == Received(b.epoch, r.previous, [])
    ensures Read(blocks + [r], ActionMessages(b, n)) == blocks + [s]
    ensures Carries(s, b, r.previous, n)
  {
    if n == 0 {
      s := r;
    } else {
      var t := ActionsAreRead(blocks, r, b, n - 1);
      ReadLast(blocks + [r], ActionMessages(b, n - 1), ActionMessage(b.Action(n - 1)[1..]));
      s := t.(contents := t.contents + [b.Action(n - 1)[1..]]);
      assert (blocks + [t])[|blocks| := s] == blocks + [s];
    }
  }

  /** One block of the stream: its epoch, its predecessor's hash and all its actions in order. */
  lemma BlockIsRead(blocks: seq<Received>, hasher: Bytes -> Hash, previous: MemoryBlock, b: MemoryBlock) returns (s: Received)
    requires b.WellFormed() && NoEmptyAction(b)
    ensures Read(blocks, BlockMessages(hasher, previous, b)) == blocks + [s]
    ensures Carries(s, b, hasher(previous.data), |b.ends|)
  {
    var r := Received(b.epoch, hasher(previous.data), []);
    var head := [BlockMessage(b.epoch, hasher(previous.data))];
    ReadAppend(blocks, head, ActionMessages(b, |b.ends|));
    assert head[1..] == [] && Read(blocks, head) == blocks + [r];
    s := ActionsAreRead(blocks, r, b, |b.ends|);
  }

  /** Block by block, what is read is what was sent. */
  ghost predicate AllCarried(read: seq<Received>, hasher: Bytes -> Hash, previous: MemoryBlock, blocks: seq<MemoryBlock>)
    requires AllSendable(blocks)
    decreases |blocks|
  {
    && |read| == |blocks|
    && (blocks != [] ==>
          && Carries(read[0], blocks[0], hasher(previous.data), |blocks[0].ends|)
          && AllCarried(read[1..], hasher, blocks[0], blocks[1..]))
  }

  function Before(previous: MemoryBlock, blocks: seq<MemoryBlock>, i: nat): MemoryBlock
    requires i <= |blocks|
  {
    if i == 0 then previous else blocks[i - 1]
  }

  /** The i-th block read is the i-th block sent, with the hash of the one before it. */
  lemma {:induction false} CarriedAt(read: seq<Received>, hasher: Bytes -> Hash, previous: MemoryBlock, blocks: seq<MemoryBlock>, i: nat)
    requires AllSendable(blocks) && AllCarried(read, hasher, previous, blocks) && i < |blocks|
    ensures Carries(read[i], blocks[i], hasher(Before(previous, blocks, i).data), |blocks[i].ends|)
    decreases i
  {
    if i > 0 {
      CarriedAt(read[1..], hasher, blocks[0], blocks[1..], i - 1);
      assert Before(blocks[0], blocks[1..], i - 1) == Before(previous, blocks, i);
    }
  }

  lemma {:induction false} StreamIsRead(before: seq<Received>, hasher: Bytes -> Hash, previous: MemoryBlock, blocks: seq<MemoryBlock>)
      returns (read: seq<Received>)
    requires AllSendable(blocks)
    ensures Read(before, Stream(hasher, previous, blocks)) == before + read
    ensures AllCarried(read, hasher, previous, blocks)
    decreases |blocks|
  {
    if blocks == [] {
      read := [];
      assert before + read == before;
    } else {
      ReadAppend(before, BlockMessages(hasher, previous, blocks[0]), Stream(hasher, blocks[0], blocks[1..]));
      var s := BlockIsRead(before, hasher, previous, blocks[0]);
      var rest := StreamIsRead(before + [s], hasher, blocks[0], blocks[1..]);
      read := [s] + rest;
      Associates(before, [s], rest);
      assert read[1..] == rest;
    }
  }

  /** What a peer reads of an answer without an error: every later block of the window up to the current
      one, each with its predecessor's hash and its actions, or nothing one epoch past the oldest or beyond the current one. */
  lemma AnswerIsRead(hasher: Bytes -> Hash, all: seq<MemoryBlock>, shift: nat) returns (read: seq<Received>)
    requires 1 <= shift && AllSendable(After(all, shift))
    ensures read == Read([], Answer(hasher, all, shift))
    ensures if shift == 1 || shift >= |all| then read == [] else AllCarried(read, hasher, all[shift], After(all, shift))
  {
    read := Read([], Answer(hasher, all, shift));
    if 1 < shift < |all| {
      var blocks := StreamIsRead([], hasher, all[shift], After(all, shift));
      assert [] + blocks == blocks;
    }
  }

  /** With contiguous epochs the blocks read are those of the peer's epoch + 1, + 2, up to the current
      one. */
  lemma HeadersFollow(hasher: Bytes -> Hash, all: seq<MemoryBlock>, oldest: nat, shift: nat) returns (read: seq<Received>)
    requires forall i :: 0 <= i < |all| ==> all[i].epoch == oldest + i
    requires 1 < shift < |all| && AllSendable(After(all, shift))
    ensures read == Read([], Answer(hasher, all, shift)) && |read| == |all| - 1 - shift
    ensures forall i :: 0 <= i < |read| ==> read[i].epoch == oldest + shift + 1 + i
  {
    read := AnswerIsRead(hasher, all, shift);
    var blocks := After(all, shift);
    forall i | 0 <= i < |read| ensures read[i].epoch == oldest + shift + 1 + i {
      CarriedAt(read, hasher, all[shift], blocks, i);
      assert blocks[i] == all[shift + 1 + i];
    }
  }

  /** The last n of a list. */
  function LastOf<T>(s: seq<T>, n: int): seq<T> {
    s[|s| - Min(|s|, if n < 0 then 0 else n)..]
  }

  lemma LastOfOneMore<T>(s: seq<T>, x: T, n: int)
    ensures var b := LastOf(s, n) + [x];
            LastOf(s + [x], n) == if |b| > n then b[1..] else b
  {
  }

  /** Go's conversion of an unsigned epoch to a signed int. */
  function ToInt(epoch: U64): int {
    if epoch < TWO_63 then epoch else epoch - TWO_64
  }

  class RecentBlocks {
    const hasher: Bytes -> Hash
    const maxBlocks: int
    var blocks: seq<MemoryBlock>
    var current: MemoryBlock
    /** Every block ever closed. */
    ghost var closed: seq<MemoryBlock>

    /** The window is exactly the last `maxBlocks` closed blocks, and epochs are contiguous up to the
        current block. */
    ghost predicate Valid()
      reads this
    {
      && blocks == LastOf(closed, maxBlocks)
      && current.WellFormed()
      && (forall i :: 0 <= i < |closed| ==> closed[i].WellFormed() && closed[i].epoch + |closed| - i == current.epoch)
    }

    constructor (hasher: Bytes -> Hash, maxBlocks: int, epoch: nat)
      ensures Valid() && closed == [] && current == MemoryBlock(epoch, [], [])
      ensures this.hasher == hasher && this.maxBlocks == maxBlocks
    {
      this.hasher, this.maxBlocks := hasher, maxBlocks;
      blocks, current, closed := [], MemoryBlock(epoch, [], []), [];
    }

    method Append(action: Bytes)
      requires Valid()
      modifies this`current
      ensures Valid() && current == old(current).Append(action)
    {
      current := current.Append(action);
    }

    method NextBlock()
      requires Valid()
      modifies this
      ensures Valid() && closed == old(closed) + [old(current)]
      ensures current == MemoryBlock(old(current).epoch + 1, [], [])
    {
      LastOfOneMore(closed, current, maxBlocks);
      closed := closed + [current];
      blocks := blocks + [current];
      if |blocks| > maxBlocks {
        blocks := blocks[1..];
      }
      current := MemoryBlock(current.epoch + 1, [], []);
    }

    /** The blocks of the window and the current one, oldest first. */
    ghost function All(): seq<MemoryBlock>
      reads this
    {
      blocks + [current]
    }

    /** The cache of `Sync`: what is closed from `shift` on, and a clone of the current block. */
    method Cache(shift: int) returns (cache: seq<MemoryBlock>)
      requires shift > 1
      ensures cache == if shift <= |blocks| then All()[shift..] else [current]
    {
      cache := [];
      var n := shift;
      while n < |blocks|
        invariant n >= shift && (shift <= |blocks| ==> n <= |blocks|)
        invariant cache == if shift <= |blocks| then blocks[shift..n] else []
      {
        cache := cache + [blocks[n]];
        n := n + 1;
      }
      cache := cache + [current];
    }

    method SendBlock(previous: MemoryBlock, b: MemoryBlock) returns (sent: seq<Message>)
      requires b.WellFormed() && NoEmptyAction(b)
      ensures sent == BlockMessages(hasher, previous, b)
    {
      sent := [BlockMessage(b.epoch, hasher(previous.data))];
      for l := 0 to |b.ends|
        invariant sent == [BlockMessage(b.epoch, hasher(previous.data))] + ActionMessages(b, l)
      {
        assert b.Get(l) == b.Action(l)[1..];
        sent := sent + [ActionMessage(b.Get(l))];
      }
    }

    method SendCache(cache: seq<MemoryBlock>) returns (sent: seq<Message>)
      requires AllSendable(After(cache, 0))
      ensures sent == CatchUp(hasher, cache, 0)
    {
      sent := [];
      var n := 1;
      while n < |cache|
        invariant 1 <= n && (cache != [] ==> n <= |cache|)
        invariant cache != [] ==> sent + Stream(hasher, cache[n - 1], cache[n..]) == CatchUp(hasher, cache, 0)
        invariant cache == [] ==> sent == []
      {
        assert cache[n..][1..] == cache[n + 1..];
        var messages := SendBlock(cache[n - 1], cache[n]);
        Associates(sent, messages, Stream(hasher, cache[n], cache[n + 1..]));
        sent := sent + messages;
        n := n + 1;
      }
    }

    /** A peer one epoch past the oldest block gets neither an error nor any block: the cache is
        built only for a larger shift. `blocks[0]` needs a block in the window. */
    method Sync(epoch: U64) returns (sent: seq<Message>)
      requires Valid() && blocks != []
      requires var shift := ToInt(epoch) - blocks[0].epoch;
               shift > 1 ==> AllSendable(After(All(), shift))
      ensures sent == Answer(hasher, All(), ToInt(epoch) - blocks[0].epoch)
    {
      var shift := ToInt(epoch) - blocks[0].epoch;
      var cache: seq<MemoryBlock> := [];
      if shift > 1 {
        cache := Cache(shift);
        assert shift < |All()| ==> After(cache, 0) == After(All(), shift);
      }
      if shift < 1 {
        return [SyncError];
      }
      sent := SendCache(cache);
    }

    /** Exactly the closed blocks of the window at or above the epoch. */
    method Clone(epoch: U64) returns (cloned: seq<MemoryBlock>)
      requires Valid()
      ensures |cloned| <= |blocks| && cloned == blocks[|blocks| - |cloned|..]
      ensures forall i :: 0 <= i < |blocks| ==> (blocks[i].epoch >= epoch <==> i >= |blocks| - |cloned|)
    {
      for n := 0 to |blocks|
        invariant forall i :: 0 <= i < n ==> blocks[i].epoch < epoch
      {
        if blocks[n].epoch >= epoch {
          return blocks[n..];
        }
      }
      return [];
    }
  }
}
