/** The signal loop of `LaunchNode` (social/node.go lines 36-81): each accepted chain step becomes
    a message, in order. */
module Node {
  import opened BlockChain
  import opened Codec
  import opened Messages
  import opened Wrappers
  import ProtocolBlocks
  import Spec = SocialChain

  datatype Signal =
    | ErrSignal
    | NewBlockSignal(epoch: U64)
    | ActionSignal(action: Bytes)
    | ActionArraySignal(count: nat, action: Bytes)
    | SealSignal(epoch: U64, hash: Hash)
    | CommitSignal(epoch: U64, invalidated: seq<Hash>)

  /** `forward` is everything pushed to the broadcast channel; `committed` records the blocks the
      chain has committed, in commit order, as the chain holds them. */
  datatype State = State(
    chain: Spec.Chain,
    forward: seq<Bytes>,
    committed: seq<ProtocolBlocks.ProtocolBlock>,
    finished: bool)

  function Start(chain: Spec.Chain): State {
    State(chain, [], [], false)
  }

  function Submit(rules: Spec.Rules, s: State, action: Bytes): State {
    var (chain, valid) := Spec.Validate(rules, s.chain, action);
    s.(chain := chain, forward := s.forward + if valid then [ActionSocial(action)] else [])
  }

  function SubmitTimes(rules: Spec.Rules, s: State, action: Bytes, count: nat): State {
    if count == 0 then s else Submit(rules, SubmitTimes(rules, s, action, count - 1), action)
  }

  function Open(s: State, epoch: U64): State {
    var reply := Spec.NextBlock(s.chain, epoch);
    s.(chain := reply.chain, forward := s.forward + if reply.result.Ok? then [NewBlockSocial(reply.chain.epoch)] else [])
  }

  function Seal(rules: Spec.Rules, s: State, epoch: U64, hash: Hash): State {
    var reply := Spec.SealBlock(rules, s.chain, epoch, hash);
    s.(chain := reply.chain,
       forward := s.forward + if reply.result.Ok? then [SealBlockSocial(epoch, reply.result.value)] else [])
  }

  function Published(rules: Spec.Rules, block: Spec.Block): ProtocolBlocks.ProtocolBlock {
    ProtocolBlocks.Unsigned(block.epoch, block.actions, block.invalidated, rules.hashList(block.actions))
  }

  function Commit(rules: Spec.Rules, s: State, epoch: U64, invalidated: seq<Hash>): State {
    var reply := Spec.Commit(rules, s.chain, epoch, invalidated);
    if reply.result.Err? then s
    else
      var n := Spec.CommitTarget(s.chain.recent, epoch).value;
      s.(chain := reply.chain,
         forward := s.forward + [CommitBlockSocial(epoch, reply.result.value)],
         committed := s.committed + [Published(rules, reply.chain.recent[n])])
  }

  /** An action array resubmits `signal.Action` once per element, and not the elements (line 59). */
  function Step(rules: Spec.Rules, s: State, signal: Signal): State {
    if s.finished then s
    else
      match signal
      case ErrSignal => s.(finished := true)
      case NewBlockSignal(epoch) => Open(s, epoch)
      case ActionSignal(action) => Submit(rules, s, action)
      case ActionArraySignal(count, action) => SubmitTimes(rules, s, action, count)
      case SealSignal(epoch, hash) => Seal(rules, s, epoch, hash)
      case CommitSignal(epoch, invalidated) => Commit(rules, s, epoch, invalidated)
  }

  function Run(rules: Spec.Rules, s: State, signals: seq<Signal>): State {
    if signals == [] then s
    else Step(rules, Run(rules, s, signals[..|signals| - 1]), signals[|signals| - 1])
  }

  /** After an error signal nothing more happens, whatever is signalled. */
  lemma {:induction false} NothingAfterError(rules: Spec.Rules, s: State, before: seq<Signal>, after: seq<Signal>)
    ensures Run(rules, s, before + [ErrSignal] + after) == Run(rules, s, before).(finished := true)
  {
    if after == [] {
      assert before + [ErrSignal] + after == before + [ErrSignal];
      assert (before + [ErrSignal])[..|before|] == before;
    } else {
      var last := |after| - 1;
      NothingAfterError(rules, s, before, after[..last]);
      assert (before + [ErrSignal] + after)[..|before + [ErrSignal] + after| - 1] == before + [ErrSignal] + after[..last];
    }
  }

  /** An array signal is its one action, signalled as often as the array is long. */
  lemma {:induction false} ArraySignalIsRepeated(rules: Spec.Rules, s: State, count: nat, action: Bytes)
    requires !s.finished
    ensures Step(rules, s, ActionArraySignal(count, action)) == Run(rules, s, seq(count, _ => ActionSignal(action)))
    ensures !Run(rules, s, seq(count, _ => ActionSignal(action))).finished
  {
    if count > 0 {
      ArraySignalIsRepeated(rules, s, count - 1, action);
      assert seq(count, _ => ActionSignal(action))[..count - 1] == seq(count - 1, _ => ActionSignal(action));
    }
  }

  /** The listener for breeze blocks leaves `Action` nil in an array signal, so without a transform
      the actions of an already sealed or committed block never reach the chain. */
  lemma {:induction false} ArraySignalAddsNothing(rules: Spec.Rules, s: State, count: nat)
    requires rules.transform == None
    ensures Step(rules, s, ActionArraySignal(count, [])) == s
  {
    if count > 0 {
      ArraySignalAddsNothing(rules, s, count - 1);
    }
  }

  class SignalLoop {
    const blockchain: SocialBlockChain
    var forward: seq<Bytes>
    var finished: bool
    ghost var committed: seq<ProtocolBlocks.ProtocolBlock>

    constructor (blockchain: SocialBlockChain)
      requires blockchain.Valid()
      ensures Valid() && this.blockchain == blockchain
      ensures View() == Start(blockchain.View())
    {
      this.blockchain, forward, finished, committed := blockchain, [], false, [];
    }

    ghost predicate Valid()
      reads this, blockchain
    {
      blockchain.Valid()
    }

    ghost function View(): State
      reads this, blockchain, blockchain.live, blockchain.validator, blockchain.commit, blockchain.recentBlocks
    {
      State(blockchain.View(), forward, committed, finished)
    }

    method Forward(message: Bytes)
      requires Valid()
      modifies this`forward
      ensures Valid() && blockchain.Repr() == old(blockchain.Repr())
      ensures View() == old(View()).(forward := old(forward) + [message])
    {
      forward := forward + [message];
    }

    method SubmitOne(action: Bytes)
      requires Valid()
      modifies this`forward, blockchain.live, blockchain.validator
      ensures Valid() && View() == Submit(blockchain.rules, old(View()), action)
    {
      var valid := blockchain.Validate(action);
      if valid {
        Forward(ActionSocial(action));
      }
    }

    method SubmitMany(action: Bytes, count: nat)
      requires Valid()
      modifies this`forward, blockchain.live, blockchain.validator
      ensures Valid() && View() == SubmitTimes(blockchain.rules, old(View()), action, count)
    {
      for n := 0 to count
        invariant Valid() && View() == SubmitTimes(blockchain.rules, old(View()), action, n)
      {
        SubmitOne(action);
      }
    }

    method OpenOne(epoch: U64)
      requires Valid()
      modifies this`forward, blockchain.Repr()
      ensures Valid() && fresh(blockchain.Repr() - old(blockchain.Repr()))
      ensures View() == Open(old(View()), epoch)
    {
      var result := blockchain.NextBlock(epoch);
      if result.Ok? {
        Forward(NewBlockSocial(blockchain.epoch));
      }
    }

    method SealOne(epoch: U64, hash: Hash)
      requires Valid()
      modifies this`forward, blockchain.Repr()
      ensures Valid() && blockchain.Repr() == old(blockchain.Repr())
      ensures View() == Seal(blockchain.rules, old(View()), epoch, hash)
    {
      var result := blockchain.SealBlock(epoch, hash);
      if result.Ok? {
        Forward(SealBlockSocial(epoch, result.value));
      }
    }

    method Publish(message: Bytes, ghost all: seq<ProtocolBlocks.ProtocolBlock>)
      requires Valid()
      modifies this`forward, this`committed
      ensures Valid() && blockchain.Repr() == old(blockchain.Repr())
      ensures View() == old(View()).(forward := old(forward) + [message], committed := all)
    {
      forward, committed := forward + [message], all;
    }

    method CommitOne(epoch: U64, invalidated: seq<Hash>)
      requires Valid()
      modifies this`forward, this`committed, blockchain.Repr()
      ensures Valid() && blockchain.Repr() == old(blockchain.Repr())
      ensures View() == Commit(blockchain.rules, old(View()), epoch, invalidated)
    {
      ghost var after := Commit(blockchain.rules, View(), epoch, invalidated);
      var result := blockchain.Commit(epoch, invalidated);
      if result.Ok? {
        Publish(CommitBlockSocial(epoch, result.value), after.committed);
      }
    }

    method HandleSignal(signal: Signal)
      requires Valid()
      modifies this, blockchain.Repr()
      ensures Valid() && fresh(blockchain.Repr() - old(blockchain.Repr()))
      ensures View() == Step(blockchain.rules, old(View()), signal)
    {
      if finished {
        return;
      }
      match signal
      case ErrSignal => finished := true;
      case NewBlockSignal(epoch) => OpenOne(epoch);
      case ActionSignal(action) => SubmitOne(action);
      case ActionArraySignal(count, action) => SubmitMany(action, count);
      case SealSignal(epoch, hash) => SealOne(epoch, hash);
      case CommitSignal(epoch, invalidated) => CommitOne(epoch, invalidated);
    }
  }
}
