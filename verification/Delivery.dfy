/** What the delivered blocks hold: the committed action lists run one action at
    a time from the initial state, each block with the hashes of what that run rejects. */
module Delivery {
  import opened ChainReplay
  import opened Codec
  import opened Overlay
  import opened ProtocolBlocks
  import opened SocialChain
  import opened Wrappers
  import Node
  import Replication

  /** A commit that is accepted: its epoch, its actions and the network's list. */
  datatype Order = Order(epoch: U64, actions: seq<Bytes>, invalidated: seq<Hash>)

  function OrderOf(s: Node.State, signal: Node.Signal): seq<Order> {
    if s.finished || !signal.CommitSignal? || CommitTarget(s.chain.recent, signal.epoch).Err? then []
    else [Order(signal.epoch, s.chain.recent[CommitTarget(s.chain.recent, signal.epoch).value].actions, signal.invalidated)]
  }

  function Orders(rules: Rules, s: Node.State, signals: seq<Node.Signal>): seq<Order> {
    if signals == [] then []
    else
      Orders(rules, s, signals[..|signals| - 1])
      + OrderOf(Node.Run(rules, s, signals[..|signals| - 1]), signals[|signals| - 1])
  }

  datatype Account = Account(state: State, blocks: seq<ProtocolBlock>)

  /** The sequential machine over the orders: every block lists the hashes of the actions that are
      network-invalidated or not valid at their turn. */
  function Settled(rules: Rules, start: State, orders: seq<Order>): Account {
    if orders == [] then Account(start, [])
    else
      var before, o := Settled(rules, start, orders[..|orders| - 1]), orders[|orders| - 1];
      var outcome := Sequential(rules, before.state, Turns(rules, o.actions, o.invalidated));
      Account(outcome.state,
              before.blocks + [Unsigned(o.epoch, o.actions, Hashes(rules, outcome.rejected), rules.hashList(o.actions))])
  }

  lemma SettledOne(rules: Rules, start: State, orders: seq<Order>, o: Order)
    ensures var before := Settled(rules, start, orders);
            var outcome := Sequential(rules, before.state, Turns(rules, o.actions, o.invalidated));
            Settled(rules, start, orders + [o]) ==
            Account(outcome.state,
                    before.blocks + [Unsigned(o.epoch, o.actions, Hashes(rules, outcome.rejected), rules.hashList(o.actions))])
  {
    assert (orders + [o])[..|orders|] == orders;
  }

  lemma {:induction false} SubmitTimesKeeps(rules: Rules, s: Node.State, action: Bytes, count: nat)
    ensures var t := Node.SubmitTimes(rules, s, action, count);
            t.committed == s.committed && t.chain.state == s.chain.state
  {
    if count > 0 {
      SubmitTimesKeeps(rules, s, action, count - 1);
    }
  }

  lemma CommitSettles(rules: Rules, start: State, s: Node.State, orders: seq<Order>, epoch: U64, invalidated: seq<Hash>)
    requires Account(s.chain.state, s.committed) == Settled(rules, start, orders)
    requires CommitTarget(s.chain.recent, epoch).Ok?
    ensures var t := Node.Commit(rules, s, epoch, invalidated);
            var actions := s.chain.recent[CommitTarget(s.chain.recent, epoch).value].actions;
            Account(t.chain.state, t.committed) == Settled(rules, start, orders + [Order(epoch, actions, invalidated)])
  {
    CommitIsSequential(rules, s.chain, epoch, invalidated);
    SettledOne(rules, start, orders,
               Order(epoch, s.chain.recent[CommitTarget(s.chain.recent, epoch).value].actions, invalidated));
  }

  /** Nothing but a commit settles anything. */
  lemma OtherStepsSettleNothing(rules: Rules, s: Node.State, signal: Node.Signal)
    requires s.finished || !signal.CommitSignal? || CommitTarget(s.chain.recent, signal.epoch).Err?
    ensures var t := Node.Step(rules, s, signal);
            t.committed == s.committed && t.chain.state == s.chain.state
  {
    if !s.finished && signal.ActionArraySignal? {
      SubmitTimesKeeps(rules, s, signal.action, signal.count);
    }
  }

  lemma StepSettles(rules: Rules, start: State, s: Node.State, orders: seq<Order>, signal: Node.Signal)
    requires Account(s.chain.state, s.committed) == Settled(rules, start, orders)
    ensures var t := Node.Step(rules, s, signal);
            Account(t.chain.state, t.committed) == Settled(rules, start, orders + OrderOf(s, signal))
  {
    if OrderOf(s, signal) == [] {
      OtherStepsSettleNothing(rules, s, signal);
      assert orders + [] == orders;
    } else {
      CommitSettles(rules, start, s, orders, signal.epoch, signal.invalidated);
    }
  }

  /** After any signals the blocks the node has committed, their invalidated lists included, are those
      of the sequential machine, and so is the state. */
  lemma {:induction false} CommittedIsSettled(rules: Rules, c: Chain, signals: seq<Node.Signal>)
    ensures var s := Node.Run(rules, Node.Start(c), signals);
            Account(s.chain.state, s.committed) == Settled(rules, c.state, Orders(rules, Node.Start(c), signals))
  {
    if signals != [] {
      var front := signals[..|signals| - 1];
      CommittedIsSettled(rules, c, front);
      StepSettles(rules, c.state, Node.Run(rules, Node.Start(c), front), Orders(rules, Node.Start(c), front), signals[|signals| - 1]);
    }
  }

  /** At every reachable state of every schedule, the delivered blocks mirror a prefix of what the
      sequential machine makes of the accepted commits: epochs, actions, hashes and invalidated lists. */
  lemma {:induction false} DeliveredIsSettled(rules: Rules, c: Chain, moves: seq<Replication.Move>)
    requires Replication.NothingYet(c)
    requires Replication.NeverWraps(rules, Node.Start(c), Replication.Signals(moves))
    requires Replication.SealsInOrder(rules, Node.Start(c), Replication.Signals(moves))
    ensures var s := Replication.RunSystem(rules, c, moves);
            var settled := Settled(rules, c.state, Orders(rules, Node.Start(c), Replication.Signals(moves))).blocks;
            && Replication.MirrorsAll(rules, s.listener.sent, settled)
            && (s.queue == [] ==> |s.listener.sent| == |settled|)
  {
    Replication.DeliveredIsPrefixOfCommitted(rules, c, moves);
    Replication.SystemIsInTransit(rules, c, moves);
    CommittedIsSettled(rules, c, Replication.Signals(moves));
  }
}
