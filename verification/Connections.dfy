/** The far end of a connection, as the senders see it: FIFO, and from some message on every send
    fails. */
module Connections {
  import opened Codec

  class Connection {
    var sent: seq<Bytes>
    /** How many more sends succeed. */
    var budget: nat

    constructor (budget: nat)
      ensures sent == [] && this.budget == budget
    {
      this.sent, this.budget := [], budget;
    }

    method Send(message: Bytes) returns (ok: bool)
      modifies this
      ensures ok == (old(budget) > 0)
      ensures sent == old(sent) + (if ok then [message] else [])
      ensures budget == if ok then old(budget) - 1 else 0
    {
      ok := budget > 0;
      if ok {
        sent := sent + [message];
        budget := budget - 1;
      }
    }
  }

  /** What arrives of a list of messages sent in order until one fails. */
  function Arriving(messages: seq<Bytes>, budget: nat): seq<Bytes> {
    messages[..Min(|messages|, budget)]
  }

  lemma StoppedAt(got: seq<Bytes>, rest: seq<Bytes>, plan: seq<Bytes>)
    requires got + rest == plan
    ensures Arriving(plan, |got|) == got
  {
    assert plan[..|got|] == got;
  }

  /** Sends the next message of a plan: `got` of it has gone out since the connection had sent
      `before` and could take `total` more. */
  method SendNext(conn: Connection, message: Bytes, ghost before: seq<Bytes>, ghost total: nat,
                  ghost plan: seq<Bytes>, ghost got: seq<Bytes>, ghost rest: seq<Bytes>) returns (ok: bool)
    requires conn.sent == before + got && |got| + conn.budget == total && got + ([message] + rest) == plan
    modifies conn
    ensures ok ==> conn.sent == before + (got + [message]) && |got| + 1 + conn.budget == total
    ensures ok ==> got + [message] + rest == plan
    ensures !ok ==> conn.sent == before + Arriving(plan, total) && |plan| > total && conn.budget == 0
  {
    ok := conn.Send(message);
    if ok {
      Associates(before, got, [message]);
      Associates(got, [message], rest);
    } else {
      StoppedAt(got, [message] + rest, plan);
    }
  }
}
