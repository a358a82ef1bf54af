/** blocks/job.go and blocks/protocol.go: picking actions out of an encoded block by walking it once
    beside a sorted list of indices. */
module Query {
  import opened Codec
  import opened Connections
  import opened QueryBlocks

  /** An action inside a block carries its length in two bytes. */
  function Frame(action: Bytes): Bytes {
    PutUint(|action| % TWO_16, 2) + action
  }

  function Frames(actions: seq<Bytes>): Bytes {
    if actions == [] then [] else Frame(actions[0]) + Frames(actions[1..])
  }

  /** A serialized block as far as the walk sees it: a head of fixed length, the action count in four
      bytes, the framed actions, and whatever follows. breeze's head layout is not modelled. */
  ghost predicate Encodes(block: Bytes, actionOffset: nat, actions: seq<Bytes>) {
    && |actions| < TWO_32 && (forall i :: 0 <= i < |actions| ==> |actions[i]| < TWO_16)
    && actionOffset + 4 <= |block|
    && block[actionOffset..actionOffset + 4] == PutUint(|actions|, 4)
    && StartsWith(block[actionOffset + 4..], Frames(actions))
  }

  ghost predicate StartsWith(data: Bytes, prefix: Bytes) {
    |prefix| <= |data| && data[..|prefix|] == prefix
  }

  lemma CountIsRead(block: Bytes, actionOffset: nat, actions: seq<Bytes>)
    requires Encodes(block, actionOffset, actions)
    ensures ParseUint(block, actionOffset, 4) == |actions|
  {
    WidthBounds();
    ValueOfPut(|actions|, 4);
  }

  /** `int(block[offset]) | int(block[offset+1])<<8`. */
  function SizeAt(block: Bytes, offset: nat): nat
    requires offset + 2 <= |block|
  {
    block[offset] as int + 256 * block[offset + 1] as int
  }

  lemma SizeIsPut(block: Bytes, offset: nat, size: nat)
    requires offset + 2 <= |block| && size < TWO_16 && block[offset..offset + 2] == PutUint(size, 2)
    ensures SizeAt(block, offset) == size
  {
    WidthBounds();
    ValueOfPut(size, 2);
    var head := block[offset..offset + 2];
    assert Value(head) == head[0] as int + 256 * Value(head[1..]) && Value(head[1..]) == head[1] as int + 256 * Value(head[1..][1..]);
    assert head[1..][1..] == [];
  }

  lemma Slices(data: Bytes, a: Bytes, b: Bytes, c: Bytes)
    requires StartsWith(data, a + b + c)
    ensures data[..|a|] == a && data[|a|..|a| + |b|] == b && StartsWith(data[|a| + |b|..], c)
  {
    var all := a + b + c;
    assert data[..|all|] == all;
    assert data[..|a|] == all[..|a|] && data[|a|..|a| + |b|] == all[|a|..|a| + |b|];
    assert data[|a| + |b|..][..|c|] == all[|a| + |b|..];
  }

  /** The walk reads the next frame in bounds and moves on to the one after. */
  lemma FrameIsRead(block: Bytes, offset: nat, actions: seq<Bytes>)
    requires offset <= |block| && actions != [] && |actions[0]| < TWO_16
    requires StartsWith(block[offset..], Frames(actions))
    ensures var size := |actions[0]|;
            && offset + 2 + size <= |block|
            && SizeAt(block, offset) == size
            && block[offset + 2..offset + 2 + size] == actions[0]
            && StartsWith(block[offset + 2 + size..], Frames(actions[1..]))
  {
    var size, rest := |actions[0]|, block[offset..];
    Slices(rest, PutUint(size, 2), actions[0], Frames(actions[1..]));
    SliceWithin(block, offset, 0, 2);
    SliceWithin(block, offset, 2, 2 + size);
    SliceWithin(block, offset, 2 + size, |rest|);
    assert rest[0..2] == rest[..2];
    SizeIsPut(block, offset, size);
  }

  /** The walk stands at the frame of action n. */
  ghost predicate At(block: Bytes, offset: nat, actions: seq<Bytes>, n: nat) {
    && n <= |actions| && offset <= |block| && (forall i :: 0 <= i < |actions| ==> |actions[i]| < TWO_16)
    && StartsWith(block[offset..], Frames(actions[n..]))
  }

  lemma StartsAt(block: Bytes, actionOffset: nat, actions: seq<Bytes>)
    requires Encodes(block, actionOffset, actions)
    ensures At(block, actionOffset + 4, actions, 0)
  {
    assert actions[0..] == actions;
  }

  lemma MovesOn(block: Bytes, offset: nat, actions: seq<Bytes>, n: nat)
    requires n < |actions| && At(block, offset, actions, n)
    ensures var size := |actions[n]|;
            && offset + 2 + size <= |block|
            && SizeAt(block, offset) == size
            && block[offset + 2..offset + 2 + size] == actions[n]
            && At(block, offset + 2 + size, actions, n + 1)
  {
    assert actions[n..][1..] == actions[n + 1..];
    FrameIsRead(block, offset, actions[n..]);
  }

  /** The requested indices a single pass meets, from position n on. */
  function Hits(requests: seq<int>, n: nat, count: nat): seq<nat>
    decreases count - n
  {
    if requests == [] || n >= count then []
    else if requests[0] == n then [n] + Hits(requests[1..], n + 1, count)
    else Hits(requests, n + 1, count)
  }

  ghost predicate SortedInRange(requests: seq<int>, low: int, count: int) {
    && (forall i :: 0 <= i < |requests| ==> low <= requests[i] < count)
    && (forall i, j :: 0 <= i < j < |requests| ==> requests[i] < requests[j])
  }

  lemma {:induction false} HitsInRange(requests: seq<int>, n: nat, count: nat)
    ensures SortedInRange(Hits(requests, n, count), n, count)
    decreases count - n
  {
    if requests != [] && n < count {
      HitsInRange(if requests[0] == n then requests[1..] else requests, n + 1, count);
    }
  }

  lemma {:induction false} HitsOfSorted(requests: seq<int>, n: nat, count: nat)
    requires SortedInRange(requests, n, count)
    ensures Hits(requests, n, count) == requests
    decreases count - n
  {
    if requests != [] {
      assert n <= requests[0] < count;
      if requests[0] == n {
        assert requests == [requests[0]] + requests[1..];
        HitsOfSorted(requests[1..], n + 1, count);
      } else {
        HitsOfSorted(requests, n + 1, count);
      }
    }
  }

  /** The pass meets every request exactly when the list is strictly increasing and in range. */
  lemma HitsAreTheRequestsIff(requests: seq<int>, count: nat)
    ensures Hits(requests, 0, count) == requests <==> SortedInRange(requests, 0, count)
  {
    HitsInRange(requests, 0, count);
    if SortedInRange(requests, 0, count) {
      HitsOfSorted(requests, 0, count);
    }
  }

  function Select(actions: seq<Bytes>, indices: seq<nat>, keep: Bytes -> bool): seq<Bytes>
    requires forall i :: 0 <= i < |indices| ==> indices[i] < |actions|
  {
    if indices == [] then []
    else (if keep(actions[indices[0]]) then [actions[indices[0]]] else []) + Select(actions, indices[1..], keep)
  }

  function Filtered(actions: seq<Bytes>, keep: Bytes -> bool): seq<Bytes> {
    if actions == [] then []
    else (if keep(actions[0]) then [actions[0]] else []) + Filtered(actions[1..], keep)
  }

  function From(n: nat, count: nat): (indices: seq<nat>)
    requires n <= count
    ensures |indices| == count - n
    ensures forall i :: 0 <= i < |indices| ==> indices[i] == n + i
  {
    seq(count - n, i => n + i)
  }

  /** Asking for all indices selects what filtering the whole block selects. */
  lemma {:induction false} SelectAllIsFiltered(actions: seq<Bytes>, n: nat, keep: Bytes -> bool)
    requires n <= |actions|
    ensures Select(actions, From(n, |actions|), keep) == Filtered(actions[n..], keep)
    decreases |actions| - n
  {
    if n < |actions| {
      assert From(n, |actions|)[1..] == From(n + 1, |actions|);
      SelectAllIsFiltered(actions, n + 1, keep);
    }
  }

  datatype JobQuery = JobQuery(data: seq<QueryBlock>, filterProtocol: bool, keep: Bytes -> bool)

  /** Without `FilterProtocol` the condition on line 34 never holds and nothing is sent. */
  function Wanted(query: JobQuery, actions: seq<Bytes>, requests: seq<int>, n: nat): seq<Bytes>
    requires n <= |actions|
  {
    HitsInRange(requests, n, |actions|);
    Select(actions, Hits(requests, n, |actions|), a => query.filterProtocol && query.keep(a))
  }

  function WantedAll(query: JobQuery, contents: seq<seq<Bytes>>, data: seq<QueryBlock>): seq<Bytes> {
    if data == [] then []
    else
      Wanted(query, ContentAt(contents, data[0].epoch), data[0].actions, 0) + WantedAll(query, contents, data[1..])
  }

  /** The query blocks are answered one after the other, each on its own. */
  lemma {:induction false} WantedAllAppend(query: JobQuery, contents: seq<seq<Bytes>>, first: seq<QueryBlock>, second: seq<QueryBlock>)
    ensures WantedAll(query, contents, first + second) == WantedAll(query, contents, first) + WantedAll(query, contents, second)
  {
    if first == [] {
      assert first + second == second;
    } else {
      var q := first[0];
      assert (first + second)[1..] == first[1..] + second;
      WantedAllAppend(query, contents, first[1..], second);
      Associates(Wanted(query, ContentAt(contents, q.epoch), q.actions, 0), WantedAll(query, contents, first[1..]),
                 WantedAll(query, contents, second));
    }
  }

  /** `out` holds exactly the requested actions that pass, in request order: its j-th is the action of
      request places[j], places increase, and every passing request has its place. */
  ghost predicate Picks(query: JobQuery, actions: seq<Bytes>, requests: seq<int>, out: seq<Bytes>, places: seq<nat>) {
    && |places| == |out|
    && (forall i :: 0 <= i < |requests| ==> 0 <= requests[i] < |actions|)
    && (forall i, j :: 0 <= i < j < |places| ==> places[i] < places[j])
    && (forall j :: 0 <= j < |places| ==>
          places[j] < |requests| && out[j] == actions[requests[places[j]]] && query.filterProtocol && query.keep(out[j]))
    && (forall i :: 0 <= i < |requests| && query.filterProtocol && query.keep(actions[requests[i]]) ==> i in places)
  }

  lemma {:induction false} SelectOneMore(actions: seq<Bytes>, requests: seq<nat>, last: nat, keep: Bytes -> bool)
    requires last < |actions| && forall i :: 0 <= i < |requests| ==> requests[i] < |actions|
    ensures Select(actions, requests + [last], keep) ==
            Select(actions, requests, keep) + if keep(actions[last]) then [actions[last]] else []
  {
    if requests == [] {
      assert requests + [last] == [last] && [last][1..] == [];
    } else {
      assert (requests + [last])[1..] == requests[1..] + [last];
      SelectOneMore(actions, requests[1..], last, keep);
      Associates(if keep(actions[requests[0]]) then [actions[requests[0]]] else [], Select(actions, requests[1..], keep),
                 if keep(actions[last]) then [actions[last]] else []);
    }
  }

  lemma PicksOneMore(query: JobQuery, actions: seq<Bytes>, requests: seq<int>, last: int, out: seq<Bytes>, places: seq<nat>)
    requires Picks(query, actions, requests, out, places) && 0 <= last < |actions|
    ensures var a, all := actions[last], requests + [last];
            if query.filterProtocol && query.keep(a) then Picks(query, actions, all, out + [a], places + [|requests|])
            else Picks(query, actions, all, out, places)
  {
    var all, more := requests + [last], places + [|requests|];
    assert all[|requests|] == last && forall i :: 0 <= i < |requests| ==> all[i] == requests[i];
    assert more[|places|] == |requests| && forall j :: 0 <= j < |places| ==> more[j] == places[j];
    forall i | i in places ensures i in more {
      var j :| 0 <= j < |places| && places[j] == i;
      assert more[j] == i;
    }
  }

  lemma {:induction false} SelectPicks(query: JobQuery, actions: seq<Bytes>, requests: seq<nat>) returns (places: seq<nat>)
    requires forall i :: 0 <= i < |requests| ==> requests[i] < |actions|
    ensures Picks(query, actions, requests, Select(actions, requests, a => query.filterProtocol && query.keep(a)), places)
  {
    if requests == [] {
      places := [];
    } else {
      var front, last := requests[..|requests| - 1], requests[|requests| - 1];
      var keep := a => query.filterProtocol && query.keep(a);
      assert requests == front + [last];
      places := SelectPicks(query, actions, front);
      SelectOneMore(actions, front, last, keep);
      PicksOneMore(query, actions, front, last, Select(actions, front, keep), places);
      if keep(actions[last]) {
        places := places + [|front|];
      }
    }
  }

  /** One query block with strictly increasing indices inside its stored block gets exactly the actions
      at those indices that pass, in order; a block that is not stored gets nothing. */
  lemma WantedByIndex(query: JobQuery, contents: seq<seq<Bytes>>, q: QueryBlock) returns (places: seq<nat>)
    requires q.epoch < |contents| ==> SortedInRange(q.actions, 0, |contents[q.epoch]|)
    ensures if q.epoch < |contents| then Picks(query, contents[q.epoch], q.actions, WantedAll(query, contents, [q]), places)
            else WantedAll(query, contents, [q]) == []
  {
    var one := Wanted(query, ContentAt(contents, q.epoch), q.actions, 0);
    assert [q][1..] == [] && WantedAll(query, contents, [q]) == one + WantedAll(query, contents, []) == one;
    places := [];
    if q.epoch < |contents| {
      HitsOfSorted(q.actions, 0, |contents[q.epoch]|);
      places := SelectPicks(query, contents[q.epoch], Hits(q.actions, 0, |contents[q.epoch]|));
    }
  }

  /** `ParseActionsArray` and the filter over it. The source appends to an array passed by value. */
  method FilterProtocolOnBlock(block: Bytes, actionOffset: nat, keep: Bytes -> bool, ghost actions: seq<Bytes>) returns (output: seq<Bytes>)
    requires Encodes(block, actionOffset, actions)
    ensures output == Filtered(actions, keep)
  {
    output := [];
    CountIsRead(block, actionOffset, actions);
    StartsAt(block, actionOffset, actions);
    var count, offset := ParseUint(block, actionOffset, 4), actionOffset + 4;
    for n := 0 to count
      invariant 0 <= offset && At(block, offset, actions, n)
      invariant output + Filtered(actions[n..], keep) == Filtered(actions, keep)
    {
      MovesOn(block, offset, actions, n);
      var size := SizeAt(block, offset);
      var action := block[offset + 2..offset + 2 + size];
      assert actions[n..][1..] == actions[n + 1..];
      if keep(action) {
        Associates(output, [action], Filtered(actions[n + 1..], keep));
        output := output + [action];
      }
      offset := offset + 2 + size;
    }
  }

  /** What of a candidate goes out. */
  function Passing(query: JobQuery, candidate: Bytes): seq<Bytes> {
    if query.filterProtocol && query.keep(candidate) then [candidate] else []
  }

  /** The single pass over the positions, beside the requests still to be met. */
  function Pass(query: JobQuery, actions: seq<Bytes>, requests: seq<int>, n: nat): seq<Bytes>
    decreases |actions| - n
  {
    if requests == [] || n >= |actions| then []
    else if requests[0] != n then Pass(query, actions, requests, n + 1)
    else
      Passing(query, actions[n]) + Pass(query, actions, requests[1..], n + 1)
  }

  lemma {:induction false} PassIsSelection(query: JobQuery, actions: seq<Bytes>, requests: seq<int>, n: nat)
    requires n <= |actions|
    ensures Pass(query, actions, requests, n) == Wanted(query, actions, requests, n)
    decreases |actions| - n
  {
    if requests != [] && n < |actions| {
      if requests[0] == n {
        PassIsSelection(query, actions, requests[1..], n + 1);
        assert ([n] + Hits(requests[1..], n + 1, |actions|))[1..] == Hits(requests[1..], n + 1, |actions|);
      } else {
        PassIsSelection(query, actions, requests, n + 1);
      }
    }
  }

  /** The candidate at one position, sent if it passes: `got` of the plan has gone out since the
      response had sent `before` and could take `total` more. */
  method Offer(query: JobQuery, candidate: Bytes, response: Connection, ghost before: seq<Bytes>, ghost total: nat,
               ghost plan: seq<Bytes>, ghost got: seq<Bytes>, ghost rest: seq<Bytes>) returns (ok: bool)
    requires response.sent == before + got && |got| + response.budget == total && got + (Passing(query, candidate) + rest) == plan
    modifies response
    ensures var more := got + Passing(query, candidate);
            if ok then response.sent == before + more && |more| + response.budget == total && more + rest == plan
            else response.sent == before + Arriving(plan, total) && |plan| > total && response.budget == 0
  {
    ok := true;
    if query.filterProtocol && query.keep(candidate) {
      ok := SendNext(response, candidate, before, total, plan, got, rest);
    } else {
      Associates(got, [], rest);
      assert got + [] == got;
    }
  }

  /** The inner loop of `ExecuteQuery` on one block. */
  method QueryPass(block: Bytes, actionOffset: nat, query: JobQuery, requests: seq<int>, response: Connection, ghost actions: seq<Bytes>)
      returns (ok: bool)
    requires Encodes(block, actionOffset, actions) && requests != []
    modifies response
    ensures var wanted := Pass(query, actions, requests, 0);
            && response.sent == old(response.sent) + Arriving(wanted, old(response.budget))
            && ok == (|wanted| <= old(response.budget))
            && response.budget == if ok then old(response.budget) - |wanted| else 0
  {
    CountIsRead(block, actionOffset, actions);
    StartsAt(block, actionOffset, actions);
    var count, offset := ParseUint(block, actionOffset, 4), actionOffset + 4;
    var nextAction, actionsProcessed := requests[0], 0;
    ghost var wanted, got := Pass(query, actions, requests, 0), [];
    ghost var todo := requests;
    for n := 0 to count
      invariant 0 <= offset && At(block, offset, actions, n)
      invariant 0 <= actionsProcessed < |requests| && nextAction == requests[actionsProcessed]
      invariant todo == requests[actionsProcessed..]
      invariant got + Pass(query, actions, todo, n) == wanted
      invariant response.sent == old(response.sent) + got && |got| + response.budget == old(response.budget)
    {
      MovesOn(block, offset, actions, n);
      var size := SizeAt(block, offset);
      if n == nextAction {
        var candidate := block[offset + 2..offset + 2 + size];
        ghost var later := todo[1..];
        ghost var rest := Pass(query, actions, later, n + 1);
        ok := Offer(query, candidate, response, old(response.sent), old(response.budget), wanted, got, rest);
        if !ok {
          return;
        }
        got := got + Passing(query, candidate);
        todo := later;
        actionsProcessed := actionsProcessed + 1;
        if actionsProcessed == |requests| {
          break;
        }
        nextAction := requests[actionsProcessed];
      }
      offset := offset + 2 + size;
    }
    assert got == wanted;
    ok := true;
  }

  /** On one block, what the response receives is what was wanted, up to the first send that fails. */
  method QueryOne(block: Bytes, actionOffset: nat, query: JobQuery, requests: seq<int>, response: Connection, ghost actions: seq<Bytes>)
      returns (ok: bool)
    requires Encodes(block, actionOffset, actions) && requests != []
    modifies response
    ensures var wanted := Wanted(query, actions, requests, 0);
            && response.sent == old(response.sent) + Arriving(wanted, old(response.budget))
            && ok == (|wanted| <= old(response.budget))
            && response.budget == if ok then old(response.budget) - |wanted| else 0
  {
    ok := QueryPass(block, actionOffset, query, requests, response, actions);
    PassIsSelection(query, actions, requests, 0);
  }

  ghost predicate AllEncode(blocks: seq<Bytes>, actionOffset: nat, contents: seq<seq<Bytes>>) {
    |contents| == |blocks| && forall i :: 0 <= i < |blocks| ==> Encodes(blocks[i], actionOffset, contents[i])
  }

  function ContentAt(contents: seq<seq<Bytes>>, epoch: nat): seq<Bytes> {
    if epoch < |contents| then contents[epoch] else []
  }

  /** `ExecuteQuery`: the query blocks in order; a block that is not stored reads as empty. */
  method ExecuteQuery(blocks: seq<Bytes>, actionOffset: nat, query: JobQuery, response: Connection, ghost contents: seq<seq<Bytes>>)
      returns (ok: bool)
    requires AllEncode(blocks, actionOffset, contents)
    requires forall i :: 0 <= i < |query.data| ==> query.data[i].actions != [] && query.data[i].epoch < TWO_63
    modifies response
    ensures var wanted := WantedAll(query, contents, query.data);
            && response.sent == old(response.sent) + Arriving(wanted, old(response.budget))
            && ok == (|wanted| <= old(response.budget))
  {
    ghost var wanted, got := WantedAll(query, contents, query.data), [];
    for k := 0 to |query.data|
      invariant got + WantedAll(query, contents, query.data[k..]) == wanted
      invariant response.sent == old(response.sent) + got && |got| + response.budget == old(response.budget)
    {
      var q := query.data[k];
      assert query.data[k..][1..] == query.data[k + 1..];
      ghost var one := Wanted(query, ContentAt(contents, q.epoch), q.actions, 0);
      ghost var rest := WantedAll(query, contents, query.data[k + 1..]);
      ghost var left := response.budget;
      ok := true;
      if q.epoch < |blocks| {
        ok := QueryOne(blocks[q.epoch], actionOffset, query, q.actions, response, contents[q.epoch]);
      }
      if !ok {
        StoppedAmong(got, one, rest, wanted, left);
        Associates(old(response.sent), got, Arriving(one, left));
        return;
      }
      Associates(got, one, rest);
      Associates(old(response.sent), got, one);
      got := got + one;
    }
    ok := true;
  }

  lemma StoppedAmong(got: seq<Bytes>, one: seq<Bytes>, rest: seq<Bytes>, wanted: seq<Bytes>, left: nat)
    requires got + (one + rest) == wanted && |one| > left
    ensures Arriving(wanted, |got| + left) == got + Arriving(one, left) && |wanted| > |got| + left
  {
  }

  lemma {:induction false} FilteredAlike(actions: seq<Bytes>, keep: Bytes -> bool, other: Bytes -> bool)
    requires forall a :: keep(a) == other(a)
    ensures Filtered(actions, keep) == Filtered(actions, other)
  {
    if actions != [] {
      FilteredAlike(actions[1..], keep, other);
    }
  }

  /** With `FilterProtocol` set and every index asked for, a query sends what `FilterProtocolOnBlock`
      collects. */
  lemma {:induction false} AllIndicesMatchTheFilter(query: JobQuery, actions: seq<Bytes>)
    requires query.filterProtocol
    ensures Wanted(query, actions, From(0, |actions|), 0) == Filtered(actions, query.keep)
  {
    HitsOfSorted(From(0, |actions|), 0, |actions|);
    SelectAllIsFiltered(actions, 0, a => query.filterProtocol && query.keep(a));
    FilteredAlike(actions, query.keep, a => query.filterProtocol && query.keep(a));
    assert actions[0..] == actions;
  }
}
