/** A concrete `Stateful`: the state is a key-value map and a block's mutations are an overlay on
    it. The laws the chain relies on (`Merge` then `Incorporate` against separate `Incorporate`s)
    are proved here rather than assumed. */
module Overlay {
  import opened Codec

  type State = map<Bytes, Bytes>
  datatype Change = Put(value: Bytes) | Delete
  type Mutations = map<Bytes, Change>

  function Incorporate(s: State, m: Mutations): State {
    map k | k in s.Keys + m.Keys && (k in m ==> m[k].Put?) :: if k in m then m[k].value else s[k]
  }

  function Merge(first: Mutations, second: Mutations): Mutations {
    first + second
  }

  lemma IncorporateNothing(s: State)
    ensures Incorporate(s, map[]) == s
  {
    assert Incorporate(s, map[]).Keys == s.Keys;
  }

  /** One incorporate of merged mutations equals the two separate incorporates. */
  lemma IncorporateMerge(s: State, first: Mutations, second: Mutations)
    ensures Incorporate(Incorporate(s, first), second) == Incorporate(s, Merge(first, second))
  {
    var separate, merged := Incorporate(Incorporate(s, first), second), Incorporate(s, Merge(first, second));
    forall k ensures k in separate <==> k in merged {
      assert k in separate <==> (k in Incorporate(s, first).Keys + second.Keys && (k in second ==> second[k].Put?));
      assert k in merged <==> (k in s.Keys + Merge(first, second).Keys && (k in Merge(first, second) ==> Merge(first, second)[k].Put?));
    }
    assert separate.Keys == merged.Keys;
  }

  /** Throwing the merge result away, as chain.go line 201 reads if `Merge` is a pure function,
      is harmless in every state exactly when the later overlay repeats the earlier one. */
  lemma DiscardedMergeIsHarmlessIff(first: Mutations, second: Mutations)
    ensures (forall s :: Incorporate(s, first) == Incorporate(s, Merge(first, second))) <==>
            (forall k :: k in second ==> k in first && first[k] == second[k])
  {
    if forall k :: k in second ==> k in first && first[k] == second[k] {
      assert Merge(first, second) == first;
    } else {
      var k :| k in second && !(k in first && first[k] == second[k]);
      var s: State := if second[k].Delete? then map[k := []] else map[];
      assert (k in Incorporate(s, first)) != (k in Incorporate(s, Merge(first, second)))
          || Incorporate(s, first)[k] != Incorporate(s, Merge(first, second))[k];
    }
  }
}
