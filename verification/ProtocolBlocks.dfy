/** social/block.go: the block format, written at once by `Serialize` or step by step by
    `ProtocolBuilder`, and why a concatenation of blocks splits in only one way. */
module ProtocolBlocks {
  import opened Codec
  import opened Wrappers

  const TOKEN_SIZE := 32
  const SIGNATURE_SIZE := 64
  type Token = t: Bytes | |t| == TOKEN_SIZE witness seq(TOKEN_SIZE, _ => 0)
  type Signature = s: Bytes | |s| == SIGNATURE_SIZE witness seq(SIGNATURE_SIZE, _ => 0)

  datatype ProtocolBlock = ProtocolBlock(
    epoch: U64,
    actions: seq<Bytes>,
    invalidated: seq<Hash>,
    hash: Hash,
    publisher: Token,
    signature: Signature)

  /** A block before anyone has signed it: Go's zero token and signature. */
  function Unsigned(epoch: U64, actions: seq<Bytes>, invalidated: seq<Hash>, hash: Hash): ProtocolBlock {
    ProtocolBlock(epoch, actions, invalidated, hash, Zeros(TOKEN_SIZE), Zeros(SIGNATURE_SIZE))
  }

  function PutActions(actions: seq<Bytes>): Bytes {
    if actions == [] then [] else PutByteArray(actions[0]) + PutActions(actions[1..])
  }

  function Trailer(b: ProtocolBlock): Bytes {
    b.hash + b.publisher + b.signature
  }

  function Serialize(b: ProtocolBlock): Bytes {
    PutUint(b.epoch, 8) + PutActions(b.actions) + PutByteArray([]) + PutHashArray(b.invalidated) + Trailer(b)
  }

  /** No empty action, none longer than its two-byte length, and no more hashes than their count. */
  predicate Encodable(b: ProtocolBlock) {
    && (forall i :: 0 <= i < |b.actions| ==> 0 < |b.actions[i]| <= MAX_COUNT)
    && |b.invalidated| <= MAX_COUNT
  }

  // ----- the reading the format admits -----

  function ReadActions(data: Bytes): Option<(seq<Bytes>, Bytes)> {
    if |data| < 2 then None
    else
      var size := Value(data[..2]);
      if size == 0 then Some(([], data[2..]))
      else if |data| < 2 + size then None
      else
        match ReadActions(data[2 + size..])
        case None => None
        case Some((actions, rest)) => Some(([data[2..2 + size]] + actions, rest))
  }

  function ReadHashes(data: Bytes): Option<(seq<Hash>, Bytes)> {
    if |data| < 2 then None
    else
      var count := Value(data[..2]);
      if |data| < 2 + HASH_SIZE * count then None
      else Some((SplitHashes(data[2..], count), data[2 + HASH_SIZE * count..]))
  }

  function ReadEpoch(data: Bytes): U64
    requires |data| >= 8
  {
    WidthBounds();
    PutOfValue(data[..8]);
    Value(data[..8])
  }

  function ReadTrailer(epoch: U64, actions: seq<Bytes>, invalidated: seq<Hash>, data: Bytes): Option<(ProtocolBlock, Bytes)> {
    if |data| < 128 then None
    else Some((ProtocolBlock(epoch, actions, invalidated, data[..32], data[32..64], data[64..128]), data[128..]))
  }

  function ReadBlock(data: Bytes): Option<(ProtocolBlock, Bytes)> {
    if |data| < 8 then None
    else
      match ReadActions(data[8..])
      case None => None
      case Some((actions, rest)) =>
        match ReadHashes(rest)
        case None => None
        case Some((invalidated, tail)) => ReadTrailer(ReadEpoch(data), actions, invalidated, tail)
  }

  lemma SizeSurvives(size: nat)
    requires size <= MAX_COUNT
    ensures Value(PutUint(size, 2)) == size
  {
    WidthBounds();
    ValueOfPut(size, 2);
  }

  lemma SizePrefix(size: nat, rest: Bytes)
    requires size <= MAX_COUNT
    ensures Value((PutUint(size, 2) + rest)[..2]) == size && (PutUint(size, 2) + rest)[2..] == rest
  {
    WidthBounds();
    ValueOfPut(size, 2);
    assert (PutUint(size, 2) + rest)[..2] == PutUint(size, 2);
  }

  lemma {:induction false} ActionsReadBack(actions: seq<Bytes>, rest: Bytes)
    requires forall i :: 0 <= i < |actions| ==> 0 < |actions[i]| <= MAX_COUNT
    ensures ReadActions(PutActions(actions) + PutByteArray([]) + rest) == Some((actions, rest))
  {
    var data := PutActions(actions) + PutByteArray([]) + rest;
    if actions == [] {
      assert data == PutUint(0, 2) + rest;
      SizePrefix(0, rest);
    } else {
      var a := actions[0];
      var more := PutActions(actions[1..]) + PutByteArray([]) + rest;
      assert a[..|a|] == a;
      assert data == PutUint(|a|, 2) + a + more;
      Splits(data, PutUint(|a|, 2), a, more);
      SizeSurvives(|a|);
      ActionsReadBack(actions[1..], rest);
      assert [a] + actions[1..] == actions;
    }
  }

  lemma HashesReadBack(invalidated: seq<Hash>, rest: Bytes)
    requires |invalidated| <= MAX_COUNT
    ensures ReadHashes(PutHashArray(invalidated) + rest) == Some((invalidated, rest))
  {
    assert Clip(invalidated) == invalidated;
    var joined := JoinHashes(invalidated);
    var data := PutHashArray(invalidated) + rest;
    assert data == PutUint(|invalidated|, 2) + (joined + rest);
    SizePrefix(|invalidated|, joined + rest);
    SplitJoin(invalidated, rest);
    assert data[2 + |joined|..] == rest;
  }

  lemma TrailerReadBack(b: ProtocolBlock, rest: Bytes)
    ensures ReadTrailer(b.epoch, b.actions, b.invalidated, Trailer(b) + rest) == Some((b, rest))
  {
    var data := Trailer(b) + rest;
    assert data[..32] == b.hash && data[32..64] == b.publisher && data[64..128] == b.signature && data[128..] == rest;
  }

  /** A well-formed block reads back from the front of whatever follows it. */
  lemma BlockReadsBack(b: ProtocolBlock, rest: Bytes)
    requires Encodable(b)
    ensures ReadBlock(Serialize(b) + rest) == Some((b, rest))
  {
    var hashes := PutHashArray(b.invalidated) + (Trailer(b) + rest);
    var body := PutActions(b.actions) + PutByteArray([]) + hashes;
    var data := Serialize(b) + rest;
    assert data == PutUint(b.epoch, 8) + body;
    assert data[..8] == PutUint(b.epoch, 8) && data[8..] == body;
    WidthBounds();
    ValueOfPut(b.epoch, 8);
    ActionsReadBack(b.actions, hashes);
    HashesReadBack(b.invalidated, Trailer(b) + rest);
    TrailerReadBack(b, rest);
  }

  lemma {:induction false} ReadActionsAreEncodable(data: Bytes)
    ensures ReadActions(data).Some? ==>
              forall i :: 0 <= i < |ReadActions(data).value.0| ==> 0 < |ReadActions(data).value.0[i]| <= MAX_COUNT
  {
    if |data| >= 2 {
      var size := Value(data[..2]);
      WidthBounds();
      PutOfValue(data[..2]);
      if size != 0 && |data| >= 2 + size {
        ReadActionsAreEncodable(data[2 + size..]);
      }
    }
  }

  /** Encodable is exactly what reading back takes. */
  lemma ReadsBackIff(b: ProtocolBlock)
    ensures ReadBlock(Serialize(b)) == Some((b, [])) <==> Encodable(b)
  {
    if Encodable(b) {
      BlockReadsBack(b, []);
      assert Serialize(b) + [] == Serialize(b);
    } else if ReadBlock(Serialize(b)) == Some((b, [])) {
      var body := Serialize(b)[8..];
      ReadActionsAreEncodable(body);
      var rest := ReadActions(body).value.1;
      WidthBounds();
      PutOfValue(rest[..2]);
    }
  }

  /** Prefix-free: two well-formed blocks at the front of the same bytes are the same block. */
  lemma FormatIsPrefixFree(a: ProtocolBlock, b: ProtocolBlock, afterA: Bytes, afterB: Bytes)
    requires Encodable(a) && Encodable(b) && Serialize(a) + afterA == Serialize(b) + afterB
    ensures a == b && afterA == afterB
  {
    BlockReadsBack(a, afterA);
    BlockReadsBack(b, afterB);
  }

  function Join(blocks: seq<ProtocolBlock>): Bytes {
    if blocks == [] then [] else Serialize(blocks[0]) + Join(blocks[1..])
  }

  lemma JoinIsEmptyIff(blocks: seq<ProtocolBlock>)
    ensures Join(blocks) == [] <==> blocks == []
  {
  }

  ghost predicate AllEncodable(blocks: seq<ProtocolBlock>) {
    forall i :: 0 <= i < |blocks| ==> Encodable(blocks[i])
  }

  /** A concatenation of well-formed blocks splits in only one way. */
  lemma {:induction false} JoinSplitsUniquely(a: seq<ProtocolBlock>, b: seq<ProtocolBlock>)
    requires AllEncodable(a) && AllEncodable(b) && Join(a) == Join(b)
    ensures a == b
  {
    JoinIsEmptyIff(a);
    JoinIsEmptyIff(b);
    if a != [] {
      FormatIsPrefixFree(a[0], b[0], Join(a[1..]), Join(b[1..]));
      JoinSplitsUniquely(a[1..], b[1..]);
    }
  }

  // ----- the builder -----

  /** Key handling and hashing, of which nothing is assumed. */
  datatype Crypto = Crypto(hasher: Bytes -> Hash, publicKey: Bytes -> Token, sign: (Bytes, Hash) -> Signature)

  function Built(crypto: Crypto, epoch: U64, actions: seq<Bytes>, invalidated: seq<Hash>, key: Bytes): ProtocolBlock {
    var hash := crypto.hasher(PutUint(epoch, 8) + PutActions(actions) + PutByteArray([]) + PutHashArray(invalidated));
    ProtocolBlock(epoch, actions, invalidated, hash, crypto.publicKey(key), crypto.sign(key, hash))
  }

  lemma {:induction false} PutActionsAppend(actions: seq<Bytes>, action: Bytes)
    ensures PutActions(actions + [action]) == PutActions(actions) + PutByteArray(action)
  {
    if actions == [] {
      assert ([] + [action])[1..] == [];
    } else {
      assert (actions + [action])[1..] == actions[1..] + [action];
      PutActionsAppend(actions[1..], action);
      Associates(PutByteArray(actions[0]), PutActions(actions[1..]), PutByteArray(action));
    }
  }

  class ProtocolBuilder {
    const crypto: Crypto
    var data: Bytes
    var status: nat
    ghost const epoch: U64
    ghost var actions: seq<Bytes>
    /** Actions, then one seal, then one finalize: the source accepts any other order too. */
    ghost var inOrder: bool

    /** While building, the data is the epoch and the actions so far; a seal ends the list. */
    ghost predicate Valid()
      reads this
    {
      && (inOrder && status == 0 ==> data == PutUint(epoch, 8) + PutActions(actions))
      && (inOrder && status == 1 ==> data == PutUint(epoch, 8) + PutActions(actions) + PutByteArray([]))
    }

    constructor (crypto: Crypto, epoch: U64)
      ensures Valid() && inOrder && status == 0 && actions == [] && this.epoch == epoch && this.crypto == crypto
    {
      this.crypto, this.epoch, data, status, actions, inOrder := crypto, epoch, PutUint(epoch, 8), 0, [], true;
    }

    method AddAction(action: Bytes)
      requires Valid()
      modifies this
      ensures Valid() && inOrder == (old(inOrder) && status == 0) && status == old(status)
      ensures actions == old(actions) + [action] && data == old(data) + PutByteArray(action)
    {
      PutActionsAppend(actions, action);
      Associates(PutUint(epoch, 8), PutActions(actions), PutByteArray(action));
      data := data + PutByteArray(action);
      actions, inOrder := actions + [action], inOrder && status == 0;
    }

    method Seal() returns (hash: Hash)
      requires Valid()
      modifies this
      ensures Valid() && inOrder == (old(inOrder) && old(status) == 0) && status == 1
      ensures actions == old(actions) && data == old(data) + PutByteArray([]) && hash == crypto.hasher(data)
    {
      inOrder := inOrder && status == 0;
      status := 1;
      data := data + PutByteArray([]);
      hash := crypto.hasher(data);
    }

    /** In order, the bytes are the ones `Serialize` writes for the block that was built. */
    method Finalize(invalidated: seq<Hash>, key: Bytes)
      requires Valid()
      modifies this
      ensures inOrder == (old(inOrder) && old(status) == 1) && status == 2 && actions == old(actions)
      ensures inOrder ==> data == Serialize(Built(crypto, epoch, actions, invalidated, key))
      ensures var unsigned := old(data) + PutHashArray(invalidated);
              var hash := crypto.hasher(unsigned);
              data == unsigned + (hash + crypto.publicKey(key) + crypto.sign(key, hash))
    {
      inOrder := inOrder && status == 1;
      data := data + PutHashArray(invalidated);
      var hash := crypto.hasher(data);
      ghost var unsigned := data;
      data := data + hash;
      data := data + crypto.publicKey(key);
      data := data + crypto.sign(key, hash);
      assert data == unsigned + (hash + crypto.publicKey(key) + crypto.sign(key, hash));
      status := 2;
    }
  }
}
