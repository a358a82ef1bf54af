/** The messages a social node broadcasts and their parsers (social/messages.go). */
module Messages {
  import opened Codec
  import opened Wrappers

  // breeze's tag values are not part of this repository; only that they differ matters.
  const MSG_NEW_BLOCK: Byte := 1
  const MSG_ACTION: Byte := 2
  const MSG_BLOCK_SEALED: Byte := 3
  const MSG_BLOCK_COMMITTED: Byte := 4

  function NewBlockSocial(epoch: U64): Bytes {
    [MSG_NEW_BLOCK] + PutUint(epoch, 8)
  }

  function ActionSocial(action: Bytes): Bytes {
    [MSG_ACTION] + action
  }

  function SealBlockSocial(epoch: U64, hash: Hash): Bytes {
    [MSG_BLOCK_SEALED] + PutUint(epoch, 8) + hash
  }

  function CommitBlockSocial(epoch: U64, invalidated: seq<Hash>): Bytes {
    [MSG_BLOCK_COMMITTED] + PutUint(epoch, 8) + PutHashArray(invalidated)
  }

  function ParseEpoch(data: Bytes): (epoch: U64)
    requires |data| >= 9
  {
    WidthBounds();
    PutOfValue(data[1..9]);
    ParseUint(data, 1, 8)
  }

  function ParseNewBlockSocial(data: Bytes): Option<U64> {
    if |data| < 9 then None else Some(ParseEpoch(data))
  }

  function ParseSealBlockSocial(data: Bytes): Option<(U64, Hash)> {
    if |data| != 9 + HASH_SIZE then None else Some((ParseEpoch(data), data[9..9 + HASH_SIZE]))
  }

  function ParseCommitBlockSocial(data: Bytes): Option<(U64, seq<Hash>)> {
    if |data| < 9 then None else Some((ParseEpoch(data), ParseHashArray(data, 9)))
  }

  lemma EpochSurvives(tag: Byte, epoch: U64, after: Bytes)
    ensures ParseEpoch([tag] + PutUint(epoch, 8) + after) == epoch
  {
    WidthBounds();
    ParsePut([tag], epoch, 8, after);
  }

  lemma NewBlockRoundTrip(epoch: U64)
    ensures ParseNewBlockSocial(NewBlockSocial(epoch)) == Some(epoch)
  {
    EpochSurvives(MSG_NEW_BLOCK, epoch, []);
    assert NewBlockSocial(epoch) == [MSG_NEW_BLOCK] + PutUint(epoch, 8) + [];
  }

  lemma SealRoundTrip(epoch: U64, hash: Hash)
    ensures ParseSealBlockSocial(SealBlockSocial(epoch, hash)) == Some((epoch, hash))
  {
    EpochSurvives(MSG_BLOCK_SEALED, epoch, hash);
    assert SealBlockSocial(epoch, hash)[9..9 + HASH_SIZE] == hash;
  }

  /** The commit message carries as many hashes as its count can say. */
  lemma CommitRoundTrip(epoch: U64, invalidated: seq<Hash>)
    ensures ParseCommitBlockSocial(CommitBlockSocial(epoch, invalidated)) == Some((epoch, Clip(invalidated)))
    ensures Clip(invalidated) == invalidated <==> |invalidated| <= MAX_COUNT
  {
    var head := [MSG_BLOCK_COMMITTED] + PutUint(epoch, 8);
    EpochSurvives(MSG_BLOCK_COMMITTED, epoch, PutHashArray(invalidated));
    ParsePutHashArray(head, invalidated, []);
    assert CommitBlockSocial(epoch, invalidated) == head + PutHashArray(invalidated) + [];
  }
}
