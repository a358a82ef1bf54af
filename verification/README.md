# Dafny models of the social-chain commit protocol, its replication, and its logs and indexes

This project models the parts of the repository that have to agree with something else, and proves
that they do:

- **The social chain** (`social/chain.go`). Blocks go through live, done, sealed and committed.
  Actions are validated optimistically while a block is live, revalidated at commit behind the
  network's list of invalidated hashes, and folded into the commit state; `Rollback` and `Recovery`
  cut the chain back. `SocialChain` states each method as a step on a value, `BlockChain` has the
  class whose methods update the chain in place and take exactly those steps. `ChainInvariant` proves
  what runs keep, `ChainReplay` and `ChainRecovery` what they compute, `ChainValidation` what the
  optimistic validation is worth, and `ChainExamples` has runs on the failing side of their conditions.
- **Replication** (`social/node.go`, `social/messages.go`, `social/listener.go`). The node turns
  accepted steps into messages (`Node`), the listener rebuilds blocks from them (`Listening`,
  for any stream `Streams`),
  `Replication` couples the two across an asynchronous FIFO queue, and `Delivery` says what arrives in
  terms of one action at a time.
- **Logs and indexes** that must agree with what they speed up: `social/store.go` (`BlockLog`),
  `index/index.go` (`HashIndex`), `blocks/job.go` and `blocks/protocol.go` (`Query`),
  `social/block.go` (`ProtocolBlocks`), `topos/blockstore.go` (`Transfer`, `Arrival`), `blocks/blocks.go`
  (`Lifecycle`), `RecentBlocks` in `topos/chain.go` (`RecentWindow`), `vault/vault.go` (`Vault`).

`dafny verify dfyconfig.toml` checks everything.

## How it is built

Code that changes state in the source is a class here. Each method's contract equates the abstract
view of the object after the call with a step function of the view before it, in every state it can
be called in; the theorems are about those step functions, over all runs.

Assumptions, all of them about code outside the repository:

- `papirus.ByteStore` is a byte array: new stores are zero-filled, reads past the end give zeros,
  writes past the end extend it (`ByteStores`).
- breeze's `util` codecs are little-endian and fixed-width, or length-prefixed with a two-byte count
  that saturates (`Codec`, where their round trips are proved). Message tags are only known to differ.
- Hashing, signing, sealing and opening are functions of which nothing is assumed, except that the
  vault's cipher opens what it sealed and that sealed keys fit the one-byte length.
- A protocol's `Stateful` is a key-value map, its mutations an overlay on it (`Overlay`), and whether
  an action is valid is an arbitrary function of the state seen through the overlay. The laws of
  `Merge` and `Incorporate` are proved. A validator reads the commit state by reference, and
  `Recover` restores the state the chain was created with: `checksumEpoch` has no setter in the
  repository, so it stays 0 in the class; the lemmas hold for any value.
- Connections and channels are FIFO; from some message on, every send may fail.

Where the code does not do what it seems meant to do:

- Sealing the live block only retires it and answers with an error (`social/chain.go` 108-116); a
  second call seals it. Modelled as written: `ChainInvariant.SealingLiveTakesTwoCalls`.
- `Rollback` and `Recovery` drop the named block too (177, 204). As written.
- `Recovery` discards the result of `Merge` (201). Modelled as accumulating, since the mutations may
  merge in place; `Overlay.DiscardedMergeIsHarmlessIff` says when dropping the result would be harmless.
- `Recovery` to the checksum epoch itself incorporates the block after it, because no block stops the
  walk. As written: `ChainRecovery.RecoveryToChecksumIff`, with a concrete run in
  `ChainExamples.RecoveryToChecksumFails`.
- Because `Recovery` drops the block it goes back to, a later recovery no longer gathers that block's
  mutations. As written: `ChainRecovery.RecoveryRestoresIff` says exactly when a recovery still gives
  the state of the commits up to its epoch, `ChainRecovery.Contiguous` is a condition on the chain alone
  that suffices, and `ChainExamples.RecoveryForgets` is a run that loses an action.
- A `Recovery` to an epoch that is not kept, below a committed block, leaves that block committed above
  the commit epoch: `ChainInvariant.RecoveryKeepsInvariantIff`, `ChainExamples.RecoveryBreaksInvariant`.
- `Rollback` resets the epoch, so an epoch that was sealed can be opened and sealed again; the first
  answer is then stale: `ChainInvariant.SealedHashIsOfCommittedActions`, `ChainExamples.ResealedHashIsStale`.
- The listener compares with `current` before any nil check (`social/listener.go` 91), so a seal for
  an older block after the newest one's seal is a panic. As written: `Replication.ListenerSurvivesIff`
  says exactly when it survives, `Replication.LateSealFails` is a run where it does not.
- An action array submits the wrong field once per element (`social/node.go` 59). As written:
  `Node.ArraySignalAddsNothing`.
- A reopened store has `Epoch` one lower than the live one (`social/store.go` 34, 92), and 2^64 - 1
  when it is empty. As written. A live store's last requested block therefore reads nil, and the empty
  message this ends in closes the receiver's session: `Arrival.StoreArrivesIff`. Payload k must be the
  block of epoch k, so a store needs its reserved payload for epoch 0: `Arrival.ShiftedStoreIsRejected`.
- An empty payload ends the scan of a reopened store: `BlockLog.ReopenedIndexIff`,
  `BlockLog.EmptyPayloadIsLost`.
- `Retrieve` replaces where it should append and puts nils in front of its items
  (`index/index.go` 142-149). As written. A sequence from 2^31 on comes back negative:
  `HashIndex.PackingIsExactIff`.
- `MemoryBlock.Get` loses the first byte of an action and panics on an empty one (`topos/block.go` 28),
  and `RecentBlocks.Sync` sends nothing to a peer exactly one epoch past the oldest block. As written:
  `RecentWindow.AnswerIsCompleteIff`.
- `buffersize` is `1 >> 24`, which is 0; the batching results hold for any threshold.

## Model

| member | source | states |
|---|---|---|
| Overlay.IncorporateMerge | social/chain.go:195-210 | one incorporate of merged mutations equals the separate incorporates, for every state and overlays with deletions |
| Overlay.DiscardedMergeIsHarmlessIff | social/chain.go:201-201 | a merge result that is thrown away makes no difference in any state exactly when the later overlay repeats entries of the earlier one |
| BlockChain.SocialBlockChain.constructor | social/chain.go:42-51 | a new chain is the start state of the step relation, over a state it does not copy |
| BlockChain.SocialBlockChain.Validate | social/chain.go:73-84 | transform, then validate against commit state plus the live overlay; the action is kept exactly when accepted and a block is live |
| BlockChain.SocialBlockChain.NextBlock | social/chain.go:86-104 | refuses any epoch but the next; else the live block is closed with its mutations and a new one opens under a new validator |
| BlockChain.SocialBlockChain.FindBlock | social/chain.go:125-132 | the first kept block of that epoch, or none |
| BlockChain.SocialBlockChain.SealBlock | social/chain.go:106-123 | the whole new chain and the answer, in all four cases, including the retired live block that is answered with an error |
| BlockChain.SocialBlockChain.Revalidate | social/chain.go:134-149 | the invalidated hashes in order and the mutations, with network-invalidated hashes never validated |
| BlockChain.SocialBlockChain.Commit | social/chain.go:151-169 | the first block that is named or uncommitted decides: committed, or one of four refusals that change nothing |
| BlockChain.SocialBlockChain.Rollback | social/chain.go:171-184 | cuts before the named block, drops live, sets the epoch; refuses below the commit epoch or for a block not kept |
| BlockChain.SocialBlockChain.Walk | social/chain.go:195-207 | the mutations gathered up to the named block, and where it is |
| BlockChain.SocialBlockChain.Recovery | social/chain.go:186-212 | the restored state with the gathered mutations incorporated, the cut, and no effect outside checksum..commit epoch |
| BlockChain.Validator.Validate | social/chain.go:77-81 | an action runs on the current commit state seen through the overlay, which grows only when it is valid |
| ChainInvariant.OpenKeepsInvariantIff | social/chain.go:86-104 | a new block keeps the chain invariant exactly when the 64-bit epoch does not wrap |
| ChainInvariant.SealKeepsInvariant | social/chain.go:106-123 | sealing keeps the chain invariant, the retired live block included |
| ChainInvariant.CommitKeepsInvariant | social/chain.go:151-169 | a commit keeps the invariant and takes an epoch above every earlier one, so no block is committed twice between recoveries |
| ChainInvariant.RollbackKeepsInvariant | social/chain.go:171-184 | a rollback keeps the chain invariant |
| ChainInvariant.RecoveryKeepsInvariantIff | social/chain.go:186-212 | a recovery keeps the invariant exactly when it names a kept block or leaves no committed block above its target |
| ChainInvariant.StepKeepsInvariantIff | social/chain.go:73-212 | any step keeps the invariant exactly when its guard holds |
| ChainInvariant.RunKeepsInvariantIff | social/chain.go:73-212 | over any run the invariant holds throughout exactly when every step met its guard: epochs strictly increase, live is above all kept blocks, commits are the prefix up to the commit epoch, checkpoint below epoch |
| ChainInvariant.CommitOutcomes | social/chain.go:152-168 | a commit succeeds exactly when it names the first uncommitted kept block and that is sealed; each of the four refusals is given exactly when its own case holds |
| ChainInvariant.EpochCountsBlocks | social/chain.go:86-104 | without rollbacks the epoch is the starting one plus the number of blocks opened |
| ChainInvariant.RollbackReopens | social/chain.go:171-184 | a rollback is accepted exactly for a kept block from the commit epoch on, and leaves exactly the earlier blocks, no live block and the epoch at which the next one opens |
| ChainInvariant.SealingLiveTakesTwoCalls | social/chain.go:108-122 | the first seal of the live block errs, the second answers with the hash of exactly the actions that were live |
| ChainInvariant.StepFreezes | social/chain.go:77-80 | one step never changes a kept block's actions, lowers its status or touches a committed block, and only rollback and recovery drop blocks |
| ChainInvariant.RunFreezesIff | social/chain.go:90-123 | over any run a block is held throughout exactly when no effective rollback or recovery cuts at or before it, and then its actions never change and its status never falls |
| ChainInvariant.CutsAboveSpare | social/chain.go:171-212 | cuts that name later epochs leave a block and those before it in place |
| ChainInvariant.SealedHashIsOfCommittedActions | social/chain.go:106-163 | the hash a seal answers with is of exactly the list a later commit of that epoch revalidates and keeps, over any run, with rollbacks and recoveries, in which no later call succeeds in sealing that epoch |
| ChainInvariant.CutsAboveNeverReseal | social/chain.go:106-123 | as long as cuts name later epochs no further call succeeds in sealing that epoch |
| ChainExamples.ResealedHashIsStale | social/chain.go:171-184 | a run in which a rollback reopens a sealed epoch and the first hash is not that of the committed list |
| ChainExamples.RecoveryBreaksInvariant | social/chain.go:186-212 | a run whose recovery to an epoch that is not kept leaves a block committed above the commit epoch |
| ChainReplay.RevalidateIsSequential | social/chain.go:134-149 | validating a block behind its overlay and incorporating once equals running its actions one at a time on the state |
| ChainReplay.CommitIsSequential | social/chain.go:151-163 | a commit answers with, and keeps with the block, the hashes of exactly the actions the sequential machine rejects, in order, leaves that machine's state, and touches no other block |
| ChainReplay.CommitAccountsForEveryAction | social/chain.go:134-163 | every action is applied or reported exactly once, in order, counts add up, no applied action has a network-invalidated hash |
| ChainReplay.InvalidatedActionsNeverReachTheValidator | social/chain.go:143-146 | the verdict is the same under any validator that differs only on network-invalidated actions |
| ChainValidation.StepKeepsOptimistic | social/chain.go:73-104 | after every guarded step: while nothing has been committed since the live block's checkpoint, revalidating its actions rejects none and ends with the live validator's overlay; a new block starts at the commit epoch |
| ChainValidation.RunIsOptimistic | social/chain.go:73-212 | the same at every moment of every guarded run |
| ChainValidation.AcceptedIffApplied | social/chain.go:73-84 | so a submitted action is accepted exactly when, transformed, it is one and the sequential machine applies it after the live block's actions, and then it is the one appended |
| ChainValidation.LiveCommitsWhole | social/chain.go:106-163 | so such a block, sealed and committed with an empty network list, invalidates nothing and leaves its validator's state |
| ChainExamples.OptimismFails | social/chain.go:134-163 | a run in which an earlier block's commit invalidates an action that was accepted optimistically |
| ChainReplay.MergeReplays | social/chain.go:159-162 | one incorporate of the merged mutations of a log of commits equals the whole log, one action at a time |
| ChainReplay.HeldSufficesIff | social/chain.go:196-209 | merging only the held commits gives the same state exactly when every last change of a commit that is gone shows on it all the same |
| ChainReplay.HeldAlwaysSufficesIff | social/chain.go:196-209 | from every start state, exactly when the held commits already say each last change of those that are gone |
| ChainRecovery.WalkIsHeldPart | social/chain.go:196-207 | what the walk gathers above the checksum epoch is the log of commits up to its target, as far as their blocks are held |
| ChainRecovery.RecoveryToChecksumIff | social/chain.go:196-209 | recovery to the checksum epoch restores the checksum state exactly when the next block is not kept or changes nothing |
| ChainRecovery.RecoveryRestoresIff | social/chain.go:186-212 | an effective recovery leaves the state of the commits up to its target exactly when nothing it no longer holds is lost |
| ChainRecovery.StepKeepsTraceIff | social/chain.go:73-212 | a guarded step keeps the commit state sequential exactly when it is not a recovery that loses something |
| ChainRecovery.RunIsSequentialIff | social/chain.go:73-212 | over any guarded run from a fresh chain the commit state is at every moment the sequential machine's after the standing commits, exactly when every effective recovery restores |
| ChainRecovery.ContiguousRunRestores | social/chain.go:186-212 | recoveries at which the chain still holds every epoch from the checksum to the target all restore |
| ChainRecovery.CommitStateIsSequential | social/chain.go:73-212 | so over guarded runs (no wrapped epoch, each recovery naming a kept block or leaving no commit above it) with such recoveries the commit state is sequential throughout |
| ChainRecovery.GoneStays | social/chain.go:86-212 | once a recovery at or below a committed epoch has run, no block of that epoch is held again |
| ChainRecovery.RecoveryEqualsReplayIff | social/chain.go:151-212 | whatever ran in between, further commits, rollbacks and restoring recoveries, Recovery(epoch) of a block still held leaves the state just after Commit(epoch) exactly when nothing is lost |
| ChainRecovery.RecoveryEqualsReplay | social/chain.go:151-212 | so it does when the chain still holds every epoch from the checksum to the target |
| ChainExamples.RecoveryForgets | social/chain.go:186-212 | a run in which a recovery of a held block loses the action of a block that an earlier recovery dropped |
| ChainExamples.RecoveryToChecksumFails | social/chain.go:186-212 | one block opened, filled, sealed and committed, after which recovering to epoch 0 leaves its action applied |
| Messages.NewBlockRoundTrip | social/messages.go:11-23 | the epoch survives its message |
| Messages.SealRoundTrip | social/messages.go:31-45 | epoch and hash survive their message |
| Messages.CommitRoundTrip | social/messages.go:47-61 | the epoch survives, and the hashes up to 65535 of them; the list is whole exactly within that |
| Listening.BlockListener.ReceiveNewBlock | social/listener.go:65-76 | a fresh block becomes current and pending, or a malformed message ends the loop |
| Listening.BlockListener.ReceiveAction | social/listener.go:77-83 | the action goes to the current block, seen through the pending map when it is the same block |
| Listening.BlockListener.ReceiveSeal | social/listener.go:84-100 | the hash is set and current cleared when named; nil current is a panic, an unknown block ends the loop |
| Listening.BlockListener.ReceiveCommit | social/listener.go:101-114 | the pending block is delivered with its invalidated list and no longer pending; a parse error reads as epoch 0 |
| Listening.BlockListener.HandleMessage | social/listener.go:57-116 | one turn of the loop is one step of the listener, whatever the message |
| Listening.ConsumeIsMonotone | social/listener.go:57-117 | what was delivered stays delivered, and a stopped listener never moves again |
| Streams.ListenerIsExplained | social/listener.go:57-117 | for any stream of messages at all, how the listener ends and every block it delivers, told from the messages alone: a block has the actions since its opening until its seal or the next opening, its last seal's hash and its commit's list |
| Node.SignalLoop.HandleSignal | social/node.go:38-80 | one signal: the chain step, and its message exactly when it was accepted |
| Node.SignalLoop.CommitOne | social/node.go:71-78 | the commit message carries the chain's own verdict |
| Node.ArraySignalAddsNothing | social/node.go:57-62 | with the action field empty and no transform an action array of any size changes nothing |
| Node.ArraySignalIsRepeated | social/node.go:57-62 | an array signal does what its one action does, signalled as often as the array is long |
| Node.NothingAfterError | social/node.go:41-43 | after an error signal nothing more changes or is sent |
| Replication.MirrorsExactlyIff | social/node.go:71-77 | without a transform a delivered block equals the committed one exactly when its invalidated list fits the count |
| Replication.OpenCouples | social/node.go:44-52 | the coupling of chain and listener is kept by a new block and its message |
| Replication.SubmitCouples | social/node.go:53-56 | kept by an accepted action and its message |
| Replication.SealCouples | social/listener.go:84-100 | kept by a seal that succeeds while the newest block is open |
| Replication.LateSealCrashes | social/listener.go:91-93 | any other successful seal ends the listener at the nil current |
| Replication.CommitCouples | social/listener.go:101-109 | kept by a commit, whose delivered block mirrors the chain's record |
| Replication.StepStaysIff | social/node.go:38-80 | one signal keeps the coupling exactly when its seal is in order, and is fatal to the listener otherwise |
| Replication.RunStaysIff | social/node.go:38-80 | the same over every run of signals |
| Replication.ListenerSurvivesIff | social/listener.go:57-117 | a listener that reads everything is still running exactly when every successful seal came while the newest block was open, and never stops in an error branch |
| Replication.SystemIsInTransit | social/node.go:33-81 | under every schedule the queue is the unread tail of what was sent |
| Replication.DeliveredIsPrefixOfCommitted | social/listener.go:53-117 | at every reachable state of every schedule the delivered blocks mirror a prefix of the committed ones in commit order, with nothing missing once the queue is empty |
| Delivery.CommittedIsSettled | social/node.go:38-80 | after any signals the committed blocks, with their invalidated lists, and the commit state are those of a sequential machine run over the accepted commits |
| Delivery.DeliveredIsSettled | social/listener.go:53-117 | at every reachable state of every schedule the delivered blocks mirror a prefix of that machine's blocks: epochs, actions, hashes and the hashes of exactly the rejected actions |
| Replication.LateSealFails | social/listener.go:91-93 | a five-step run, legal for the chain, that ends the listener |
| ProtocolBlocks.BlockReadsBack | social/block.go:68-80 | a block reads back from the front of whatever follows it |
| ProtocolBlocks.ReadsBackIff | social/block.go:68-80 | a block reads back exactly when it has no empty or over-long action and at most 65535 hashes |
| ProtocolBlocks.FormatIsPrefixFree | social/block.go:68-80 | no well-formed block's encoding is a prefix of another's |
| ProtocolBlocks.JoinSplitsUniquely | topos/blockstore.go:139-155 | a concatenation of well-formed blocks splits in only one way |
| ProtocolBlocks.ProtocolBuilder.constructor | social/block.go:34-40 | a builder starts with the epoch and no actions |
| ProtocolBlocks.ProtocolBuilder.AddAction | social/block.go:42-44 | appends one encoded action in any status; in order, the data stays the encoding of the actions so far |
| ProtocolBlocks.ProtocolBuilder.Seal | social/block.go:46-52 | ends the action list and hashes everything up to it |
| ProtocolBlocks.ProtocolBuilder.Finalize | social/block.go:54-62 | in order, the bytes equal Serialize of the block that was built; out of order, what is appended |
| BlockLog.BlockStore.constructor | social/store.go:24-30 | a new store holds nothing and takes its maximum from the first store |
| BlockLog.ScanLoop | social/store.go:38-55 | the inner loop finds the frames in the bytes one after the other, up to the first zero size or the end |
| BlockLog.Scan | social/store.go:37-55 | which are exactly the entries before the first empty payload |
| BlockLog.ScanAll | social/store.go:33-56 | over all stores the index is rebuilt and the offset is that of the last store |
| BlockLog.BlockStore.Open | social/store.go:32-64 | opening rebuilds index, size and epoch = count - 1 from the bytes alone, the live ones when no payload is empty; what it indexes is readable in any case |
| BlockLog.BlockStore.NewStore | social/store.go:66-70 | one more empty store of the maximum size |
| BlockLog.BlockStore.AddBlock | social/store.go:72-94 | the payload lands after the last frame or in a new store, and every earlier byte and index entry stays |
| BlockLog.BlockStore.GetBlock | social/store.go:96-103 | exactly the n-th payload ever added, nil outside, at any later time |
| BlockLog.PlaceKeepsPayloads | social/store.go:72-94 | across any rollovers the payloads in the stores are those added, in order |
| BlockLog.StoresFitIff | social/store.go:80-82 | every store stays within its maximum exactly when every single frame does |
| BlockLog.PlaceIsGreedy | social/store.go:80-82 | over any run a new store is started only for a frame that did not fit in the one before |
| BlockLog.FramesDoNotOverlap | social/store.go:83-91 | frames of one store never overlap and stay inside its used part |
| BlockLog.ReopenedIndexIff | social/store.go:32-64 | the rebuilt index is the live one exactly when no payload was empty |
| BlockLog.EmptyPayloadIsLost | social/store.go:41-43 | a store whose one payload is empty reopens without any block |
| BlockLog.ReopenedStoreContinues | social/store.go:32-94 | close, reopen and go on: later additions land where they would have without closing |
| HashIndex.PackingIsExactIff | index/index.go:81-82 | epoch and sequence survive packing exactly for epochs below 2^32 and sequences below 2^31; larger 32-bit sequences turn negative |
| HashIndex.CompareHash | index/index.go:115-125 | equality of the first 16 bytes, false when there are fewer |
| HashIndex.LatestIsExact | index/index.go:134-148 | the full scan lists an epoch exactly when a record of it matches, with the latest such record's sequence |
| HashIndex.BucketSuffices | index/index.go:128-138 | looking only into the 4-byte bucket finds what a full scan finds |
| HashIndex.AddedIsFound | index/index.go:80-99 | after an addition the epoch is listed with its sequence under every hash that agrees with an added one on 16 bytes, and nothing changes under any other |
| HashIndex.Index.constructor | index/index.go:43-68 | opening restores the map a linear scan builds and the last epoch, for any file |
| HashIndex.Index.NextBlock | index/index.go:28-33 | writes the header and leaves every record |
| HashIndex.Index.Add | index/index.go:80-100 | appends one record per hash, and the map still equals a scan of the file |
| HashIndex.Index.CollectPositions | index/index.go:134-148 | one sequence per matching epoch, the latest |
| HashIndex.Index.Retrieve | index/index.go:127-154 | as many nils as items, then one item per matching epoch as a full scan would find |
| Query.HitsAreTheRequestsIff | blocks/job.go:30-47 | a single pass meets every requested index exactly when the list is strictly increasing and in range |
| Query.PassIsSelection | blocks/job.go:32-49 | the pass beside the requests selects the indices it meets and filters them |
| Query.QueryPass | blocks/job.go:29-49 | the loop sends what the pass selects, up to the first failing send, reading only inside the block |
| Query.QueryOne | blocks/job.go:29-49 | that is, the requested actions of one encoded block that pass the filter, in order |
| Query.ExecuteQuery | blocks/job.go:24-54 | the same over all query blocks in order; a block that is not stored sends nothing |
| Query.WantedAllAppend | blocks/job.go:27-50 | what is sent for two lists of query blocks is what is sent for the first and then for the second |
| Query.WantedByIndex | blocks/job.go:28-49 | one query block with strictly increasing in-range indices gets exactly the actions at those indices that pass, in order, given by increasing places; one that is not stored gets nothing |
| Query.FilterProtocolOnBlock | blocks/protocol.go:9-17 | collects exactly the block's actions that pass the filter, in order |
| Query.AllIndicesMatchTheFilter | blocks/protocol.go:9-17 | with FilterProtocol and all indices a query sends what FilterProtocolOnBlock collects |
| Transfer.BatchesAreTheBlocks | topos/blockstore.go:250-262 | for any threshold the batches concatenate to the blocks with nothing left over, and all but the last exceed it |
| Transfer.SendBatches | topos/blockstore.go:250-262 | what goes out is those batches, up to the first failing send |
| Transfer.SendForever | topos/blockstore.go:251-262 | at epoch 2^64 - 1 the counter wraps: empty messages until a send fails |
| Transfer.TransmitBlocks | topos/blockstore.go:226-263 | the greeting, then zero bytes for a request past the end, or the batches from max(1, start), or empty messages without end from a store opened without a block |
| Transfer.OutputIsInSequence | topos/blockstore.go:204-213 | the i-th block passed on has epoch start + i, or the last epoch once reached |
| Transfer.StreamIsInSequence | topos/blockstore.go:177-214 | the same for any stream of messages under any parser |
| Transfer.ReceiveLoop | topos/blockstore.go:177-214 | what is passed on, and how many nils, for any stream |
| Transfer.ReceiveBlocks | topos/blockstore.go:157-217 | refuses epoch 0, yields one nil from a peer that is behind, else consecutive epochs without skips and the nils of the session |
| Arrival.FormatSplitsBlocks | topos/blockstore.go:139-155 | reading block after block splits any concatenation of well-formed blocks |
| Arrival.StoreArrivesIff | topos/blockstore.go:226-263 | from a live or an opened store, in any batch size, the receiver passes on exactly the stored blocks if and only if payload k is the block of epoch k; an empty last message, which a live store's answer always has at the source's threshold, ends the session with two nils |
| Arrival.ShiftedStoreIsRejected | topos/blockstore.go:204-213 | without the reserved payload for epoch 0 the receiver passes on nothing |
| Arrival.HandshakeIsRead | topos/blockstore.go:228-241 | the last epoch and the requested one survive their messages |
| Arrival.PastTheEndIsOneNil | topos/blockstore.go:242-246 | a request past the last epoch ends the receiver with exactly one nil and no block |
| Arrival.RequestForZeroIff | topos/blockstore.go:247-249 | a request for 0 is answered like one for 1 exactly when the last epoch is at least 1; at 0 it is not answered at all |
| Lifecycle.BlocksAreConserved | blocks/blocks.go:45-122 | over any run the blocks created equal, as a multiset, those current, unsealed, sealed and written, with actions as they left current |
| Lifecycle.BlocksAreStamped | blocks/blocks.go:65-122 | over any run every sealed or written block's seal came in a seal event of its own epoch and every written block's commit in a commit event of its own epoch, each event used at most once |
| Lifecycle.UnsealedInOrder | blocks/blocks.go:45-89 | over any run the unsealed blocks wait in the order of their creation, so a seal takes the earliest of its epoch |
| Lifecycle.StampsInOrder | blocks/blocks.go:83-121 | sealed blocks wait in the order of their seals and blocks are written in the order of their commits |
| Lifecycle.BlockStore.NewBlock | blocks/blocks.go:45-53 | the current block is set aside and a new one opened |
| Lifecycle.BlockStore.AddAction | blocks/blocks.go:55-57 | only the current block's actions grow |
| Lifecycle.BlockStore.SealBlock | blocks/blocks.go:65-89 | the current block or the first unsealed of that epoch is sealed and removed, or nothing happens |
| Lifecycle.BlockStore.CommitBlockOf | blocks/blocks.go:102-122 | the first sealed block of that epoch is removed and written, or nothing happens |
| Lifecycle.BlockStore.AppendBlock | blocks/blocks.go:91-100 | one more block in storage, all earlier ones untouched |
| Lifecycle.BlockStore.GetBlock | blocks/blocks.go:33-43 | the k-th written block's serialization, whole exactly when its length fits four bytes |
| RecentWindow.AppendKeepsActions | topos/block.go:31-34 | appending adds one action and leaves the others where they are |
| RecentWindow.RecentBlocks.NextBlock | topos/chain.go:282-294 | the window stays exactly the last maxBlocks closed blocks with contiguous epochs |
| RecentWindow.RecentBlocks.Cache | topos/chain.go:235-242 | what is closed from the shift on, then the current block |
| RecentWindow.RecentBlocks.Sync | topos/chain.go:233-263 | an error below the oldest block, nothing one epoch past it, else everything after the peer's epoch with each header naming its predecessor's hash |
| RecentWindow.HeadersFollow | topos/chain.go:250-261 | with contiguous epochs a peer reads the blocks of its epoch + 1 up to the current one, in order |
| RecentWindow.AnswerIsRead | topos/chain.go:244-261 | reading the answer message by message gives every later block and no other, or nothing one epoch past the oldest |
| RecentWindow.CarriedAt | topos/chain.go:250-260 | the i-th block read has the i-th later block's epoch, the hash of its predecessor's data and all its actions in order, each without its first byte |
| RecentWindow.AnswerIsCompleteIff | topos/chain.go:235-249 | what Sync sends without an error is everything after the peer's epoch exactly when the peer is not one epoch past the oldest block, or lacks nothing |
| RecentWindow.AnswerIsIncomplete | topos/chain.go:237-242 | a window of two blocks and a peer at the second, which is sent nothing |
| RecentWindow.RecentBlocks.Clone | topos/chain.go:296-305 | exactly the closed blocks of the window at or above the epoch |
| Vault.SecureVault.constructor | vault/vault.go:58-85 | the file is the salt and the sealed first key, which is not among the secrets |
| Vault.SecureVault.GenerateNewKey | vault/vault.go:43-56 | one more record in the file and one more secret; the secrets stay the keys generated since |
| Vault.Replay | vault/vault.go:113-142 | reading the records in order restores every key and the first one as the vault's own |
| Vault.SecureVault.Open | vault/vault.go:87-144 | reopening restores the secrets of the vault that wrote the file and adds the first key, as its own and among the secrets |
| Vault.ReopenedSecrets | vault/vault.go:113-142 | all keys in file order are the live secrets over the first key |
| Vault.EveryKeyIsFound | vault/vault.go:128-128 | every key in the file is found under its token after reopening, or another key with that token is |

## Left out

- Sockets, dialling, listeners, connection pools, goroutines and locks: one call runs at a time, and only FIFO queues stand between steps.
- `BreezeBlockListener`: it translates breeze messages into the signals that `Node` takes as input; the `newBlock` channel of the node loop goes with it.
- `SocialBlockChain.Sync`: it speaks other message kinds than the listener reads. Replication is for a listener attached from the start.
- `ParseProtocolBlockWithPosition`: it overwrites its buffer, hashes from the buffer start and inverts the signature test, so it parses no block; unique decodability of the format is proved instead, and Arrival.StoreArrivesIff holds for any parser that splits well-formed blocks and nothing else from no bytes.
- `BlockProviderNode`: it never fills `notCommit`, so its seal and commit branches are dead.
- `BlockSorter`: it never advances, so only sorted insertion remains.
- The file code of `topos.Blockchain`: it closes its own file, never advances past an action and never extends `blocks`.
- Direct appends in `NewBlockListener`: already sealed or committed blocks that arrive whole are not among the events of the conservation result.
- FilterProtocolOnBlock: returns the collected actions, while the source appends them to an array passed by value.
- Lifecycle.BlocksAreConserved: covers runs in which `Current` is not nil when Action or Seal is called; the source dereferences it.
- BlockLog.BlockStore.AddBlock: payload lengths are below 2^63, as Go slice lengths are, and offsets are unbounded integers.
- Transfer.TransmitBlocks: a store with 2^64 - 1 blocks is excluded; only an empty opened one has that epoch.
- Transfer.ReceiveBlocks: as written it never sends the epoch request that the transmitter waits for; the two sides are proved with the request supplied. Where the nils fall among the blocks is not modelled, only how many there are.
- Query.ExecuteQuery: a query block without indices or with an epoch of 2^63 or more is excluded, where the source panics; breeze's header layout is only an offset.
- RecentWindow.RecentBlocks.Sync: requires a block in the window and no empty action in what is sent, where the source panics; epochs are unbounded.
- HashIndex.Index.Retrieve: the order of its items is left open, as Go's map iteration order is.
- Vault.SecureVault.Open: the right password and an intact file with at least one record; the source exits or loops otherwise. Key generation and scrypt are inputs.
- Block builders, memory blocks and byte-store contents are values, so aliasing among them is not captured; social blocks, the commit state, validators and the listener's pending blocks are objects shared by reference. The listener's channel receives a block as it is when sent.
- BlockChain.SocialBlockChain.Walk: the merge is accumulated, where the source as written drops the result of `Merge`; so is BlockChain.SocialBlockChain.Recovery's.
- BlockChain.SocialBlockChain.Recovery: see BlockChain.SocialBlockChain.Walk.
- `Replication`: action arrays resubmit one action as the source does, and an accepted new block must not wrap the 64-bit epoch.
- The gateway, relay, proof-of-authority and configuration code, `cmd/`, and logging.
