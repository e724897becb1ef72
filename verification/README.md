# Tari Ootle: verified model of the consensus, address and node-service cores

This project models the parts of Tari Ootle on which correctness hangs, and proves in Dafny what they promise: over every
input, every run and every interleaving. Nothing here executes the original programs.

| file | what it models |
|---|---|
| `Committee.dfy` | weighted voting power, fault bound and quorum threshold, merging of committees, leader rotation |
| `Certificate.dfy` | checking a proposal certificate, and collecting votes into one |
| `VoteHistory.dfy` | what the vote collector returns over any sequence of calls |
| `HotStuff.dfy` | the chained HotStuff protocol of one epoch, as block tree and vote history; agreement |
| `Replica.dfy` | one validator's records (lock, high certificate, last voted, last sent, last executed, log), their updates and the safeNode check |
| `Voting.dfy` | runs of one validator, the votes it sends, and exactly when they follow the voting rules |
| `CommittedLog.dfy` | the blocks runs execute: no forks, one order of first executions, exactly when nothing is repeated |
| `Proposal.dfy` | proposal validation, dummy blocks for skipped views, and agreement from validation |
| `Scenarios.dfy`, `OpenConditions.dfy` | trees and runs built from tables: the conditions of agreement can be met, and an accepted input that fails each condition the code leaves open |
| `ShardGroups.dfy` | the shard of an address, the address range of a shard, the even split of shards into groups |
| `Bech32m.dfy`, `Regrouping.dfy`, `OotleAddress.dfy` | the Bech32m checksum and string format, regrouping between bytes and 5-bit words, the Ootle address codec |
| `KnownAnswers.dfy` | a valid string of BIP-350, encoded and decoded |
| `Supervisor.dfy`, `LayerOneQueue.dfy` | the watcher's supervisor loop, monitor tasks and channels; its queue of layer-one transaction files |
| `FanOut.dfy` | the indexer's queries to one member after the other in every shard group involved |
| `SubstateLocks.dfy` | the locks derived from an execution, and serialisability |
| `ComponentStore.dfy` | grouping of a diff into component records |
| `Borsh.dfy` | length-prefixed encodings |
| `Text.dfy`, `Table.dfy`, `Permissions.dfy` | splitting and trimming; the table renderer; permission texts |
| `Validators.dfy` | composition of transaction validators |
| `Wrappers.dfy` | `Option` and `Result` |

The consensus result in one sentence (`Proposals.ValidatedSystemAgrees`): if every key outside a set no heavier than the
fault bound votes as the modelled code does, for proposals that pass the modelled validation and are on their branch, each
above its last vote sent, then no two validators ever hand conflicting blocks to the commit callback, and all of them first
execute blocks in one order. Parents may be missing, heights along parents need not fall, and blocks that nobody votes for
may have any shape. The lemmas below it go from weighted quorum intersection over certificate soundness, the locking rule
and the three-chain commit rule to the logs of the validators.

## Conditions the code leaves open

Where a property does not follow from the code alone, the exact condition is stated and proved, with an input on which the
code fails it.

- **Shape of a proposal without dummy blocks.** Validation looks up the parent only when it is the justified block, and
  never compares the parent's height or branch. `Proposals.ShapeExactlyWhen`: the proposal has the shape agreement needs
  exactly when its parent is stored, anchored in genesis, lower, and descends from the justified block, and is that block
  only if no timeout certificate raises the height. That the parent is stored is enforced when voting: a proposal without
  it gets no vote and is rolled back (`Replicas.MissingParentRollsBack`). The rest is open:
  `OpenConditions.AcceptedOffBranch` gives three accepted proposals that fail the condition, of which the two with a stored
  parent are voted for. What an honest leader proposes after a timeout without dummy blocks meets it
  (`OpenConditions.TimeoutWithoutDummiesIsValidated`).
- **Timeout proposals on dummy blocks.** Validation returns before the safeNode check.
  `Proposals.TimeoutProposalIsSafeExactlyWhen`: the proposal is safe exactly when its certificate is newer than the lock or
  the highest block seen descends from the locked block, and has the shape exactly when the highest block seen is anchored
  and descends from the justified block. `OpenConditions.AcceptedTimeoutIsUnsafe` gives an accepted one that is neither.
- **No certificate seen yet.** Validation skips the safeNode check when the high certificate is the zero block's.
  `Proposals.SkippedCheckIsSafeExactlyWhen`: the proposal is safe all the same exactly when it justifies a later block or
  descends from genesis. `OpenConditions.UncheckedProposalIsUnsafe` gives an accepted one, voted for, that does neither.
- `Proposals.PassingIsSoundExactlyWhen` is the result that puts the three together: a proposal that passes validation is safe
  and has the shape exactly when its parent is stored and `Proposals.OnItsBranch` holds. `Proposals.ShapeExactlyWhen` and
  `Proposals.SkippedCheckIsSafeExactlyWhen` are cases of it.
- **Votes past an evicted leader.** Such a vote is sent but not recorded as the last vote, which decides about voting.
  `Voting.BallotsRiseExactlyWhen`: the heights of a run's votes rise exactly when each vote is above the last vote sent, a
  record the code keeps. `Voting.RecordedVotesRise`: without evicted leaders the code keeps to it.
  `OpenConditions.UnrecordedVotesBreakTheRules` gives a run of validated proposals that does not.
- **A lower three-chain head.** The last-executed record is overwritten even by a lower head.
  `CommittedLogs.LogStaysBranchExactlyWhen`: the log stays the branch of the last executed block exactly when no head is
  lower. `OpenConditions.StaleCertificateRepeatsExecution` gives a run of validated proposals, voted for by the rules, that
  executes a block twice. The order of first executions needs no such condition
  (`CommittedLogs.FirstExecutionsArePrefixes`).
- **Quorums of two blocks in one view.** A quorum discards all votes of its view, so the call that completes the quorum of
  another block may return nothing. `VoteHistories.QuorumIsReturnedWhenComplete`: it returns as long as the keys that vote
  for two blocks of the view weigh no more than the fault bound. `VoteHistories.LastCallReturns` is the exact condition for
  the votes since the view was last given up, and `VoteHistories.QuorumIsLostToAnotherBlock` gives the calls that lose one.
- **Shard of an address against range of a shard.** `ShardGroups.ToShardAgreesWithRange` states exactly when they agree, and
  `ShardGroups.BoundaryKeyIsMisplaced` gives an address for which they do not.
- **Fan-out results.** The comment at `network_client.rs:121-123` promises one entry per group;
  `FanOut.ResultsCoverGroups` proves that this holds exactly when every group has a committee member.
- **`GetNft` with arguments.** It prints without them; `Permissions.ParsePrint` proves that it is the only permission whose
  text does not parse back.

## Model

| member | source | states |
|---|---|---|
| `Committees.QuorumIntersection` | crates/common_types/src/committee.rs:56-73 | any two sets of keys that reach the threshold share power of at least the fault bound plus one, even when the member list repeats a key |
| `Committees.QuorumAvailability` | crates/common_types/src/committee.rs:56-73 | the members outside a failing set reach the threshold exactly when the failing power, plus the power that repeated keys waste, is at most the fault bound |
| `Committees.QuorumsShareHonestSigner` | crates/common_types/src/committee.rs:56-67 | two quorums share a key outside any set no heavier than the fault bound |
| `Committees.MaxFailuresIsOptimal` | crates/common_types/src/committee.rs:56-67 | the fault bound is the most power any threshold can tolerate, and the code's threshold tolerates it |
| `Committees.WeightInclusionExclusion` | crates/common_types/src/committee.rs:101-107 | power of key sets, taken from the first matching member, obeys inclusion-exclusion |
| `Committees.MergeCommittees` | crates/common_types/src/committee.rs:203-213 | the merging fold yields the members of all parts in order |
| `Committees.MergeBounds` | crates/common_types/src/committee.rs:56-67 | under merging, the fault bound is superadditive and the threshold subadditive, for any number of parts |
| `Committees.MergedQuorum` | crates/common_types/src/committee.rs:203-213 | votes that reach quorum in every part reach quorum in the merged committee |
| `Committees.SelectionIsRotation` | crates/common_types/src/committee.rs:131-145 | a full selection is the member list rotated by the start index modulo its length |
| `Committees.SelectionIsPermutation` | crates/common_types/src/committee.rs:131-145 | every full selection is a permutation of the members |
| `Committees.SelectionPrefixAndPeriod` | crates/common_types/src/committee.rs:131-145 | shorter selections are prefixes; start indices select the same members if they agree modulo the length, and only then when addresses are distinct |
| `Committees.StepsLocateMember` | crates/common_types/src/committee.rs:147-156 | a rotation from b's index meets a after exactly the computed steps, and not before when addresses are distinct |
| `Committees.StepsCompose` | crates/common_types/src/committee.rs:147-156 | step counts compose around the ring |
| `Certificates.CheckCertificate` | crates/consensus/src/validations/common.rs:223-278 | accepts exactly the zero certificate and certificates with distinct, valid committee signatures reaching quorum; otherwise reports the first fault, or the power got and required |
| `Certificates.FaultExactlyWhen` | crates/consensus/src/validations/common.rs:223-278 | which fault each signature has, by membership, repetition and verification, and which of several is the one reported |
| `Certificates.CertificatesExposeSharedSigners` | crates/consensus/src/validations/common.rs:223-278 | two accepted certificates exhibit more than the fault bound as signers of both |
| `Certificates.CertificateAgreement` | crates/consensus/src/validations/common.rs:223-278 | if keys that signed two blocks of a view weigh no more than the fault bound, accepted certificates of the view name one block |
| `Certificates.VoteCollector.CalculateThresholdDecision` | crates/consensus/src/hotstuff/vote_collector/collector.rs:169-218 | the vote-by-vote sums decide exactly what the voters' key sets decide |
| `Certificates.VoteCollector.TakeVotes` | crates/consensus/src/hotstuff/vote_collector/collector.rs:144-160 | takes exactly the votes with the decision, one per signer |
| `Certificates.VoteCollector.CollectVote` | crates/consensus/src/hotstuff/vote_collector/collector.rs:31-96 | whole new store and returned decision in every case (old views dropped, duplicates ignored, view removed on quorum), and what is returned are the votes of all signers filed with the decision, a verified quorum for one block |
| `Certificates.AtMostOneDecision` | crates/consensus/src/hotstuff/vote_collector/collector.rs:169-218 | accept and reject never both reach quorum, so the order of the tests is immaterial |
| `Certificates.FilingKeepsOrder` | crates/consensus/src/hotstuff/vote_collector/collector.rs:125-142 | filing keeps every vote under its own view, block and sender |
| `Certificates.CollectedCertificateIsSound` | crates/consensus/src/hotstuff/vote_collector/proposal_collector.rs:127-141 | a certificate made of collected votes passes the check exactly when all voters are members of the checking committee |
| `VoteHistories.RetainedExactlyWhen` | crates/consensus/src/hotstuff/vote_collector/collector.rs:117-120 | a call drops exactly the views that are more than one height behind the current one or of an earlier epoch |
| `VoteHistories.CollectorHoldsFirsts` | crates/consensus/src/hotstuff/vote_collector/collector.rs:31-142 | over any calls that do not leave the view or complete a quorum in it, the collector holds exactly the first vote of every signer for each of its blocks |
| `VoteHistories.LastCallReturns` | crates/consensus/src/hotstuff/vote_collector/collector.rs:31-96 | a vote then returns exactly the decision whose first voters form a quorum, if it is its signer's first |
| `VoteHistories.QuorumIsReturnedWhenComplete` | crates/consensus/src/hotstuff/vote_collector/collector.rs:31-96 | whatever other votes arrive in between, the call that completes a quorum returns it and no vote of the view returned before, while the validator is at most one height past the view and few keys vote for two of its blocks |
| `VoteHistories.ViewIsGivenUp` | crates/consensus/src/hotstuff/vote_collector/collector.rs:117-160 | the votes of a view are dropped when the validator leaves it and when a vote of it returns |
| `VoteHistories.QuorumIsLostToAnotherBlock` | crates/consensus/src/hotstuff/vote_collector/collector.rs:144-160 | with more equivocation than the fault bound, the call that completes a quorum can return nothing |
| `HotStuff.CertifiedHeightsUnique` | crates/consensus/src/traits/block_store.rs:36-115 | two certified blocks of one height are one block |
| `HotStuff.VoterLock` | crates/storage/src/consensus_models/block.rs:868-895 | of two certified blocks, a rule-following voter of both held a lock at least as high as the lower one's lock target, for which the higher one was safe |
| `HotStuff.CertifiedDescendsFromCommitted` | crates/consensus/src/traits/block_store.rs:57-99 | every certified block at or above a committed block descends from it |
| `HotStuff.Agreement` | crates/consensus/src/traits/block_store.rs:57-99 | any two committed blocks lie on one branch |
| `Replicas.Replica.OnLockedBlockRecurse` | crates/consensus/src/traits/block_store.rs:117-136 | the walk to the old lock succeeds exactly when no parent on the way is missing, and removes the orphans of every block on it, oldest first |
| `Replicas.MissingParentRollsBack` | crates/consensus/src/hotstuff/on_ready_to_vote_on_local_block.rs:458 | a proposal whose parent is not stored gets no vote, and considering one leaves all records as they were |
| `Replicas.Replica.OnCommitBlockRecurse` | crates/consensus/src/traits/block_store.rs:138-157 | hands the ancestors above the last executed height to the callback, oldest first, and fails exactly when a parent is missing |
| `Replicas.Replica.UpdateNodes` | crates/consensus/src/traits/block_store.rs:36-115 | whole new records and stored blocks after a block's certificate is processed, and exactly when a missing block makes it fail |
| `Replicas.Replica.ProcessBlock` | crates/consensus/src/hotstuff/on_receive_local_proposal.rs:273-410 | whole new records after processing and voting, rolled back when a block is missing (on the way to the lock or the last executed block, the justified block, or the parent of a block considered for a vote, after the removal of orphans), and when a vote is sent |
| `Replicas.IsPendingAncestor` | crates/state_store_rocksdb/src/reader.rs:774-809 | the upward walk finds the ancestor exactly when the pending chain reaches it |
| `Replicas.ExtendsPending` | crates/storage/src/consensus_models/block.rs:689-706 | the index test exactly; it answers yes only for proper descendants, and for all of them whose branch is stored and pending |
| `Replicas.IsSafe` | crates/storage/src/consensus_models/block.rs:875-895 | accepts only blocks that satisfy safeNode, and all of them whose branch to the lock is stored and pending |
| `Voting.BallotsRiseExactlyWhen` | crates/consensus/src/hotstuff/on_ready_to_vote_on_local_block.rs:241-267 | the heights of a run's votes rise exactly when every vote is above the last vote sent |
| `Voting.VotesExactlyWhenDeserved` | crates/consensus/src/hotstuff/on_ready_to_vote_on_local_block.rs:168-267 | a proposal adds one vote exactly when its evaluation agrees, it is above the last vote and no block looked up is missing; otherwise no vote is added and both vote records stay |
| `Voting.BallotsAreDeserved` | crates/consensus/src/hotstuff/on_ready_to_vote_on_local_block.rs:241-495 | the votes of every run are, in order, one for each proposal that deserved it when it was processed |
| `Voting.EffectOnRecords` | crates/consensus/src/traits/block_store.rs:36-115 | a proposal that is rolled back leaves all records; any other raises the highest block seen, the high certificate and the lock |
| `Voting.RunRecordsTheHighest` | crates/consensus/src/traits/block_store.rs:36-115 | in every run these three records are the highest that the proposals which took effect offered, or genesis |
| `Voting.RecordedVotesRise` | crates/consensus/src/hotstuff/on_receive_local_proposal.rs:393-408 | without evicted leaders every vote is above the last vote sent |
| `Voting.LockAlwaysCovers` | crates/consensus/src/traits/block_store.rs:57-76 | in every run the lock is certified and covers the lock targets of all votes sent, each vote's lock those of the earlier ones |
| `Voting.RunIsDisciplinedExactlyWhen` | crates/consensus/src/hotstuff/on_ready_to_vote_on_local_block.rs:241-267 | a run's votes follow the voting rules exactly when each is for a block safe for the lock of the moment and above the last vote sent |
| `CommittedLogs.LockingKeepsExactlyBranch` | crates/storage/src/consensus_models/block.rs:529-548 | removing orphans keeps every stored block of the locked branch, and of the heights newly locked nothing else |
| `CommittedLogs.ClearedExactlyWhen` | crates/storage/src/consensus_models/block.rs:529-548 | locking keeps exactly the stored blocks from which stored parents lead to no rival of a locked block |
| `CommittedLogs.CommitHeadIsCommitted` | crates/consensus/src/traits/block_store.rs:79-99 | what the code commits is the head of a certified three-chain |
| `CommittedLogs.ExecutedBlocksNeverFork` | crates/consensus/src/traits/block_store.rs:79-157 | blocks executed by any two validators in any runs lie on one branch |
| `CommittedLogs.ValidRunCompletes` | crates/consensus/src/traits/block_store.rs:66-98 | in a valid run no block that an update looks up is missing |
| `CommittedLogs.LogTracksHead` | crates/state_store_rocksdb/src/writer.rs:447-453 | one commit keeps the log the branch of the last executed block exactly when the new head is not lower |
| `CommittedLogs.LowerHeadRepeatsExecution` | crates/consensus/src/traits/block_store.rs:79-157 | after a lower head, a later commit executes a block a second time |
| `CommittedLogs.FirstExecutionsAreBranch` | crates/consensus/src/traits/block_store.rs:79-157 | in every run the blocks first executed are a branch up to a committed block, in order |
| `CommittedLogs.FirstExecutionsArePrefixes` | crates/consensus/src/traits/block_store.rs:79-157 | the orders in which any two validators first execute blocks are prefixes of one another, in all runs |
| `CommittedLogs.LogStaysBranchExactlyWhen` | crates/consensus/src/traits/block_store.rs:79-157 | the log stays the branch of the last executed block throughout a run exactly when no processed proposal has a lower head |
| `CommittedLogs.LogsArePrefixes` | crates/consensus/src/traits/block_store.rs:79-157 | in runs without lower heads the logs themselves are prefixes of one another |
| `CommittedLogs.SystemRunsAgree` | crates/consensus/src/hotstuff/on_receive_local_proposal.rs:338-410 | committees whose rule-following keys vote as their runs do never execute conflicting blocks |
| `Proposals.CalculateDummyBlocks` | crates/consensus/src/hotstuff/common.rs:137-229 | the loop builds the chain of dummy blocks, stopping early exactly at the expected parent |
| `Proposals.ValidateTimeout` | crates/consensus/src/hotstuff/on_receive_local_proposal.rs:854-891 | the timeout branch accepts exactly when the parent is one of the dummy blocks above the highest block seen, and returns those up to it |
| `Proposals.ValidateProposal` | crates/consensus/src/hotstuff/on_receive_local_proposal.rs:741-902 | the verdict each proposal gets, and what acceptance and the safeNode rejection mean |
| `Proposals.VerdictExactlyWhen` | crates/consensus/src/hotstuff/on_receive_local_proposal.rs:741-902 | exactly when each verdict is given, in terms of heights, stored blocks, dummy blocks and the safeNode check; no other verdict is given |
| `Proposals.ShapeExactlyWhen` | crates/consensus/src/hotstuff/on_receive_local_proposal.rs:821-849 | exact condition for the shape agreement needs, on parent, justified block and timeout certificate |
| `Proposals.LockIsBelowHighCertificate` | crates/consensus/src/traits/block_store.rs:49-76 | in every run the lock is below the high certificate and not above the highest block seen |
| `Proposals.SkippedCheckIsSafeExactlyWhen` | crates/consensus/src/hotstuff/on_receive_local_proposal.rs:893-899 | exact condition for safety where the check is skipped |
| `Proposals.TimeoutProposalIsSafeExactlyWhen` | crates/consensus/src/hotstuff/on_receive_local_proposal.rs:854-891 | exact condition for safety and shape of proposals accepted on dummy blocks |
| `Proposals.PassingIsSoundExactlyWhen` | crates/consensus/src/hotstuff/on_receive_local_proposal.rs:741-902 | a proposal that passes validation is safe and has the shape exactly when its parent is stored and it is on its branch |
| `Proposals.ValidatedVotesAreSafe` | crates/consensus/src/hotstuff/on_ready_to_vote_on_local_block.rs:241-267 | in every run, votes for validated proposals are safe and for blocks of the right shape |
| `Proposals.CheckedCertificateCertifies` | crates/consensus/src/validations/common.rs:203-278 | a certificate that passes the check certifies its block |
| `Proposals.CertifiedBlockIsWellShaped` | crates/consensus/src/hotstuff/on_receive_local_proposal.rs:741-902 | every block that gets a certificate has the shape agreement needs |
| `Proposals.ValidatedSystemAgrees` | crates/consensus/src/hotstuff/on_receive_local_proposal.rs:338-410 | end to end: where blocks carry certificates that pass the check and valid signatures are made by voting only, validators that vote for validated proposals above their last vote sent never execute conflicting blocks and first execute blocks in one order |
| `Scenarios.LineSystemCommits` | crates/consensus/src/traits/block_store.rs:57-99 | the conditions are consistent: for every n, a committee of one that receives n blocks in a row meets them and executes all but the last three |
| `OpenConditions.UnrecordedVotesBreakTheRules` | crates/consensus/src/hotstuff/on_receive_local_proposal.rs:393-402 | two validated blocks of one height are both voted for past an evicted leader |
| `OpenConditions.AcceptedOffBranch` | crates/consensus/src/hotstuff/on_receive_local_proposal.rs:821-899 | three accepted proposals without the shape agreement needs: two are voted for, the one with a missing parent is rolled back |
| `OpenConditions.TimeoutWithoutDummiesIsValidated` | crates/consensus/src/hotstuff/worker.rs:811-861 | the proposal of a leader on the highest block seen with an older certificate meets the conditions |
| `OpenConditions.UncheckedProposalIsUnsafe` | crates/consensus/src/hotstuff/on_receive_local_proposal.rs:893-899 | before any certificate is seen, an accepted proposal that is voted for and not safe for the lock |
| `OpenConditions.StaleCertificateRepeatsExecution` | crates/consensus/src/traits/block_store.rs:79-99 | seven validated proposals, voted for by the rules, execute a block twice |
| `OpenConditions.AcceptedTimeoutIsUnsafe` | crates/consensus/src/hotstuff/on_receive_local_proposal.rs:854-891 | an accepted timeout proposal that is not safe for the lock and does not descend from the block it justifies |
| `ShardGroups.AllShardGroups` | crates/common_types/src/num_preshards.rs:44-63 | fails exactly for no committees or more committees than shards; otherwise lists the groups of the even split |
| `ShardGroups.GroupsSplitEvenly` | crates/common_types/src/num_preshards.rs:44-63 | groups are non-empty, contiguous from the first to the last shard, and differ in size by at most one, larger first |
| `ShardGroups.ShardHasOneGroup` | crates/common_types/src/num_preshards.rs:44-63 | every shard lies in exactly one group |
| `ShardGroups.WalkGroups` | crates/common_types/src/substate_address.rs:205-226 | the boundary walk ends at the group of the split that contains the shard |
| `ShardGroups.ToShardGroup` | crates/common_types/src/substate_address.rs:193-227 | the walk finds the group of the even split that contains the address's shard |
| `ShardGroups.RangeMembership` | crates/common_types/src/shard.rs:54-88 | exactly which addresses lie in the range of a shard; no address lies in two |
| `ShardGroups.WholeRange` | crates/common_types/src/shard.rs:54-88 | the global shard, and the only shard of a network of one, range over all addresses |
| `ShardGroups.ToShardAgreesWithRange` | crates/common_types/src/substate_address.rs:141-155 | the computed shard's range holds the address exactly under a condition on the division's quotient and remainder |
| `ShardGroups.BoundaryKeyIsMisplaced` | crates/common_types/src/shard.rs:54-88 | with four or more shards, an address computed into shard 3 that lies in the range of shard 2 |
| `Bech32m.PolymodStepLinear` | bindings/src/helpers/ootleAddress.ts:34-36 | the checksum step is linear over bitwise exclusive or (section "Bech32" of BIP-173) |
| `Bech32m.FeedInjective` | bindings/src/helpers/ootleAddress.ts:34-36 | feeding equal words keeps different registers different, at any length |
| `Bech32m.BurstChangesRegister` | bindings/src/helpers/ootleAddress.ts:34-36 | changing words within a stretch of at most six changes the final register, whatever surrounds them |
| `Bech32m.ChecksumCompletes` | bindings/src/helpers/ootleAddress.ts:112-113 | appending the checksum brings the register to the Bech32m constant |
| `Bech32m.ChecksumUnique` | bindings/src/helpers/ootleAddress.ts:112-113 | no other six words do |
| `Bech32m.DecodeEncode` | bindings/src/helpers/ootleAddress.ts:112-113 | decoding an encoded string returns prefix and words |
| `Bech32m.EncodeDecode` | bindings/src/helpers/ootleAddress.ts:34-35 | encoding what a string decodes to returns the string lower-cased |
| `Bech32m.DecodeExactlyWhen` | bindings/src/helpers/ootleAddress.ts:35 | a string decodes exactly when it is not of mixed case and, lower-cased, is the encoding of what it decodes to |
| `Bech32m.BurstIsRejected` | bindings/src/helpers/ootleAddress.ts:34-35 | a change within six consecutive data characters is rejected unless the separator moved |
| `KnownAnswers.VectorIsKnown` | bindings/src/helpers/ootleAddress.ts:35 | a valid string of BIP-350 with all 32 characters is what its prefix and words encode to, and decodes to them |
| `Regrouping.FromWordsToWords` | bindings/src/helpers/ootleAddress.ts:112 | regrouping bytes into words and back is the identity |
| `Regrouping.ToWordsFromWords` | bindings/src/helpers/ootleAddress.ts:36 | words accepted for regrouping into bytes are exactly the regrouping of those bytes |
| `Regrouping.ToWordsLength` | bindings/src/helpers/ootleAddress.ts:112 | the number of words is the number of bits divided by five, rounded up |
| `Regrouping.RegroupingKeepsBits` | bindings/src/helpers/ootleAddress.ts:112 | the i-th bit of the words is the i-th bit of the bytes, most significant first, and zero behind them |
| `OotleAddresses.Hex2Buf` | bindings/src/helpers/ootleAddress.ts:129-140 | the parsing loop returns the bytes of the digit pairs, or fails on odd length or a bad digit |
| `OotleAddresses.ParseBuf2Hex` | bindings/src/helpers/ootleAddress.ts:118-141 | printed bytes parse back |
| `OotleAddresses.Buf2HexParse` | bindings/src/helpers/ootleAddress.ts:118-141 | parsed text prints as itself lower-cased |
| `OotleAddresses.HexDigitsAre` | bindings/src/helpers/ootleAddress.ts:118-141 | the value of a hex digit is its place in the row of digits |
| `OotleAddresses.EncodeOotleAddress` | bindings/src/helpers/ootleAddress.ts:77-114 | the byte-filling method computes the specified encoding or error |
| `OotleAddresses.EncodedLayout` | bindings/src/helpers/ootleAddress.ts:106-113 | an encoded address carries 64 bytes: those of the account key's digit pairs, then those of the view key's |
| `OotleAddresses.EncodedBeginsWithNetwork` | bindings/src/helpers/ootleAddress.ts:16-23 | an encoded address begins with the text of its network and the separator |
| `OotleAddresses.DecodeEncoded` | bindings/src/helpers/ootleAddress.ts:34-114 | encoding succeeds exactly for a known network and two 64-digit keys, fits the limit of 118, and decodes to the input with keys lower-cased |
| `OotleAddresses.EncodedDecode` | bindings/src/helpers/ootleAddress.ts:34-114 | every accepted address, lower-cased, is the encoding of what it decodes to |
| `OotleAddresses.DecodeInjective` | bindings/src/helpers/ootleAddress.ts:34-75 | accepted addresses with one meaning differ only in case |
| `OotleAddresses.BurstErrorIsDetected` | bindings/src/helpers/ootleAddress.ts:34-75 | any change within six consecutive data characters of an accepted address, other than of case, is rejected |
| `OotleAddresses.SubstitutionIsDetected` | bindings/src/helpers/ootleAddress.ts:34-75 | one substituted data character is always rejected |
| `Supervisors.InvariantIsKept` | applications/tari_watcher/src/process.rs:91-153 | every step of every task keeps the supervisor's invariant |
| `Supervisors.AtMostOneActiveMonitor` | applications/tari_watcher/src/monitoring.rs:37-95 | at most one monitor is between its spawn and its end, in every interleaving |
| `Supervisors.StatusesAlternate` | applications/tari_watcher/src/monitoring.rs:37-95 | on each channel, statuses other than Submitted alternate Running and terminal; the alert channel is at most one message behind the log channel |
| `Supervisors.ChannelsReportTheRun` | applications/tari_watcher/src/monitoring.rs:37-95 | the log channel tells how each child ended, in order, and carries one Running per spawn, each less at most the last one not sent; submissions arrive unchanged and in order, and readers get what was sent in order |
| `Supervisors.RestartChannelDiscipline` | applications/tari_watcher/src/process.rs:91-153 | the restart channel never exceeds its capacity, a restart send never waits, and the loop never sees the channel end |
| `Supervisors.NoLostRestart` | applications/tari_watcher/src/process.rs:91-153 | while the loop waits, the last monitor is active, or its signal is in the channel, or it died on a dropped receiver |
| `Supervisors.SpawnsFollowSignals` | applications/tari_watcher/src/process.rs:91-153 | spawns exceed consumed signals by at most one; without auto-restart there is at most one spawn |
| `LayerOneQueues.LayerOneQueue.HandleEntry` | applications/tari_watcher/src/transaction_worker.rs:92-151 | whole new directories for one listed entry, for every I/O outcome |
| `LayerOneQueues.LayerOneQueue.CheckAndSubmit` | applications/tari_watcher/src/transaction_worker.rs:92-151 | whole new directories after one pass, which an I/O error ends early |
| `LayerOneQueues.LayerOneQueue.WorkerLoop` | applications/tari_watcher/src/transaction_worker.rs:27-52 | whole new directories after any number of rounds |
| `LayerOneQueues.PassSettlesListing` | applications/tari_watcher/src/transaction_worker.rs:92-151 | a pass succeeds exactly when no I/O error ends it; then every listed JSON file that opens has left the queue, is submitted once if it parses and is where the result calls for, and nothing else changed |
| `LayerOneQueues.LoopGoesOn` | applications/tari_watcher/src/transaction_worker.rs:27-52 | a round goes on from where the loop stands, and after an I/O error nothing happens any more |
| `LayerOneQueues.QueueGuarantee` | applications/tari_watcher/src/transaction_worker.rs:27-151 | over any run, no file is lost, changed or in two directories; none is submitted twice; a file is in `complete` only after a successful submission |
| `FanOut.TryMembers` | applications/tari_indexer/src/network_client.rs:171-188 | calls a prefix of the members up to the first success or the last member, and keeps result and last error |
| `FanOut.TryWithCommittee` | applications/tari_indexer/src/network_client.rs:124-199 | errors of the epoch lookups first; then for every callback: each group visited once; Ok exactly when a call succeeded, with the last reply of every group that has a member; each error case exactly |
| `FanOut.ProgressMeans` | applications/tari_indexer/src/network_client.rs:167-198 | results have an entry for exactly the groups with a member, and the success count is positive exactly when a visit succeeded |
| `FanOut.NoGroups` | applications/tari_indexer/src/network_client.rs:147-165 | there are no groups, hence the no-committee error, exactly when no address is given |
| `FanOut.ResultsCoverGroups` | applications/tari_indexer/src/network_client.rs:121-123 | the results cover all groups exactly when every group has a member |
| `FanOut.TrySingleWithCommittee` | applications/tari_indexer/src/network_client.rs:95-119 | with one address there is exactly one result, a success, so taking it never fails |
| `SubstateLocks.ResolveInputLocks` | applications/tari_app_utilities/src/transaction_executor.rs:45-82 | one lock per input in order, write exactly for inputs downed by an accepted execution |
| `SubstateLocks.IndependentChangesApart` | applications/tari_app_utilities/src/transaction_executor.rs:45-82 | compatible locks mean that neither transaction changes what the other reads or changes |
| `SubstateLocks.ExecutesAsAlone` | applications/tari_app_utilities/src/transaction_executor.rs:45-82 | whatever compatible transactions ran before, a transaction sees the same inputs and has the same outcome and locks |
| `SubstateLocks.OrderIsImmaterial` | applications/tari_app_utilities/src/transaction_executor.rs:45-82 | all orders of pairwise compatible transactions lead to the same store |
| `ComponentStore.ComponentManager.AddRootSubstate` | applications/tari_validator_node_cli/src/component_manager.rs:51-71 | appends one version to the component's record |
| `ComponentStore.ComponentManager.CommitDiff` | applications/tari_validator_node_cli/src/component_manager.rs:73-108 | saves the groups of the diff, and at an unexpected kind aborts with exactly the finished groups saved |
| `ComponentStore.GroupingAccounts` | applications/tari_validator_node_cli/src/component_manager.rs:73-108 | one record per component occurrence; with a component, child lists concatenate to all other entries in order |
| `ComponentStore.GroupingSplits` | applications/tari_validator_node_cli/src/component_manager.rs:80-102 | a further component starts a new group without touching earlier ones |
| `ComponentStore.SingleComponentTakesAll` | applications/tari_validator_node_cli/src/component_manager.rs:80-106 | a single component takes all entries, those before it included |
| `ComponentStore.SavedAppends` | applications/tari_validator_node_cli/src/component_manager.rs:51-71 | saving appends each component's versions in order and leaves the others alone |
| `ComponentStore.LatestIsLastInDiff` | applications/tari_validator_node_cli/src/component_manager.rs:147-155 | the latest version of a component is its last one in the diff |
| `Borsh.SerializeMap` | crates/common_types/src/borsh.rs:12-23 | the writing loop appends the specified encoding |
| `Borsh.MapLayout` | crates/common_types/src/borsh.rs:12-23 | eight bytes denote the number of entries, least significant first; then each entry at its place, key before value |
| `Borsh.MapDecodesUniquely` | crates/common_types/src/borsh.rs:12-23 | from the front of any byte stream, entries, order and rest are determined, for prefix-free keys and values |
| `Borsh.MapsArePrefixFree` | crates/common_types/src/borsh.rs:12-23 | map encodings are prefix-free again |
| `Borsh.BytesArePrefixFree` | crates/common_types/src/bytes.rs:114-118 | length-prefixed byte strings are prefix-free |
| `Borsh.BytesLayout` | crates/common_types/src/bytes.rs:114-118 | four bytes denote the length, then the bytes themselves |
| `Borsh.ByteMapInjective` | crates/common_types/src/borsh.rs:12-23 | maps between byte strings have an injective encoding |
| `Tables.Table.ColWidth` | applications/tari_wallet_cli/src/table.rs:79-94 | the fold computes the width of the widest cell |
| `Tables.Table.RenderRow` | applications/tari_wallet_cli/src/table.rs:114-129 | the loop writes the padded cells joined by the delimiter |
| `Tables.Table.RenderSeparator` | applications/tari_wallet_cli/src/table.rs:131-146 | the separator is a line of dashes laid out like a row |
| `Tables.Table.Render` | applications/tari_wallet_cli/src/table.rs:58-112 | the whole table as titles, separator, rows and row count |
| `Tables.Content.EveryRowFits` | applications/tari_wallet_cli/src/table.rs:79-120 | the padding arithmetic never underflows, however ragged the rows |
| `Tables.Content.LinesAlign` | applications/tari_wallet_cli/src/table.rs:114-146 | lines with as many cells have one length, and all lines have their delimiters at the same offsets |
| `Tables.Content.CellsAreLeftAligned` | applications/tari_wallet_cli/src/table.rs:114-129 | in every line the text of a column starts at the same place |
| `Tables.Content.LineParses` | applications/tari_wallet_cli/src/table.rs:114-129 | splitting a line at the delimiter and trimming returns the row |
| `Tables.Content.TableParses` | applications/tari_wallet_cli/src/table.rs:58-112 | every non-empty row is recovered from the rendered table |
| `Tables.Content.TableFrame` | applications/tari_wallet_cli/src/table.rs:58-146 | the titles are in the first line, dashes as wide as the columns in the second, and the number of rows in the last but one |
| `Permissions.ParsePrint` | clients/wallet_daemon_client/src/permissions.rs:37-94 | parsing undoes printing exactly for all permissions but `GetNft` with arguments |
| `Permissions.ParseExactlyWhen` | clients/wallet_daemon_client/src/permissions.rs:37-71 | exactly the texts that are a permission's name alone, or its name, an underscore and a readable argument, parse to it |
| `Permissions.PlainTexts` | clients/wallet_daemon_client/src/permissions.rs:74-94 | the texts of the permissions without argument |
| `Permissions.ArgumentTexts` | clients/wallet_daemon_client/src/permissions.rs:74-94 | the texts of the permissions with an argument |
| `Permissions.FromList` | clients/wallet_daemon_client/src/permissions.rs:127-137 | the insertion loop collects the parsed permissions or the first error |
| `Permissions.SetFormsAgree` | clients/wallet_daemon_client/src/permissions.rs:100-137 | the comma form and the list form agree in the set or in the first error, and succeed exactly when every text parses |
| `Permissions.SetRoundTrip` | clients/wallet_daemon_client/src/permissions.rs:37-137 | a comma-joined list of printed permissions parses to their set |
| `Validators.ValidateRunsStages` | applications/tari_validator_node/src/validator.rs:67-110 | however nested, a pipeline runs its flattened stages left to right up to the first failure |
| `Validators.ConsensusExtendsMempool` | applications/tari_validator_node/src/bootstrap.rs:489-496 | consensus accepts exactly what the mempool accepts and whose epoch range holds, and reports the leftmost error |

## Modelling notes

- Vote power is an unbounded natural number; sums of 64-bit powers are taken not to overflow.
- Block ids, node hashes and dummy block ids are collision-free; a signature is what a verifier function accepts.
- The tree of a run holds the blocks that validators stored. Every one of them carries a certificate that passes the check and
  justifies a stored, lower block, as validation demands. Parents are older than their children because ids are hashes.
- An update that misses a block is rolled back. The walks to the lock and to the last executed block look blocks up in the
  tree; events that fail there only because the validator's own store lacks a block change nothing and are left out of its
  run. The justified block and the parent are looked up among the blocks the validator stores, after orphans are removed.
- The high certificate is also raised when votes are collected
  (`crates/consensus/src/hotstuff/vote_collector/proposal_collector.rs:96`); the model raises it only when a proposal is
  processed. The real record is thus never lower than the modelled one, and it decides only about skipping the safeNode
  check: whatever the code accepts, the model accepts, so agreement covers it.
- The certificate of the zero block stands for the epoch's genesis block, as the code resolves it.
- The order of hash maps, the shuffle of committees, replies of callbacks and outcomes of file operations are arbitrary:
  nondeterministic choices or parameters.
- The Bech32m library is not part of the repository. It is modelled after the sections "Bech32" and "Segwit address format" of
  BIP-173 and the section "Bech32m" of BIP-350.
- Table cells are sequences of bytes, since the source measures widths in bytes.
- Context types of validators are variants of one type.

## Left out

- Liveness: pacemaker, leader election, timeout certificates and catch-up sync; the consensus results are safety results.
- Command evaluation inside blocks (its outcome is a parameter of every event), foreign proposals, evictions, epoch changes and state Merkle roots: agreement does not depend on them.
- `CommitteeInfo` queries, `shuffle` and random selection of members: random choices or easy lookups.
- Rejections of proposals for malformed fields (network, epoch hash, side-chain id, proposer, block signature, shard group): independent comparisons.
- The native `Uint8Array.fromHex` path of `hex2buf`: only the fallback loop is modelled.
- Case mapping of characters outside ASCII in Bech32m strings: lower-casing and upper-casing change ASCII letters only, so strings with the few other characters that map to ASCII letters are not captured.
- The watcher's registration retry, and what a child process does after `wait` failed.
- `MaxSizeBytes` constructors: length checks only. The model's byte strings have any length that fits the 32-bit prefix.
- Errors of the component store's file system.
- What a validator stores between events (block sync, cleanup): it is a parameter of every event. Orphans are removed while an event is processed.
- The engine, templates, wallets, RPC servers and clients, and all other I/O.
- CommittedLogs.LogsArePrefixes: holds for runs without lower heads, because the code overwrites the last-executed record; `CommittedLogs.LogStaysBranchExactlyWhen` is the exact condition and `CommittedLogs.FirstExecutionsArePrefixes` covers all runs.
- CommittedLogs.SystemRunsAgree: assumes that certified blocks have the shape and votes are safe, which `Proposals.ValidatedSystemAgrees` derives from validation.
- Proposals.ValidatedSystemAgrees: assumes `Proposals.OnItsBranch`, which says nothing about missing parents, and votes above the last vote sent; the code does not enforce these. Both conditions are exact, and `OpenConditions` gives inputs that are accepted and voted for and fail them.
