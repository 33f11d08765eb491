# PEMRIX verification model

A Dafny model of the four parts of the PEMRIX node that carry hard properties, and
proofs about them:

1. **BFT finality.** One engine (`Finality`, the class `Consensus.BftConsensus`,
   `EngineSafety`), then any number of engines over an asynchronous network with
   faulty validators (`Network`, `NetworkSafety`), what faulty proposers can do there
   (`Delivery`, `Disagreement`, `Forks`, `Heights`, `Lagging`, `Certificates`), on top
   of the weighted validator set (`Validators`, `Completers`) and its selection
   (`ActiveSet`).
   `EngineLedger` joins this part with the next.
2. **Ledger and staking.** The state store over raw bytes (`Storage`), the executors
   as they update it (`Executors`), the same semantics as functions on three typed
   tables (`LedgerModel`), whom they admit (`Admission`) and what they keep
   (`Conservation`, `Replay`, `Mirror`).
3. **Issuance** (`Issuance`): the interval-skipping cumulative sum and its bounds.
4. **Connections and frames** (`Connections`, `Frames`).

`Primitives`, `Ordering` and `Sums` are shared vocabulary. Code that updates state in
place is a class or method proved equal to a function on values; the theorems are
about those functions, over every input, every list of transactions or calls, or
every run of the step relation.

Modelling choices:

- Hashes are symbolic (`Finality.Hash`): each constructor is the digest of its
  argument, so different headers have different hashes. A block's hash covers its
  header only (crates/pemrix-primitives/src/block.rs:40-43).
- Signature checks, address derivation and payload parsing are the function fields of
  an `Env`, encodings those of a `Codec`; theorems quantify over all of them and ask
  of a codec only that decoding undoes encoding.
- Message origins are authentic: nobody sends a block or vote in an honest
  validator's name. Messages may be lost, repeated, delayed and reordered. Block
  timestamps are arbitrary.
- Unchecked additions on `u128` and on the account nonce wrap, as in the release
  profile (Cargo.toml:68-71); `saturating_*` and `checked_*` are written out.
- The staking minima are those the executor compares with
  (crates/pemrix-vm/src/staking.rs:9-12), not the larger ones of
  crates/pemrix-protocol/src/lib.rs:40-47.

Where the code does not meet what is expected of it, the model follows the code and
proves exactly when it does:

- *Agreement.* docs/VALIDATORS.md:236 says no single validator can change the ledger.
  Over all runs two honest nodes hold the same block at a height if and only if its
  proposer is honest (`Heights.AgreementAtEveryHeight`): `handle_block` does not compare
  the body with the header.
- *Hashes.* Even the hashes can differ, because voters recorded for a replaced block
  still count. `Forks.NoForkExactly` has the exact condition at an open height, for
  validators of any power; `Lagging.NoForkAtEveryHeight` has it over all runs, where
  from height 2 on only an honest proposer helps. Certificates of cast votes are unique
  all the same (`NetworkSafety.CertificatesAreUnique`), but under a faulty proposer a
  block need not have one to be finalized (`Certificates.CertifiedAtEveryHeight`).
- *Chain links.* `previous_hash` of a received block is never checked;
  `Lagging.LinkAtEveryHeight` says over all runs exactly when the link holds.
- *Conservation* fails exactly when an addition leaves the `u128` range
  (`Conservation.ExecuteConservesExactly`), which no supply within that range allows.
- *Cumulative issuance* equals the naive sum exactly under the condition of
  `Issuance.FastEqualsNaiveExactly`. The "asymptotic maximum" of
  crates/pemrix-primitives/src/tokenomics.rs:115-118 leaves the interval out;
  `Issuance.EverPassesExactly` says which configurations pass it at a height the code
  accepts, and mainnet does at block 11 (`Issuance.MainnetPassesMaximum`).
- *Replay protection* holds for exactly 2^64 charges of a sender
  (`Replay.ChargedNoncesDistinctExactly`); after that the counter has come round
  (`Replay.FirstChargedAgain`).
- *Executors* accept alike except exactly the no-op transfers from missing accounts
  (`Mirror.ExecutorsAcceptAlike`); the RPC mirror follows consensus exactly when each
  transaction `Tracks` (`Mirror.MirrorTracksConsensus`).
- *One socket per pair of peers* is guaranteed when the higher id dials once
  (`Connections.BothEndsConverge`), not when it dials again after its first handler
  exited (`Connections.RedialSplits`); `Connections.EndsAgreeExactly` has the condition,
  and `Connections.GuardedEndsAgreeExactly` what becomes of it under the dial guard.

## Model

| member | source | states |
|---|---|---|
| `NetworkSafety.ReachableInv` | node/pemrix-node/src/node.rs:274-421 | in every run of any number of nodes: each engine is safe, a node proposes a height once and only right below it, every message in an honest name is the one its sender holds, finalized rounds hold quorum power |
| `NetworkSafety.Agreement` | crates/pemrix-consensus/src/bft.rs:138-166 | in every run two honest nodes that finalized a height with an honest proposer hold the same block there |
| `NetworkSafety.LinksBelow` | crates/pemrix-consensus/src/bft.rs:198-233 | a finalized block links to the block the same node finalized below it when both heights have honest proposers |
| `NetworkSafety.ChainIntegrity` | crates/pemrix-consensus/src/bft.rs:357-377 | with honest proposers each node's finalized blocks are hash-linked down to the genesis hash |
| `NetworkSafety.FinalityIsCertified` | crates/pemrix-consensus/src/bft.rs:336-377 | a block finalized under an honest proposer has recorded votes of quorum power, each authentic and for that very block |
| `NetworkSafety.MachineDecidesAlike` | crates/pemrix-consensus/src/bft.rs:336-354 | in every run the engines' exact quorum test is the 64-bit one of the code, as long as twice the configured power fits in 64 bits |
| `NetworkSafety.HonestVotesOnce` | crates/pemrix-consensus/src/bft.rs:152-165 | over every run an honest validator casts at most one vote per height, the guard's cleanup included |
| `NetworkSafety.RecordedVotersAreValidators` | crates/pemrix-consensus/src/bft.rs:309-333 | in every run recorded voters are members of the configured set |
| `NetworkSafety.OwnVoteIsTheOnlyOne` | crates/pemrix-consensus/src/bft.rs:169-175 | what `own_vote` hands out for broadcast is the node's vote for that height in its own name, and no other of its votes for it is ever sent |
| `NetworkSafety.OwnProposalIsTheOnlyOne` | crates/pemrix-consensus/src/bft.rs:178-180 | what `own_proposal` hands out at the node's own height is its one block there, in its name and linked to its chain, and no other is ever sent |
| `NetworkSafety.CertificatesAreUnique` | crates/pemrix-consensus/src/validator_set.rs:74-77 | with faulty power below one third, no two hashes at one height both gather a quorum of cast votes, even from equivocating proposers and voters |
| `Disagreement.FaultyProposerSplits` | crates/pemrix-consensus/src/bft.rs:138-150 | from any state where a height lies open, a faulty proposer of it can make two honest nodes finalize different blocks |
| `Disagreement.AgreementExactlyWhenProposerHonest` | crates/pemrix-consensus/src/bft.rs:138-166 | every continuation of every such reachable state keeps two nodes in agreement at the height if and only if its proposer is honest |
| `Disagreement.FaultyProposerBreaksLink` | crates/pemrix-consensus/src/bft.rs:290-306 | `previous_hash` of a received block is not checked: from any state where a height lies open its faulty proposer can break the chain of a node |
| `Forks.NoForkExactly` | crates/pemrix-consensus/src/bft.rs:336-354 | for validators of any power, every continuation of every reachable state where a height lies open has two honest nodes finalize one hash if and only if its proposer is honest or some honest validator arbitrates between them: no quorum without it, and a quorum of it and either node (or there is no power at all) |
| `Forks.FaultyProposerForks` | crates/pemrix-consensus/src/bft.rs:138-150 | otherwise the faulty proposer can make the two nodes finalize different hashes, because voters recorded for a replaced block still count |
| `Forks.OneCompleterOneHash` | crates/pemrix-consensus/src/bft.rs:443-476 | a node that saw the height from right below finalizes the block the quorum-completing vote was for; so with a sole honest completer the hashes agree |
| `Forks.OneCompleterExactly` | crates/pemrix-consensus/src/bft.rs:336-354 | one honest validator completes every quorum at both nodes exactly if it arbitrates between them |
| `Completers.DominantIsArbiter` | crates/pemrix-consensus/src/validator_set.rs:74-77 | in particular an honest validator that is a quorum by itself arbitrates between any two nodes |
| `Forks.PivotalProposerForks` | crates/pemrix-consensus/src/bft.rs:336-354 | in particular a faulty proposer whose vote completes some coalition forks |
| `Forks.NoForkAmongEquals` | crates/pemrix-consensus/src/bft.rs:336-354 | among validators of equal power, however few are faulty, the exact condition is an honest proposer alone |
| `Heights.ReachLevel` | node/pemrix-node/src/node.rs:274-421 | whatever the configuration, some run brings all honest nodes to any given height together, with nothing seen above it |
| `Heights.AgreementAtEveryHeight` | crates/pemrix-consensus/src/bft.rs:138-166 | over all runs and at every height two honest nodes hold the same block if and only if the proposer is honest |
| `Lagging.NoForkAtEveryHeight` | crates/pemrix-consensus/src/bft.rs:116-132 | over all runs and at every height two honest nodes finalize one hash if and only if the proposer is honest or, at height 1 only, an honest validator arbitrates between them: from height 2 on a lagging node can be made to finalize a replaced block |
| `Lagging.ArbiterPreventsFork` | crates/pemrix-consensus/src/bft.rs:336-354 | the arbiter is no idle case: a concrete set with a faulty proposer in which no run forks the two nodes at height 1 |
| `Lagging.OneFaultyProposerForks` | crates/pemrix-consensus/src/bft.rs:336-354 | among four or more validators of equal power the proposer of any height, faulty alone and so below one third, can make any two others finalize different hashes there |
| `Lagging.LinkAtEveryHeight` | crates/pemrix-consensus/src/bft.rs:198-233 | over all runs and at every height a node's chain is linked if and only if the proposer is honest and is the node itself or shares the block below: honest proposer below, height 1, or height 2 with an arbiter between them |
| `Certificates.CertifiedAtEveryHeight` | crates/pemrix-consensus/src/bft.rs:336-377 | over all runs and at every height what a node finalizes is backed by a quorum of votes for that hash if and only if the proposer is honest or, at height 1 only, some validator is a quorum by itself |
| `Certificates.LagUncertified` | crates/pemrix-consensus/src/bft.rs:116-132 | from height 2 on a faulty proposer can make any node finalize a block nobody voted for |
| `Network.RunAppend` | node/pemrix-node/src/node.rs:274-421 | runs of the step relation compose |
| `EngineSafety.EngineStaysSafe` | crates/pemrix-consensus/src/bft.rs:382-476 | over every list of calls with arbitrary blocks and votes, proposals above the current height: `finalized` covers exactly 1..=height with the stored blocks, the tip is the last finalized hash, finalized flags match the height, the guard holds exactly the open rounds, and nothing finalized ever changes |
| `EngineSafety.ProposeSafeExactly` | crates/pemrix-consensus/src/bft.rs:382-420 | proposing keeps the engine safe exactly when above the current height or refused |
| `EngineSafety.HandleBlockSafe` | crates/pemrix-consensus/src/bft.rs:138-166 | handling a block keeps the engine safe and yields a vote exactly for a valid proposal at a height not yet voted on |
| `EngineSafety.HandleBlockExactly` | crates/pemrix-consensus/src/bft.rs:138-166 | which blocks are refused, voted for or only stored, with every field of the new state and of the vote |
| `EngineSafety.HandleKnownHeight` | crates/pemrix-consensus/src/bft.rs:138-166 | a block for a height already voted on gets no vote and replaces nothing but the stored block and proposal |
| `EngineSafety.HandleVoteSafe` | crates/pemrix-consensus/src/bft.rs:443-452 | any vote keeps the engine safe and its chain unchanged |
| `EngineSafety.HandleVoteExactly` | crates/pemrix-consensus/src/bft.rs:309-333 | a vote is accepted exactly for an open height, from a member of the set, for the block held there; it becomes the voter's, and any other vote changes nothing |
| `EngineSafety.FinalizePendingReachesFixpoint` | crates/pemrix-consensus/src/bft.rs:116-132 | one pass finalizes exactly the maximal consecutive run of ready heights, returns the block of the highest or nothing, changes nothing else and leaves no ready next height |
| `EngineSafety.FinalizeEffect` | crates/pemrix-consensus/src/bft.rs:454-476 | finalizing by the hash of a stored round takes effect exactly when that round is the next height and has a quorum |
| `EngineSafety.FinalizeSafe` | crates/pemrix-consensus/src/bft.rs:454-476 | `finalize` with any hash keeps the engine safe and moves the height by at most one |
| `EngineSafety.AdvancedUnique` | crates/pemrix-consensus/src/bft.rs:357-377 | the relation used to describe a finalized run fixes every field of the resulting engine |
| `EngineSafety.BuildBlockEffect` | crates/pemrix-consensus/src/bft.rs:198-233 | a built block names the node, extends its tip and commits to its transactions and the ledger they lead to; chain and rounds stay as they are |
| `EngineLedger.BuildSelectsExactly` | crates/pemrix-consensus/src/bft.rs:204-213 | a built block selects the validator set anew from the executed ledger exactly when some record there is Active with enough stake; on an error, or without one, the set stays |
| `EngineLedger.ProposeExactly` | crates/pemrix-consensus/src/bft.rs:382-420 | proposing is refused exactly out of turn; in turn it builds, and a built block is stored with its proposal and the node's own vote, nothing else changing |
| `EngineLedger.BuildExecutesPrefix` | crates/pemrix-consensus/src/bft.rs:198-208 | building executes all transactions, or those up to and including the first that returns an error, and what it executed stays |
| `EngineLedger.EngineLedgerSound` | crates/pemrix-consensus/src/bft.rs:198-287 | over every list of calls the engine's ledger results from some list of transactions, conserves supply and consistency, and the validator set is the configured one or one with exact quorum arithmetic |
| `EngineLedger.GenesisSound` | node/pemrix-node/src/genesis.rs:73-79 | a new engine over genesis accounts within the maximum supply meets what that theorem asks for |
| `Consensus.BftConsensus.constructor` | crates/pemrix-consensus/src/bft.rs:77-97 | a new engine is the initial state |
| `Consensus.BftConsensus.HandleBlock` | crates/pemrix-consensus/src/bft.rs:138-166 | the update in place is `Finality.HandleBlock` on the whole state |
| `Consensus.BftConsensus.HandleVote` | crates/pemrix-consensus/src/bft.rs:443-452 | the update in place is `Finality.HandleVote` on the whole state |
| `Consensus.BftConsensus.BuildBlock` | crates/pemrix-consensus/src/bft.rs:198-233 | the transaction loop with its early exit, the set update and the header are `Finality.BuildBlock` |
| `Consensus.BftConsensus.Propose` | crates/pemrix-consensus/src/bft.rs:382-420 | the update in place is `Finality.Propose` on the whole state |
| `Consensus.BftConsensus.TryFinalize` | crates/pemrix-consensus/src/bft.rs:357-377 | the update in place is `Finality.TryFinalize` on the whole state |
| `Consensus.BftConsensus.Finalize` | crates/pemrix-consensus/src/bft.rs:454-476 | the update in place is `Finality.Finalize` on the whole state |
| `Consensus.BftConsensus.FinalizePending` | crates/pemrix-consensus/src/bft.rs:116-132 | the loop over candidate heights is `Finality.FinalizePending`, to which the fixpoint theorem applies |
| `Validators.ProposerIsValidator` | crates/pemrix-consensus/src/validator_set.rs:100-107 | a non-empty set always has a proposer, and it is a member |
| `Validators.ProposerRank` | crates/pemrix-consensus/src/validator_set.rs:100-107 | for every height and round the proposer is the validator with (height + round) mod n others before it in address order |
| `Validators.ProposerTurn` | crates/pemrix-consensus/src/validator_set.rs:100-107 | within any n consecutive heights every one of the n validators is proposer |
| `Validators.ProposerTurnUnique` | crates/pemrix-consensus/src/validator_set.rs:100-107 | and only once |
| `Validators.TallyOfSet` | crates/pemrix-consensus/src/bft.rs:336-354 | the vote count of `has_quorum` is the summed power of the distinct recorded voters that are validators |
| `Validators.QuorumExactWhenFits` | crates/pemrix-consensus/src/bft.rs:336-354 | the 64-bit sum and comparison of `has_quorum` are exact for every set of voters when twice the total power fits in 64 bits |
| `Validators.WrappedThreshold` | crates/pemrix-consensus/src/validator_set.rs:68-77 | out of that range they mean nothing: at a total of 2^63 any one validator with power is a quorum |
| `Validators.QuorumsIntersect` | crates/pemrix-consensus/src/validator_set.rs:74-77 | two quorums share a validator outside any coalition below one third of the power |
| `Validators.ThresholdIsLeast` | crates/pemrix-consensus/src/validator_set.rs:74-77 | the threshold is the least integer strictly above two thirds of the total |
| `Validators.ThresholdExactIffFits` | crates/pemrix-consensus/src/validator_set.rs:68-77 | the 64-bit computation equals it exactly when twice the total fits in 64 bits |
| `ActiveSet.SelectedAreEligible` | crates/pemrix-consensus/src/bft.rs:252-277 | at most 100 selected, each an Active record with at least 100 000 PMX of stake, with that stake (capped at 64 bits) as its power |
| `ActiveSet.ExcludedAreOutranked` | crates/pemrix-consensus/src/bft.rs:264-272 | an Active record with at least 100 000 PMX is left out only when 100 others are in, each with more stake, or as much and a smaller address |
| `ActiveSet.SelectionIgnoresOrder` | crates/pemrix-consensus/src/bft.rs:264-277 | the selected set is the same for every ordering of the records |
| `ActiveSet.UpdateSelectsExactly` | crates/pemrix-consensus/src/bft.rs:279-286 | the update takes the selection exactly when some record is Active with enough stake and otherwise keeps the set, so it never empties a set that has members |
| `ActiveSet.QuorumArithmeticExact` | crates/pemrix-consensus/src/bft.rs:252-277 | on a ledger within the maximum supply no clamp fires, powers are the stakes, and the threshold is exact |
| `ActiveSet.QuorumExactOnReachableLedgers` | crates/pemrix-protocol/src/lib.rs:22-34 | from a genesis within the maximum supply this holds after every list of transactions |
| `Conservation.ExecuteConservesExactly` | crates/pemrix-vm/src/block_executor.rs:52-131 | one transaction, whatever it returns, conserves balances + self-stakes + delegated stakes + burned fee exactly when none of its additions overflows |
| `Conservation.NoOverflowWithinRange` | crates/pemrix-vm/src/block_executor.rs:52-131 | no addition can overflow while the supply fits in 128 bits |
| `Conservation.SupplyConserved` | crates/pemrix-vm/src/block_executor.rs:52-131 | over every list of transactions supply plus burned fees never changes and delegations stay consistent with the validator records |
| `Conservation.GenesisConsistent` | node/pemrix-node/src/genesis.rs:73-79 | a ledger of funded accounts only is consistent, and its supply is the sum of the balances |
| `Conservation.StakeEffect` | crates/pemrix-vm/src/staking.rs:84-267 | every staking operation conserves supply exactly when it does not overflow, and then keeps each delegated stake equal to the sum of its positive delegations |
| `Conservation.UndelegateIsExact` | crates/pemrix-vm/src/staking.rs:188-237 | on a consistent ledger undelegating succeeds exactly up to the stored delegation and the saturating subtraction never saturates |
| `Conservation.WithdrawAllPaysInFull` | crates/pemrix-vm/src/staking.rs:188-237 | withdrawing every delegation, in any order, always succeeds, pays each delegator in full and leaves no delegated stake |
| `Conservation.CreditOverflowLosesValue` | crates/pemrix-storage/src/state.rs:82-94 | a transfer whose credit overflows returns an error after the debit and the amount is gone |
| `Admission.RefusedForSignatureExactly` | crates/pemrix-vm/src/block_executor.rs:27-48 | both executors refuse a transaction for its signature, changing nothing, exactly for a wrong key or signature length, a key that does not hash to the sender, or a signature that does not verify |
| `Admission.UnsignedLosesNothing` | crates/pemrix-vm/src/block_executor.rs:52-131 | over every list an address that signed none of the transactions loses no balance, stake, delegation or nonce |
| `Admission.ChargedExactly` | crates/pemrix-vm/src/block_executor.rs:57-90 | the nonce is checked first and then the fee, and what passes moves the nonce whatever happens next |
| `Admission.OutcomesExactly` | crates/pemrix-vm/src/block_executor.rs:92-131 | what a charged transaction answers, by the first byte of its payload: transfer, staking operation or refusal, with every error and message |
| `Admission.NativeOutcomesExactly` | crates/pemrix-vm/src/native.rs:44-91 | every answer of the simple executor in the order of its checks, and the accounts it leaves, an overflowing credit included |
| `Admission.PayloadRoundTrip` | crates/pemrix-vm/src/staking.rs:70-82 | decoding undoes encoding |
| `Admission.DecodesExactly` | crates/pemrix-vm/src/staking.rs:77-82 | payloads that decode are exactly byte one followed by a body that parses |
| `Admission.RegisterExactly` | crates/pemrix-vm/src/staking.rs:84-132 | when registering succeeds, which error it otherwise returns, and every field of the record it stores |
| `Admission.DelegateExactly` | crates/pemrix-vm/src/staking.rs:134-186 | when delegating succeeds, which error it otherwise returns, and that it changes no field but the delegated stake |
| `Admission.UndelegateExactly` | crates/pemrix-vm/src/staking.rs:188-237 | the same of undelegating, which is allowed whatever the validator's status |
| `Replay.ExecuteNonce` | crates/pemrix-vm/src/block_executor.rs:57-90 | only a charged transaction moves a nonce, only its sender's and by one; an uncharged one changes nothing |
| `Replay.ChargedNoncesConsecutive` | crates/pemrix-vm/src/block_executor.rs:57-90 | over any list the nonces charged to a sender are consecutive from its starting nonce modulo 2^64, and the final nonce counts them |
| `Replay.ChargedNoncesDistinctExactly` | crates/pemrix-vm/src/block_executor.rs:57-90 | they are pairwise distinct if and only if there are at most 2^64 of them |
| `Replay.ChargedAtMostOnceExactly` | crates/pemrix-vm/src/block_executor.rs:57-90 | two charges in any list share sender and nonce if and only if a whole multiple of 2^64 of that sender's charges lies between them |
| `Replay.ReplayIsRejectedExactly` | crates/pemrix-vm/src/block_executor.rs:57-90 | re-executing a charged transaction at any later time is refused for its nonce and leaves the whole ledger unchanged, exactly unless its sender has since been charged a multiple of 2^64 times |
| `Replay.FirstChargedAgain` | crates/pemrix-vm/src/block_executor.rs:86-90 | the failing list: after 2^64 free transactions, each with its own valid signature, the first of them is charged a second time |
| `Replay.SecondChargeHappens` | crates/pemrix-vm/src/block_executor.rs:86-90 | the same under a concrete signature check that lets no signature serve two nonces, so the case is not empty |
| `Mirror.ExecutorsAcceptAlike` | crates/pemrix-vm/src/native.rs:44-91 | on empty payloads both executors accept the same transactions except exactly the no-op transfers from missing accounts |
| `Mirror.ExecutorsAgree` | crates/pemrix-vm/src/native.rs:44-91 | when both accept, every address has the same balance and nonce afterwards |
| `Mirror.ExecuteTransferEffect` | crates/pemrix-vm/src/block_executor.rs:59-121 | a charged transfer takes the fee, and if funded moves the amount from sender to recipient, and touches no other balance |
| `Mirror.RpcAccounts.IngestBlock` | node/pemrix-node/src/testnet.rs:370-403 | the replay loop applies `MirrorTx` to each transaction in order |
| `Mirror.MirrorStep` | node/pemrix-node/src/services.rs:205-241 | one empty-payload transaction keeps the mirror equal to consensus exactly when it tracks, at the last nonce included, where the mirror's counter saturates and the executor's wraps |
| `Mirror.MirrorTracksConsensus` | node/pemrix-node/src/testnet.rs:370-403 | replaying any list keeps the accounts equal throughout exactly when all transactions track, and then the final accounts agree |
| `Mirror.FundedOrStaleTracks` | node/pemrix-node/src/testnet.rs:374-392 | stale-nonce repeats always track, and so do verified, funded transactions below the last nonce |
| `Executors.StakingExecutor.Register` | crates/pemrix-vm/src/staking.rs:84-132 | the steps on the store are `LedgerModel.Register` on the tables, errors included |
| `Executors.StakingExecutor.Delegate` | crates/pemrix-vm/src/staking.rs:134-186 | the steps on the store are `LedgerModel.DelegateTo` on the tables |
| `Executors.StakingExecutor.Undelegate` | crates/pemrix-vm/src/staking.rs:188-237 | the steps on the store are `LedgerModel.UndelegateFrom` on the tables |
| `Executors.StakingExecutor.Execute` | crates/pemrix-vm/src/staking.rs:241-267 | decoding and dispatch are `LedgerModel.Stake`, or an error with the tables unchanged |
| `Executors.BlockExecutor.Execute` | crates/pemrix-vm/src/block_executor.rs:52-131 | fee, nonce, dispatch and transfer on the store are `LedgerModel.Execute` on the tables |
| `Executors.NativeExecutor.Execute` | crates/pemrix-vm/src/native.rs:44-91 | the checks and the store transfer are `LedgerModel.ExecuteNative` on the tables |
| `Storage.KeysAreDistinct` | crates/pemrix-storage/src/state.rs:187-198 | the key builders are injective and their images are disjoint |
| `Storage.KeyLayout` | crates/pemrix-storage/src/state.rs:187-198 | the prefix letters and the position of every address byte, delegator before validator |
| `Storage.ScanIsFilter` | crates/pemrix-storage/src/backend.rs:79-88 | range plus take-while over sorted keys finds exactly the keys with the prefix, in order |
| `Storage.PutValidatorRefines` | crates/pemrix-storage/src/state.rs:112-119 | writing under a validator key changes exactly that entry of the typed tables |
| `Storage.PutDelegationRefines` | crates/pemrix-storage/src/state.rs:141-150 | writing under a delegation key changes exactly that entry |
| `Storage.DropDelegationRefines` | crates/pemrix-storage/src/state.rs:153-160 | deleting a delegation key removes exactly that entry |
| `Storage.ScanListsValidators` | crates/pemrix-storage/src/state.rs:163-180 | the scan visits each stored validator exactly once, in address order |
| `Storage.SnapshotsAgreeExactly` | crates/pemrix-storage/src/backend.rs:90-105 | two stores have equal state-root snapshots if and only if all three tables are equal |
| `Storage.StateStore.constructor` | crates/pemrix-storage/src/state.rs:13-24 | a new store represents empty tables |
| `Storage.StateStore.SetAccount` | crates/pemrix-storage/src/state.rs:41-44 | changes exactly one account |
| `Storage.StateStore.ValidatorRecordOf` | crates/pemrix-storage/src/state.rs:97-110 | returns the table's record, or none |
| `Storage.StateStore.SetValidatorRecord` | crates/pemrix-storage/src/state.rs:112-119 | changes exactly one record |
| `Storage.StateStore.DelegationBetween` | crates/pemrix-storage/src/state.rs:122-139 | returns the table's delegation, or none |
| `Storage.StateStore.SetDelegation` | crates/pemrix-storage/src/state.rs:141-150 | changes exactly one delegation |
| `Storage.StateStore.DeleteDelegation` | crates/pemrix-storage/src/state.rs:153-160 | removes exactly one delegation |
| `Storage.StateStore.TransferAmountOnly` | crates/pemrix-storage/src/state.rs:82-94 | credits the recipient, or reports an overflow and changes nothing |
| `Storage.StateStore.Transfer` | crates/pemrix-storage/src/state.rs:56-79 | each error case and what it leaves behind, and the debit-then-credit of the good case |
| `Storage.StateStore.ValidatorRecords` | crates/pemrix-storage/src/state.rs:163-180 | returns the validator table as a list, each record once, in address order |
| `Storage.StateStore.BuildSnapshot` | crates/pemrix-storage/src/backend.rs:90-103 | the two loops build the snapshot that is equal exactly for equal tables |
| `Issuance.BlockReward` | crates/pemrix-primitives/src/tokenomics.rs:65-81 | the loop returns the reward of the height's decay step |
| `Issuance.TotalIssuedByHeight` | crates/pemrix-primitives/src/tokenomics.rs:84-113 | the loop returns the saturated exact interval sum, for every height and runnable configuration |
| `Issuance.FastEqualsNaiveExactly` | crates/pemrix-primitives/src/tokenomics.rs:65-113 | the fast total equals the saturated sum of all block rewards if and only if the two loops agree at the minimum, the height is in the first interval, or the total is saturated |
| `Issuance.DecayingIsAligned` | crates/pemrix-primitives/src/tokenomics.rs:65-113 | every configuration that decays and starts at or above its minimum meets that condition |
| `Issuance.IssuanceBound` | crates/pemrix-primitives/src/tokenomics.rs:84-113 | total * (d - n) <= interval * initial * d + height * minimum * (d - n) at every height |
| `Issuance.RewardNonIncreasing` | crates/pemrix-primitives/src/tokenomics.rs:65-81 | from block 1 the reward never rises and stays between minimum and initial |
| `Issuance.AdvertisedInFull` | crates/pemrix-primitives/src/tokenomics.rs:119-135 | the advertised maximum in numbers: unbounded without decay, otherwise the saturated series |
| `Issuance.RewardOneIntervalOn` | crates/pemrix-primitives/src/tokenomics.rs:65-81 | the initial reward through the first interval, and one interval on the reward times numerator divided by denominator, or the minimum from the first time that is not above it |
| `Issuance.MainnetRewards` | crates/pemrix-primitives/src/tokenomics.rs:31-43 | the mainnet rewards of the first two intervals, its floor and its initial supply in numbers |
| `Issuance.FirstIntervalPassesMaximum` | crates/pemrix-primitives/src/tokenomics.rs:119-135 | exactly when a height of the first interval has issued more than the advertised maximum |
| `Issuance.EverPassesExactly` | crates/pemrix-primitives/src/tokenomics.rs:115-135 | some height the code accepts passes the advertised maximum if and only if more than it leaves has been issued by the last one |
| `Issuance.PositiveMinimumPasses` | crates/pemrix-primitives/src/tokenomics.rs:119-135 | with a positive minimum and initial reward every accepted height above what the maximum leaves to issue passes it |
| `Issuance.SchedulePassesExactly` | crates/pemrix-primitives/src/tokenomics.rs:115-135 | about the schedule itself, were heights unbounded: it passes exactly with a positive minimum and initial reward, or without a minimum if the rewards over whole intervals add up to more than the maximum leaves |
| `Issuance.LastHeightFallsShort` | crates/pemrix-primitives/src/tokenomics.rs:84-113 | the two differ: a schedule that passes its maximum only at the height after the last accepted one |
| `Issuance.UnitIntervalNeverPasses` | crates/pemrix-primitives/src/tokenomics.rs:119-135 | with an interval of one block and no minimum the maximum is right: no height passes it |
| `Issuance.MainnetPassesMaximum` | crates/pemrix-primitives/src/tokenomics.rs:115-135 | the mainnet configuration reaches its advertised maximum at block 10 and passes it at block 11 |
| `Connections.BothEndsDecideAlike` | crates/pemrix-network/src/tcp.rs:282-291 | both ends of a socket decide the tie alike: won exactly by the sockets the higher id dialed |
| `Connections.ExactlyOneDirectionWins` | crates/pemrix-network/src/tcp.rs:287-291 | of two crossing dials between distinct peers exactly one wins |
| `Connections.WinsByFirstDifference` | crates/pemrix-network/src/tcp.rs:287-291 | a socket wins exactly when its dialer's id has the larger byte where the two ids first differ |
| `Connections.HolderAfter` | crates/pemrix-network/src/tcp.rs:293-336 | who holds each slot after any registration or exit; an empty slot takes any identified socket |
| `Connections.PeerTable.Register` | crates/pemrix-network/src/tcp.rs:256-308 | the id check, the tie-break and the slot claimed; every other slot unchanged |
| `Connections.PeerTable.Unregister` | crates/pemrix-network/src/tcp.rs:325-333 | clears the handler's own slot and no other |
| `Connections.SlotBelongsToLiveHandler` | crates/pemrix-network/src/tcp.rs:287-336 | in every interleaving a slot belongs to a handler that registered for that peer and has not exited |
| `Connections.ExitRemovesOnlyOwnSlot` | crates/pemrix-network/src/tcp.rs:325-336 | after an exit every slot is as before except the exiting handler's own |
| `Connections.WinnerKeepsSlot` | crates/pemrix-network/src/tcp.rs:293-308 | a slot held by a socket of the higher id changes only by that handler's exit or another such socket |
| `Connections.LastWinnerHolds` | crates/pemrix-network/src/tcp.rs:293-308 | the last winning socket that registered holds the slot for as long as it is up |
| `Connections.EndsAgreeExactly` | crates/pemrix-network/src/tcp.rs:269-308 | while the last winners are up, both ends finish on one socket exactly when the same one registered last at both |
| `Connections.BothEndsConverge` | crates/pemrix-network/src/tcp.rs:269-308 | if the higher id's only socket registers at both ends and stays up, both ends finish on it, whatever else happens |
| `Connections.GuardedEndsAgreeExactly` | crates/pemrix-network/src/tcp.rs:100-146 | with one dial per peer under way at a time, the ends finish on one socket exactly when the socket the lower id registered last is still up at its dialer |
| `Connections.RedialSplits` | crates/pemrix-network/src/tcp.rs:100-146 | the dial guard does not rule out a split: a redial after the first handler exited, with a slow accept handler at the lower id |
| `Frames.Writer.WriteMessage` | crates/pemrix-network/src/tcp.rs:177-192 | appends one frame to the stream |
| `Frames.Writer.WriteAll` | crates/pemrix-network/src/tcp.rs:313-322 | the queue leaves as the concatenation of its frames, in order |
| `Frames.ReadMessages` | crates/pemrix-network/src/tcp.rs:342-369 | the loop emits `Parse` of the stream and returns the error that ends it |
| `Frames.HeaderRoundTrip` | crates/pemrix-network/src/tcp.rs:182-184 | the four header bytes decode to the encoded length |
| `Frames.HeaderIsBigEndian` | crates/pemrix-network/src/tcp.rs:182-184 | headers are ordered byte by byte as the lengths they encode: most significant byte first |
| `Frames.RefusesOversizedFrame` | crates/pemrix-network/src/tcp.rs:177-192 | an oversized frame is never read, also when its length of 4 GiB or more is truncated by the header, and which error it ends with |
| `Frames.ParsesWrittenFrames` | crates/pemrix-network/src/tcp.rs:342-369 | over written frames the loop emits exactly the messages before the first oversized one, with the matching error |
| `Frames.FramesRoundTripExactly` | crates/pemrix-network/src/tcp.rs:342-369 | the loop emits exactly the list written if and only if every encoding is at most 8 MiB |
| `Frames.CutEmitsPrefix` | crates/pemrix-network/src/tcp.rs:347-368 | on any byte stream, cutting it short emits a prefix |
| `Frames.CutEmitsWholeFrames` | crates/pemrix-network/src/tcp.rs:347-368 | over a cut stream of frames exactly the messages whose frames arrived whole are emitted |

## Left out

- Ed25519, hybrid signatures, BLAKE3, serde, hex and decimal strings: library code; they appear as an arbitrary predicate, injective symbolic hashes and lossless codecs. The hex rendering of snapshot keys is dropped, being injective.
- Heights, timestamps and lengths of lists are unbounded; the u64 wrap of a height is not modelled, except for issuance. The network theorems decide quorums with exact sums, which `NetworkSafety.MachineDecidesAlike` ties to the 64-bit code for configured sets whose doubled power fits; sets built from the ledger always do.
- The agreement and link theorems over all runs ask for some voting power: without any, no quorum exists and nothing is ever finalized.
- Mirror.MirrorTracksConsensus: transactions with payloads are outside it, because the staking replay in services.rs is not meant to match consensus balances.
- Frames.FramesRoundTripExactly: for encodings of 4 GiB and more it asks that no proper prefix of an encoding decodes, as holds of the JSON strings and objects that messages are encoded as.
- `handle_proposal` without a block (crates/pemrix-consensus/src/bft.rs:422-441): the node never calls it, and the engine theorems do not cover it.
- Liveness: nothing says that blocks keep being produced; message loss is unlimited.
- Sockets, dial retries and their timing, Tokio tasks, RPC and gRPC servers, CLI, configuration and key files: input and output.
- The RocksDB backend: the in-memory backend carries the property.
- slashing.rs and rewards.rs: not wired into execution or finalization; straight-line arithmetic.
- The waiting for peers and the order of steps inside one iteration of the production loop: any order is allowed in the model, which covers the program's.
- WASM and QUIC stubs, gas metering, mempool, explorer, webhooks, faucet and SDKs: straight-line bookkeeping around the parts modelled here.
