# Sudharma consensus ledger: a verified model

This project models the consensus core of the Sudharma node: the account state that blocks change, the hash-linked chain
that drives it, the reorganization that swaps both, the mempool that must stay consistent with them, the arithmetic of
fees, issuance, work and difficulty, the explorer's cursor pagination, and the register schedule and merge of the GPU
proof. Code that updates objects is modelled as classes (`State`, `Chain`, `Mempool`, `Node`) whose methods are proved
against transitions on values (`Ledger`, `Pool`, block sequences); what the system promises is proved about those values,
for every input and every run.

Main results:

- **State is replay.** Along every run of accepted, mined, admitted and reorganized steps, successful or refused, the
  live ledger equals the replay of the chain's blocks from the empty ledger, and that replay never fails.
- **Conservation.** Balances sum to issued supply at every block boundary, and fall short of it by exactly the miner fees
  collected so far inside a block. No overflow guard on coins can fire. Issued supply is the sum of the scheduled
  subsidies, and every balance has a closed form.
- **Equal tips mean equal ledgers.** Wherever two runs of two nodes reach the same tip hash they have reached the same
  ledger, barring collisions: a block hash commits to everything at and below it except signatures.
- **Admission is sound and complete for blocks.** Admission replays one sender at a time; still, pooled transactions form
  a block that is processed without error exactly when each sender's part is a prefix of its queue, in any interleaving.
  An accepted block keeps that property exactly when it contains the identifier of every pooled transaction whose nonce
  it spends.
- **Reorganization.** A candidate is adopted exactly under the stated conditions; adoption keeps every finalized hash and
  all but the last 120 blocks, a refusal changes nothing, and the rebuilt pool replays and is maximal. Along a run a block
  keeps its hash while its height stays finalized.
- **Acceptance is exact.** Transactions, blocks, first blocks, pool entries and cursors are accepted if and only if written
  out conditions hold, and refused with the first check they fail; every block of every run carries an accepted proof, and
  no confirmed transaction is free.
- **The chain only improves** in (total work, height), and a node never returns to a chain it left.
- **Pagination.** On a running node, following the cursors that the pages hand out shows every matching transaction of the
  first page's chain once, in order, whatever happens to the chain in between as long as requests are accepted, barring
  collisions; and no traversal goes on for ever, whatever the hash.

Reading notes:

- A Go string is a Dafny string with one character per byte. Integers are unbounded with explicit guards: `u32` and `u64`
  are subset types, and the source's overflow checks are written out. Heights are the exception: `height + 1` is not
  wrapped when blocks are checked, since no chain holds 2^64 blocks.
- SHA-256, the signature and identity check, the proof verifier, clock readings, peer replies and the test whether a
  nonce hits are parameters (function values). Nothing is assumed of them unless a contract says so.
- No function into 32-byte digests is injective, so results that rest on the hash say which strings must not collide:
  `Collision` and `NoCollisions` speak of two headers, `GenuineGenesis` of a first block and the network's genesis block
  (construction from a genesis block compares only its hash), and `CollisionFree` of a finite set such as everything that
  was hashed for two chains (`ChainInputs`).
- `ChecksIds` says that the signature check recomputes a transaction's identifier, as `VerifyForNetwork` does
  (transactions/transaction.go:184-188).
- Each public call is one atomic step. Validation and commit read the clock separately, so such calls take two readings.
- Pointers to blocks, transactions and objects are never nil, except in peer replies.
- Sorting is a specification function: the source's comparison functions are total orders on what they sort, so the
  result does not depend on the algorithm. Map enumeration is an arbitrary choice.

Where the code does less than one might expect, each with an input and the exact condition:

- The Merkle root does not determine a transaction list in general: the last entry may repeat
  (`RepeatedLastLeafKeepsRoot`), identifiers are read without regard to case (`UpperCaseKeepsRoot`), and text that is not
  hexadecimal shares its leaf with its own digest (`TextKeepsRoot`), and an identifier may be the node above two others
  (`UnequalDepthKeepsRoot`). For identifiers as `calculateID` writes them and
  equal depth, roots are equal exactly when the completed leaf lists are (`MerkleRootExactly`).
- A header does not mark where the Merkle root ends and the miner begins (`ShortIdsShareHeader`); for processed blocks
  both are recovered (`HashCommits`).
- Accepting a block removes only its own identifiers from the pool, so a pending transaction with a spent nonce can stay
  (`ConflictStrandsPooled`, `StrandedPayment`); `BlockKeepsPoolExactly` says exactly when this does not happen.
- Finality is promised for each reorganization with the finalized height computed just before it. A candidate with more
  work may be shorter, and then the finalized height falls, exactly as `FinalizedHeightFalls` says;
  `FinalityIsPerReorganization` is a run of two reorganizations that replaces a block finalized at its start, and
  `FinalizedStays` is what holds along every run.
- A block built from the pool takes transactions in map order, so it can be refused by its own processing
  (`RefusedOrder`). Every order is processed exactly when no sender has more than one transaction pending
  (`EveryOrderProcessed`).
- The fee function is safe for the basis points in use; for larger ones its products wrap (`FeeWraps`), exactly as
  `BasisPointsFeeIsFloor` says.

## Model

| member | source | states |
|---|---|---|
| `Transactions.BasisPointsFeeIsFloor` | transactions/transaction.go:64-69 | the 64-bit split evaluation is the floor of amount times points over 10000 if and only if that floor and the product of the remainder fit in 64 bits; up to 10000 points they always do |
| `Transactions.FeeWraps` | transactions/transaction.go:64-69 | an input on which the products wrap and the result is not the floor |
| `Transactions.FeeIsPositiveFromDustMinimum` | transactions/transaction.go:72-91 | the fee is floor(amount/1000), the development part floor(amount/10000), the two parts add up to the fee, and the fee is positive exactly from the dust minimum on |
| `Emission.MainnetEpochPaysItsEntry` | consensus/rewards.go:17-47 | each of the 40 mainnet epochs pays exactly its table entry, remainder blocks included |
| `Emission.MainnetTotal` | params/mainnet_emission.go:7-18 | the mainnet schedule pays exactly 51,000,000 coins by height 5,259,600, never more before and nothing after |
| `Emission.TableFollowsTargets` | docs/superpowers/specs/2026-08-31-mainnet-tokenomics-v1-design.md:25-41 | each of the 40 table entries is its quarter, at 103, 101, 99 or 97 percent, of the annual target of its year in percent of 51,000,000 coins |
| `Emission.EpochIsEven` | consensus/rewards.go:17-47 | within an epoch no block gets more than one base unit more than another, and earlier ones never less |
| `Emission.MainnetSubsidyNeverRises` | consensus/rewards.go:17-47 | from height 1 on the mainnet subsidy never rises |
| `Emission.TestnetHalves` | consensus/rewards.go:17-47 | the testnet pays 50 coins in its first million heights and half as much, rounded down, in each following million, for ever |
| `Emission.ScheduleWithinCap` | consensus/rewards.go:17-47 | on both networks the scheduled total stays within the hard cap, 51 billion and 51 million coins, at every height |
| `Conservation.ApplyTxConserves` | blockchain/transaction_processor.go:49-202 | on a backed ledger a transaction fails only by one of its listed checks, never by an overflow, and otherwise moves exactly its miner fee out of the balances |
| `Conservation.RunConserves` | blockchain/block_processor.go:68-117 | inside a block balances plus collected miner fees equal issued supply, and the fee guard never fires |
| `Conservation.PayRewardConserves` | blockchain/rewards.go:41-91 | the reward step cannot fail on a backed ledger; it mints the clamped subsidy and returns the collected fees to circulation |
| `Conservation.ProcessBlockConserves` | blockchain/block_processor.go:36-118 | a block succeeds exactly when miner and policy are right and its transactions run; then balances again sum to issued supply |
| `Effects.AcceptedExactly` | blockchain/transaction_processor.go:64-165 | a backed ledger accepts a transaction if and only if it is well signed and has a fresh identifier, the next nonce and enough funds |
| `Effects.AcceptedByFields` | blockchain/transaction_processor.go:64-165 | the same field by field with every limit written out: at least 1,000 units, a fee of a thousandth, lengths of identifier, key and signature, lower-case hexadecimal addresses of 40 digits |
| `Effects.LimitsExactly` | transactions/resource_bounds.go:28-57 | the resource bounds are exactly those limits |
| `Effects.FirstFault` | blockchain/transaction_processor.go:64-165 | a transaction is refused with the first check it fails, in the order of the code, and with no other |
| `Effects.AppliedPays` | blockchain/transaction_processor.go:95-140 | no applied transaction is free: it keeps the limits, pays a fee of at least one unit, and at least one unit to the miner |
| `Effects.RunPays` | blockchain/block_processor.go:68-117 | a run of n transactions pays its miner at least n units |
| `Effects.ApplyTxEffect` | blockchain/transaction_processor.go:158-202 | the complete effect on every account of one accepted transaction |
| `Effects.RunNonces` | blockchain/state.go:192-226 | a sender's applied nonces continue its account nonce one by one, in order |
| `Effects.RunIds` | blockchain/state.go:165-190 | no identifier is applied twice and exactly the applied ones become processed |
| `Effects.RunCounts` | blockchain/transaction_processor.go:188-199 | processed identifiers and the sum of nonces both grow by the number of transactions |
| `Effects.NetOfOthers` | blockchain/mempool_validator.go:35-98 | other senders' transactions can only raise an account's balance |
| `Queues.MergedQueuesRun` | blockchain/mempool_validator.go:26-98 | any merge of lists that replay sender by sender replays as a whole |
| `StateObject.State.constructor` | blockchain/state.go:25-36 | a new state holds the empty ledger of its policy |
| `StateObject.State.Credit` | blockchain/state.go:95-116 | credits in place, refusing an empty address or an overflow without change |
| `StateObject.State.Debit` | blockchain/state.go:118-139 | debits in place, refusing an empty address or a short balance without change |
| `StateObject.State.MintSupplyFor` | blockchain/state.go:248-285 | raises issued supply within the cap of the state's own policy, or changes nothing |
| `StateObject.State.Clone` | blockchain/state.go:287-313 | a fresh state with the same ledger |
| `StateObject.State.ReplaceWith` | blockchain/state.go:315-366 | takes over the other state's whole ledger |
| `StateObject.State.ApplyTransactionMutating` | blockchain/transaction_processor.go:49-202 | the in-place sequence of checks and updates computes the ledger transition and its errors |
| `StateObject.State.ApplyTransactionFor` | blockchain/transaction_processor.go:23-43 | all or nothing: a failing transaction leaves the state as it was |
| `StateObject.State.CreditMinerRewardFor` | blockchain/rewards.go:41-91 | mints and credits as the reward transition says |
| `StateObject.State.ProcessBlockFor` | blockchain/block_processor.go:36-118 | the loop over a clone computes the block transition; a failing block leaves the state as it was |
| `Replaying.ReplayIsBacked` | blockchain/reorg.go:116-146 | every ledger reached from the empty one is backed, and no overflow error is reachable |
| `Replaying.ClampNeverBinds` | blockchain/rewards.go:93-105 | the remaining-supply clamp never binds at the next height of either schedule |
| `Replaying.ReplaySupply` | blockchain/rewards.go:57-105 | issued supply after heights 1..h is the sum of the scheduled subsidies |
| `Replaying.BlockEffect` | blockchain/block_processor.go:68-117 | the complete effect of a block on every account: its transactions, and subsidy plus miner fees for the miner alone |
| `Replaying.ReplayBalance` | blockchain/reorg.go:116-146 | every balance is the net of the account's transactions plus what it earned by mining |
| `Replaying.ReplayPays` | blockchain/reorg.go:116-146 | every transaction on a chain that replays keeps the limits, and n of them have paid the miners at least n units |
| `Replaying.ReplayNonces` | blockchain/transaction_processor.go:70-199 | an account nonce counts the sender's applied transactions, whose nonces are exactly 1..n in order |
| `Replaying.ReplayIds` | blockchain/state.go:165-226 | no identifier is applied twice on a chain, and processed identifiers number the sum of all nonces |
| `Pools.AddAgrees` | blockchain/mempool/mempool.go:58-98 | an addition keeps the three maps, the byte counter and the limits in agreement |
| `Pools.RemoveAgrees` | blockchain/mempool/mempool.go:163-194 | a removal keeps the agreement, and the clamp of the byte counter is exact |
| `Pools.AddThenRemove` | blockchain/mempool/mempool.go:58-194 | removing what was just added restores the pool exactly, index and counter included |
| `Pools.EveryRunAgrees` | blockchain/mempool/mempool.go:58-247 | every run of additions, removals and clears keeps the agreement |
| `Admission.AddedExactly` | blockchain/mempool/mempool.go:100-127 | the pool takes a transaction if and only if it is within bounds and new, its nonce is free for its sender, and afterwards at most 4,096 are pooled and at most 64 of the sender; the byte limit never decides |
| `Admission.PoolIsSmall` | blockchain/mempool/mempool.go:100-127 | a pool holds at most 297 bytes for each transaction, far below its byte limit |
| `MempoolObject.Mempool.CheckAdmission` | blockchain/mempool/mempool.go:100-127 | reports exactly the refusal the pool rules give |
| `MempoolObject.Mempool.AddTransaction` | blockchain/mempool/mempool.go:58-98 | inserts in all maps or changes nothing, keeping the agreement |
| `MempoolObject.Mempool.RemoveTransaction` | blockchain/mempool/mempool.go:163-194 | removes from all maps, dropping an emptied sender, keeping the agreement |
| `MempoolObject.Mempool.Clear` | blockchain/mempool/mempool.go:240-247 | leaves the empty pool |
| `MempoolObject.Mempool.TransactionsForSender` | blockchain/mempool/mempool.go:140-158 | whatever the enumeration order, returns exactly the sender's pending transactions by ascending nonce |
| `MempoolObject.Mempool.AllTransactions` | blockchain/mempool/mempool.go:197-206 | returns every pending transaction exactly once |
| `Admission.ValidateExactly` | blockchain/mempool_validator.go:35-98 | on a sender's queue, validation accepts exactly what replays at its end, with fewer than 64 pending |
| `NodeObject.ValidateMempoolTransactionFor` | blockchain/mempool_validator.go:35-98 | the collect, sort and replay loops decide as the admission rule does, leaving the confirmed state alone |
| `PoolBlocks.AdmissionRunsAreConsistent` | p2p/transaction_submit.go:47-86 | every run of admissions against one ledger builds a pool whose queues all replay |
| `PoolBlocks.QueueIsConsecutive` | blockchain/mempool_validator.go:35-98 | in such a pool pending nonces are the consecutive run after the confirmed nonce, and none is processed |
| `PoolBlocks.BlocksFromPool` | blockchain/block_processor.go:68-117 | pooled transactions are processed as a block if and only if they take a prefix of each queue, in any interleaving |
| `PoolBlocks.OwnQueueRuns` | blockchain/mempool_validator.go:26-98 | one sender's list replays on any ledger where that sender has the same nonce, no lower balance and fresh identifiers |
| `PoolBlocks.BlockKeepsPoolExactly` | p2p/block_handler.go:39-55 | a processed block leaves the pool replayable if and only if it contains the identifier of every pooled transaction whose nonce it spends, also when such a transaction was signed again |
| `PoolBlocks.ConflictStrandsPooled` | p2p/block_handler.go:51-55 | of two conflicting payments one is admitted and the other confirmed by a block: the first stays in the pool, which no longer replays |
| `Inputs.StrandedPayment` | p2p/block_handler.go:51-55 | that situation with two payments under their own identifiers on the ledger after one mined block, for every check that accepts them |
| `Inputs.RecomputingAccepts` | transactions/transaction.go:168-188 | a check that demands key and signature and recomputes identifiers accepts these payments |
| `PoolBlocks.MinedBlockKeepsPoolConsistent` | miner/pipeline.go:74-91 | a processed block made of pooled transactions leaves a pool that replays on the new ledger |
| `NodeRuns.AdmittedPoolFillsBlocks` | blockchain/mempool_validator.go:26-98 | the block characterization for a pool admitted on the ledger of any chain that replays |
| `NodeObject.Node.AdmitVerifiedTransaction` | p2p/transaction_submit.go:47-86 | admits exactly when the admission rule does, keeping the node sound |
| `Rebuild.RebuildIsMaximal` | p2p/reorg_mempool.go:159-236 | one pass in sender and nonce order is complete: each candidate is pooled or would still be refused |
| `Rebuild.OrderIsDetermined` | p2p/reorg_mempool.go:150-182 | however the candidate map is enumerated there is one order of the candidates, and so one rebuilt pool |
| `Rebuild.OrderExactly` | p2p/reorg_mempool.go:161-182 | that order is by sender, then nonce, then identifier |
| `Sorting.LexExactly` | p2p/reorg_mempool.go:165-181 | strings are compared by bytes: a prefix comes first, otherwise the first difference decides |
| `NodeRuns.ReorganizationRebuildsPool` | p2p/reorg_mempool.go:77-236 | after any reorganization, from any old pool and chain, everything pooled or abandoned was reconsidered in order, all queues replay, nothing pooled is processed, and the pool is maximal |
| `NodeObject.Node.RecoverTransactions` | p2p/reorg_mempool.go:184-236 | the recovery loop builds the pool of admitting the candidates in turn and counts it |
| `NodeObject.Node.ReorganizeWithMempoolRecovery` | p2p/reorg_mempool.go:17-243 | adopts exactly when the rule does, rebuilds the pool from old pool and abandoned blocks, else changes nothing and reports the first thing that stood in the way |
| `Blocks.HeaderDetermines` | blockchain/block.go:30-79 | equal header bytes fix version, height, timestamp bytes, difficulty, nonce and a hash-sized previous hash |
| `Blocks.HeaderDeterminesStrings` | blockchain/block.go:30-79 | with hash-sized previous hash and Merkle root they fix the Merkle root and the miner too |
| `Blocks.BigEndianDigits` | blockchain/block.go:30-79 | byte i of a header field is the digit of its value with the weight of that place, most significant first |
| `Blocks.HashesAgreeBelow` | blockchain/block.go:30-94 | on hash-linked chains equality of hashes at one height carries down to genesis, barring a collision |
| `Merkle.CalculateMerkleRoot` | blockchain/block.go:98-208 | the level-by-level loop terminates and computes the recursive definition with the last node doubled |
| `Merkle.RootDetermines` | blockchain/block.go:155-208 | without a clash, lists of 32-byte nodes of equal length, or distinct ones of equal depth, with equal roots are equal |
| `Merkle.RootExactly` | blockchain/block.go:155-208 | without a clash, node lists of equal depth have equal roots exactly when their completed leaf lists are equal |
| `Merkle.MerkleRootExactly` | blockchain/block.go:98-208 | the same for transaction lists with canonical identifiers and their Merkle roots |
| `Merkle.MerkleRootDetermines` | blockchain/block.go:98-208 | canonical identifier lists of equal length, or distinct ones of equal depth, are determined by the Merkle root |
| `Merkle.RepeatedLastLeafKeepsRoot` | blockchain/block.go:155-208 | repeating the last of three leaves keeps the root |
| `Merkle.UpperCaseKeepsRoot` | blockchain/block.go:98-140 | two different identifiers, in lower and upper case, with one root |
| `Merkle.TextKeepsRoot` | blockchain/block.go:98-140 | an identifier that is not hexadecimal and the text of its digest, with one root |
| `Merkle.UnequalDepthKeepsRoot` | blockchain/block.go:155-208 | canonical lists of one and of two identifiers with one root, the reason for the condition of equal depth |
| `Commitments.IdDetermines` | transactions/transaction.go:97-110 | an identifier determines sender, receiver, amount, fee and nonce, barring a collision |
| `Commitments.RootCommitsToPayments` | blockchain/block.go:98-208 | the Merkle root of a processed list determines its identifiers and payments, whatever the lengths, empty lists included |
| `Commitments.HashCommits` | blockchain/block.go:82-94 | the hash of a validated and processed block determines all of it but signatures |
| `Commitments.ShortIdsShareHeader` | blockchain/block.go:30-79 | two blocks with correct roots, equal headers and different transactions when identifiers are short |
| `Commitments.SameHashSameHistory` | blockchain/block.go:30-94 | chains that replay and agree on one hash say the same at and below it, up to signatures |
| `Commitments.SameTipSameLedger` | blockchain/reorg.go:116-146 | two valid chains that replay and end in the same hash have the same ledger |
| `Agreement.RunsAgree` | blockchain/reorg.go:116-223 | wherever two runs of two nodes reach the same tip hash, their ledgers are equal |
| `Work.WorkExactly` | consensus/work.go:6-36 | block work is the difficulty when it divides 2^256 and one less otherwise, and at least 1 |
| `Work.WorkNeverFalls` | consensus/work.go:6-36 | a higher difficulty never represents less work |
| `Difficulty.MedianBlockInterval` | consensus/history_difficulty.go:13-31 | filter and sort compute the median of the positive intervals |
| `Difficulty.MedianIsMiddle` | consensus/history_difficulty.go:13-31 | the median is a positive interval with at most half below and fewer than the rounded-up half above; the target when there is none |
| `Difficulty.MajorityFixesDifficulty` | consensus/history_difficulty.go:13-38 | if more than half of the intervals lie in 30..120 seconds the difficulty is unchanged, whatever the others are |
| `Difficulty.DifficultyMovesSlowly` | consensus/difficulty.go:18-67 | difficulty stays at least 1 and moves by at most max(1, d/4) up or max(1, d/5) down |
| `Difficulty.DifficultyStepIsFull` | consensus/difficulty.go:18-67 | a rise is no less than a quarter and a fall no less than a fifth, rounded down; with the bounds above this fixes the step; difficulty 0 counts as 1 |
| `Difficulty.DifficultyFollowsPace` | consensus/difficulty.go:18-67 | it rises after fast blocks, falls after slow ones, strictly until it meets a bound, and stays otherwise |
| `Difficulty.RecentBlockIntervals` | blockchain/difficulty_history.go:22-49 | the loop returns the positive ones of the last eleven intervals |
| `Chains.RecentIntervalsComplete` | blockchain/difficulty_history.go:22-49 | on a valid chain the positive-interval filters drop nothing |
| `Chains.FaultSplitsClock` | blockchain/validator_core.go:23-75 | the clock decides nothing but the future-timestamp check |
| `Chains.ExtendsExactly` | blockchain/validator_core.go:23-75 | a block extends a chain if and only if the verifier accepts its proof and supports its version, the version is that of its height, and difficulty, height, link, timestamp, Merkle root and transaction limits are right |
| `Chains.FirstBlockFault` | blockchain/validator_core.go:23-75 | a block is refused with the first check it fails, in the order of the code, and accepted exactly when it fails none |
| `Chains.GenesisExactly` | blockchain/chain.go:74-127 | a first block is accepted exactly for a known network, a verifier of the versions in use, the version of its height and the genesis hash |
| `Chains.GenesisIsPublished` | blockchain/block.go:218-260 | the fields of both first blocks |
| `Chains.BlockIsSmall` | blockchain/block_resource_validator.go:10-40 | a list of bounded transactions has at most 297 bytes each, so the byte limit of a block never decides |
| `Chains.AppendValid` | blockchain/chain.go:249-288 | appending keeps a chain valid exactly for a valid extension and adds its work to the total |
| `Chains.ChainShape` | blockchain/validator_core.go:23-75 | a valid chain has block i at height i, hash links, strictly rising timestamps and difficulty at least 1 |
| `ChainObject.Chain.AddBlock` | blockchain/chain.go:249-288 | appends exactly the blocks that pass every check, proof included, keeps cached work right, and strictly increases it |
| `ChainObject.Chain.Revalidate` | blockchain/validated_chain.go:10-51 | succeeds exactly for a valid, timely chain and then returns an independent chain with the same blocks and the right work; otherwise reports the first fault |
| `ChainObject.Chain.ReplaceWith` | blockchain/reorg.go:39-108 | replaces exactly by a candidate that is valid under the chain's own rules, else changes nothing |
| `ChainObject.BetterChain` | blockchain/fork_choice.go:12-61 | prefers the candidate exactly for more work, or equal work and more height; never across networks |
| `Reorgs.ReorgDepth` | blockchain/reorg_depth.go:13-59 | the downward scan returns the highest height with equal hashes, or nothing if there is none |
| `Reorgs.HighestMatchIsCommonPrefix` | blockchain/reorg_depth.go:13-59 | for valid chains that is the end of the common prefix: hashes agree at exactly the heights up to it |
| `Reorgs.FinalityTestIsDepthTest` | blockchain/reorg_depth.go:63-73 | the finality test and the depth test refuse the same candidates |
| `Reorgs.FinalizedByConfirmations` | blockchain/finality.go:11-63 | a block is finalized exactly when it is genesis or has more than 120 confirmations |
| `Reorgs.ValidateFinalizedReorg` | blockchain/finality_reorg.go:12-39 | accepts exactly candidates whose common height is not below the finalized height |
| `Reorgs.BuildStateFromChain` | blockchain/reorg.go:116-146 | for every chain: fails exactly for an unknown network, a height without its block or a failing replay of the blocks up to the height of the tip, and otherwise computes that replay, which is the whole chain where heights count up |
| `Reorgs.ReorganizeToCandidate` | blockchain/reorg.go:152-223 | adopts if and only if the candidate is valid, better, within depth and replayable; then chain and state move together, else neither changes and the outcome names the first obstacle |
| `Reorgs.AdoptionKeepsFinalized` | blockchain/reorg.go:152-223 | an adopted candidate keeps the hash at every finalized height and of all but the last 120 blocks, barring a collision |
| `Reorgs.FinalizedHeightFalls` | blockchain/finality.go:33-44 | the finalized height falls exactly when a chain with something finalized is replaced by a shorter one |
| `NodeRuns.FinalizedStays` | blockchain/finality_reorg.go:12-39 | along a run a block keeps its hash if its height is finalized in every state on the way, barring collisions |
| `FinalityInput.ForkWork` | consensus/difficulty.go:18-67 | a fork of fast blocks gains work with the square of its length |
| `FinalityInput.FinalityIsPerReorganization` | blockchain/reorg.go:152-223 | for every hash, check and verifier that accepts some nonce for each header, a run of two adopted reorganizations, the first to a shorter chain, that replaces a header finalized at its start |
| `NodeRuns.StepKeepsSound` | p2p/block_handler.go:10-59 | every step keeps chain valid, ledger equal to its replay and pool in agreement |
| `NodeRuns.EveryRunIsSound` | miner/pipeline.go:74-91 | in every state of every run the ledger is the replay of the chain, which never fails |
| `NodeRuns.EveryRunIsProved` | blockchain/validator_core.go:70-72 | in every state of every run each block above genesis has an accepted proof, the version of its height and the difficulty its history demands |
| `NodeRuns.EveryRunImproves` | blockchain/fork_choice.go:12-61 | along every run (total work, height) strictly increases whenever the chain changes |
| `NodeRuns.ChainNeverReturns` | blockchain/fork_choice.go:12-61 | between two states of a run with the same chain every state has that chain |
| `NodeRuns.EveryRunConserves` | blockchain/block_processor.go:68-117 | in every state of every run balances sum to issued supply, which is what the schedule paid up to the tip |
| `NodeRuns.AcceptingKeepsPoolReadyExactly` | p2p/block_handler.go:39-55 | an accepted block keeps the queues of the node replayable exactly when it contains the identifiers of what it spends |
| `Agreement.IdsNamePayments` | transactions/transaction.go:184-188 | where identifiers are recomputed, pool and processed block never use one identifier for two payments |
| `Agreement.AcceptingKeepsPoolReady` | p2p/block_handler.go:39-55 | the same exact condition with no assumption on identifiers beyond their recomputation and the absence of collisions |
| `NodeRuns.StepKeepsPoolReady` | p2p/reorg_mempool.go:137-236 | admitting, mining and reorganizing keep every queue replayable |
| `NodeRuns.EveryOwnRunKeepsPoolReady` | p2p/transaction_submit.go:47-86 | every run without blocks from elsewhere keeps every queue replayable |
| `NodeObject.Node.constructor` | blockchain/chain.go:74-127 | a node on a genesis block starts sound |
| `NodeObject.Node.CommitBlock` | p2p/block_handler.go:35-55 | commits to chain, state and pool together exactly for a valid, timely, processable block, else changes nothing |
| `NodeObject.Node.AcceptBlock` | p2p/block_handler.go:10-59 | takes the accept step exactly for such a block with a miner address |
| `NodeObject.Node.MineNextBlock` | miner/pipeline.go:10-94 | succeeds when Version 1 is allowed and supported, hits are proofs, one is in reach, the timestamp is not too far ahead and the pool is ready with one transaction per sender; every refusal names a condition that failed |
| `NodeObject.NewBlockFromMempool` | blockchain/block_builder.go:15-56 | a linked Version 1 block stamped with the clock, with exactly the selection from some enumeration of the pool, within all block limits and with the right Merkle root |
| `NodeObject.BuildTemplate` | miner/pipeline.go:43-63 | the offered block is Version 1 on the tip, stamped with the clock or one second after the tip, at the demanded difficulty, for the given miner |
| `BlockOrders.EveryOrderProcessed` | blockchain/block_builder.go:26-42 | on a consistent pool every enumeration order gives a block that is processed, if and only if no sender has more than one transaction pending |
| `BlockOrders.LongQueueRefusesSomeOrder` | blockchain/block_builder.go:26-42 | with two transactions of one sender pending some order gives a refused block |
| `BlockOrders.Select` | blockchain/block_builder.go:27-42 | the selection loop takes from the enumeration what fits the count and byte limits |
| `Inputs.RefusedOrder` | blockchain/block_builder.go:26-42 | such an order with two payments under their own identifiers, for every check that accepts them |
| `NodeObject.Mine` | miner/miner.go:23-51 | finds the first nonce that hits, or shows that none below the bound does |
| `Sync.DownloadCandidateChain` | p2p/sync_handler.go:346-515 | for any replies an error or, after at most remoteHeight requests, a valid chain on the genesis block with the advertised height, tip and work; the chain of an honest peer is always obtained |
| `Sync.LegacyProofExactly` | blockchain/validator_core.go:80-89 | a Version 1 proof is accepted exactly when the block hash, read as a number, is at most (2^256 - 1) / difficulty |
| `Sync.LegacyChainIsProved` | blockchain/validator_core.go:80-89 | every block above genesis of a valid testnet chain carries that proof |
| `Sync.DigestNumberRoundTrip` | blockchain/validator_core.go:81-86 | a digest is read as a number most significant byte first |
| `Sync.BlocksFromHeight` | p2p/sync_handler.go:13-73 | serves exactly the requested slice, cut at the limit and the tip |
| `Sync.DownloadsExactlyWhatWouldWin` | p2p/sync_handler.go:628-674 | a download starts exactly for a different tip whose advertised values win the fork choice |
| `Syncing.SyncFromPeer` | p2p/sync_handler.go:571-771 | a downloaded candidate never loses the fork choice; it is adopted exactly when the reorganization rule adopts it, else nothing changes; an honest peer offers its own chain |
| `Cursors.Base64RoundTrip` | rpc/explorer_cursor.go:29-42 | unpadded URL-safe base64 (section 5 of RFC 4648) decodes to what was encoded |
| `Cursors.SymbolsOfTheStandard` | rpc/explorer_cursor.go:29-42 | the alphabet is that of table 2 of RFC 4648 and no other character has a value |
| `Cursors.LineBreaksAreSkipped` | rpc/explorer_cursor.go:38-41 | line breaks in a cursor do not matter |
| `Cursors.DecodedLength` | rpc/explorer_cursor.go:38-41 | four symbols carry three bytes and a single symbol left over is refused |
| `Cursors.CursorRoundTrip` | rpc/explorer_cursor.go:29-55 | every cursor handed out decodes to itself |
| `Cursors.CursorReadExactly` | rpc/explorer_cursor.go:34-55 | a cursor is accepted if and only if it has at most 256 characters and decodes to two numerals and 64 lower-case digits joined by colons |
| `Explorer.ScanPage` | rpc/explorer_cursor.go:100-153 | a page is the listing up to its next position, makes progress, scans at most 2,000 blocks, and stops early only at the limit or that cap |
| `Explorer.ConfirmedPage` | rpc/explorer_cursor.go:61-153 | a request is answered with such a page and the cursor of its next position, or with exactly the stated error |
| `Explorer.ListedExactly` | rpc/explorer_cursor.go:114-131 | an entry is listed if and only if it is a transaction of a block at or below the start and the address is empty, its sender or its receiver |
| `Browsing.ListsNet` | rpc/explorer_cursor.go:114-131 | for every account but the treasury the listed transactions add up to what all transactions do to it |
| `Browsing.ListingExplainsBalance` | rpc/explorer_cursor.go:61-153 | the listed history of an account and what it earned by mining explain its balance |
| `Explorer.ResolveStart` | rpc/explorer_cursor.go:62-98 | resolves cursor, height bound or tip to the start of the scan, with the right error |
| `Explorer.StartIsInHistory` | rpc/explorer_cursor.go:69-98 | with block i at height i, a resolved start always lies in the history, so no block is missing while scanning |
| `Explorer.CursorLeadsBack` | rpc/explorer_cursor.go:73-89 | a cursor is accepted only while its block keeps its hash, then leads back to its position, and is stale when the hash is another one |
| `Explorer.FollowingListsAll` | rpc/explorer_cursor.go:61-153 | a traversal by raw cursors whose requests are all answered and that reaches the empty cursor shows exactly the matching transactions of the first history, in order, without gap or repeat, whatever replaced the chain meanwhile, barring collisions |
| `Explorer.FollowingGrowingChain` | rpc/explorer_cursor.go:61-153 | while blocks are only appended the listed entries are equal in full, with no assumption on the hash |
| `Explorer.FollowingEnds` | rpc/explorer_cursor.go:103-150 | every traversal, finished or not and whatever happens to chain and hashes, has at most as many pages as its start has positions below it in full blocks |
| `Explorer.FollowingEndsWithin` | rpc/explorer_cursor.go:103-150 | barring collisions it has at most one page more than its first request had positions left to scan |
| `Explorer.PagesMakeProgress` | rpc/explorer_cursor.go:134-149 | every page leaves strictly less to scan, also when the scan cap cuts it with nothing on it |
| `Explorer.SameHashListsAlike` | rpc/explorer_cursor.go:78-84 | two histories that agree on the hash of a cursor list the same from there down, barring collisions |
| `Browsing.PagesOfARun` | rpc/explorer_cursor.go:61-153 | pages fetched at any moments of a run of the node, if all requests are answered, show exactly the matching transactions of the chain of the first request, barring collisions |
| `Browsing.PagesOfARunEnd` | rpc/explorer_cursor.go:103-150 | fetching pages from a running node ends, with no assumption on the hash |
| `GpuMix.ShufflePermutes` | pow/gpu_pow_v1_permutation.go:8-27 | whatever the generator yields, shuffling permutes both lists |
| `GpuMix.Generator.constructor` | pow/gpu_pow_v1_rng.go:16-22 | seeds the four words from the two seed words |
| `GpuMix.Generator.Next` | pow/gpu_pow_v1_rng.go:24-35 | advances the four words in place and returns the next number |
| `GpuMix.RegisterPermutations` | pow/gpu_pow_v1_permutation.go:8-27 | for every seed the in-place swaps leave both schedules with each of 0..31 |
| `GpuMix.MergeIsBijective` | pow/gpu_pow_v1_mix.go:97-112 | for every operand and selector the merge is a bijection in its first operand, with an explicit inverse |
| `GpuMix.XorAt` | pow/gpu_pow_v1_mix.go:97-112 | exclusive or works bit by bit |
| `GpuMix.RotatedAt` | pow/gpu_pow_v1_mix.go:37-43 | rotation by x moves bit i to bit i + x around the word |
| `GpuMix.MergeAt` | pow/gpu_pow_v1_mix.go:100-112 | the rotating merges bit by bit, by 1 to 31 places chosen by the upper half of the selector |

## Left out

- Nil arguments and unattached chains or states: excluded by the types, apart from nil blocks in peer replies.
- Locks, goroutines and interleavings of calls: each public call is one step.
- SHA-256, ECDSA, wallets and proof verification: parameters.
- TCP, peer scoring, deadlines, HTTP handlers, Stratum and relay of transactions and blocks: I/O around the modelled steps.
- JSON storage of chain, state, mempool and peers: file-system effects.
- Pool payouts: floating-point amounts with no conservation rule in the code.
- The full GPU hash (cache, dataset, lane loop, random math) and the CUDA and OpenCL sources: fixed computations.
- Launch and readiness gates, configuration, process supervision, Telegram, web and Android code.
- `State.Transfer`, `SetDevelopmentAddress`, and status views such as `RefreshChainStatus` and counts: only easy members.
- `removeConfirmedCandidateTransactions`: a helper that no modelled path calls.
- Signed overflow of timestamps: timestamps are integers in the model and wrap only inside the header bytes.
- The rollback after a failing state swap in a reorganization: that swap cannot fail, so the branch is unreachable.
- RegisterPermutations: rotations and shifts are written as products, quotients and remainders; the numbers the generator draws are not compared with published vectors.
- FollowingListsAll: what a page shows of a transaction apart from key and signature, which no hash covers; histories start from a genesis block without transactions, as both networks' do.
- ReorganizeToCandidate: the current chain is one that the public operations built, which is what every run keeps.
