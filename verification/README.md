# Verified model of a proof-of-work full node

This project models, in Dafny, the ledger of a blockchain full node and the code around it, and proves what its parts
promise each other. Every operation that changes state step by step in the node is a method over the same state, proved
against a function of the old state; the theorems about whole runs are lemmas about those functions, and `CallAll` and
`HandleAll` tie the two together.

| file | what it models |
|---|---|
| `Types.dfy` | transactions, blocks, undo records, the buffers that are hashed and signed |
| `Utxos.dfy` | the database of unspent outputs: validation, execution, undo, balance |
| `Blocks.dfy` | a whole block against the unspent outputs: execution, order, undo, conservation |
| `BlockStores.dfy`, `HashLinks.dfy`, `Indexes.dfy` | block files and the two indexes; chains linked by hash; what a repeated hash does to the index |
| `Difficulty.dfy`, `Bytes.dfy`, `Economics.dfy` | targets, their 32-byte form, the reward schedule |
| `Ledgers.dfy`, `Clocks.dfy` | the abstract chain state, its steps and runs; when all of it is a replay of the active blocks |
| `Blockchains.dfy` | `add_block` and `pop_block` over all stores together |
| `Sync.dfy` | reorganising onto a peer's chain |
| `Merkle.dfy` | tree, two proof generators, verifier |
| `PeerLink.dfy` | the request and response protocol of two peers |
| `MemPools.dfy`, `FullNodes.dfy` | pending transactions; acceptance of blocks and transactions |
| `NodeRuns.dfy` | runs of a node: transactions, blocks, expiry and reorganisations in any order |
| `Wallet.dfy`, `BlockBuilding.dfy` | coin selection; building a block to mine |
| `Paging.dfy`, `Filter.dfy` | paged API answers and their client loops; the address inclusion filter |

Results of fallible code are `Ok`, `Err` or `Panic`; `Panic` is a panic of the original: an index out of range, an
`unwrap` of nothing, unchecked `u64` or `u32` arithmetic that overflows.

The abstract view of the database, a map from (transaction id, index) to output, is what the results are stated on. Raw
entries may come back shorter after an undo, or stay empty for a transaction without outputs; the view does not see it.

## Hypotheses

- Hash functions and the signature check are unknown functions, collected in `Env`. Where a result needs a hash to be
  injective, or a signature to be good for one buffer only, it says so (`InjectiveBlockDigest`, `InjectiveTxDigest`,
  `InjectiveInputsDigest`, `CollisionFree`, `SignsOnce`).
- The ids of a new block are pairwise distinct and none is used on the active chain (`FreshFor`). The code relies on
  hashing for that and never checks it.
- The theorems about runs hold for every rule by which targets move (`Rule`); the node's is `Difficulty.RULE`, which
  `DifficultyState.UpdateDifficulty` computes.
- The source computes its scales in 64-bit floats and truncates. The model computes them over exact reals, where they are
  the whole-number scales used in the statements. In floats a truncated scale can be one unit less: one millionth for
  the block target at elapsed times of 56, 91 and 126 seconds and for the live target at pool sizes such as 33, and one
  thousandth for a block's own target at one transaction, where 1.005 * 1000 truncates to 1004.

## What turned out not to hold as expected

- Popping the only block leaves the popped block's timestamp as the last timestamp (`src/core/blockchain.rs:333-339`).
  Adding and popping a block is the identity exactly when a block remains below or that timestamp was already shown
  (`PopUndoesAdd`). After any run, the whole state is a replay of the active blocks if and only if the clock that the
  last emptying left is harmless (`Clocks.StateIsReplay`). For the node's rule (`NodeStateIsReplay`) that means: it is
  zero, while the chain is empty; otherwise the first active block comes at least 35 seconds after it past SCIP-2, and
  at least 20 seconds after it before, where timestamps up to 16 are harmless too. Two empty blocks that come too close
  show it (`StaleClockExample`). Unspent outputs, undo records and the transaction target never depend on history.
- A full node answers a Merkle proof request with a proof over the raw ids (`src/full_node/behavior.rs:173-191`), while
  roots are taken over digests of ids. The proof validates exactly when every id is its own digest
  (`ServedProofValidates`).
- The two proof generators agree except on an empty list with the all-zero target (`GeneratorsAgree`).
- A block hash covers outputs only through the transaction ids: the inputs are encoded twice in the buffer and the
  outputs never (`src/core/block.rs:86-120`). Two blocks have the same hash exactly if they differ in outputs alone, and up
  to SCIP-1 in inputs (`HashCommitsTo`); other outputs in any transaction give such a block (`HashIgnoresOutputs`). Where
  the ids of one are digests, the two are the same block exactly if the other's are too (`BlockHashBindsBlock`).
- `sync_to_peer` searches from the local height, which holds no block, down to height 1, and pops the shared block too.
  An honest peer on a reliable link is refused as having no fork point exactly if it holds none of the top 29 local blocks
  above height 0 (`SyncToPeer`): always with one local block or none, and also when the chains share block 0 alone.
- `get_utxo_diffs_by_height` never returns the record of block 0 (`src/core/block_store.rs:275-282`).
- The comments of `build_transaction` speak of the biggest coins first and of a sort from highest to lowest; the code takes
  coins in the order the provider lists them and sorts ascending (`src/lib.rs:94`, `src/lib.rs:142`). The model follows
  the code. The biggest coins are used first, whatever is paid, exactly if they are listed in descending order
  (`BiggestFirstIfListed`); a coin of 1 listed before one of 2 shows it (`SmallCoinFirst`).
- `accept_transaction` takes no lock across checking and adding (`src/full_node/mod.rs:247-258`). Of two transactions that
  both passed, both are in the pool afterwards, and it stays conflict-free exactly if their inputs are disjoint
  (`SplitAdmissionConflicts`). Over any interleaving of checks, additions and other calls the pool and what is checked and
  not yet added stay conflict-free exactly if every check that passes is also of a transaction that conflicts with none
  of the latter (`InterleavedAdmissions`); one task at a time meets that (`AtomicAdmission`, `NeverConflicting`).
- The id of a transaction and the hash of a block are remembered before they are checked (`src/full_node/mod.rs:173`,
  `src/full_node/mod.rs:229`). What was refused is answered Ok when it is sent again, and still not accepted
  (`AcceptTransactionTwice`, `AcceptBlockTwice`).
- `add_block` never looks whether an active block carries the hash of the new one. If one does, the hash index leads to
  the new block, and after that is popped to none, while the older block is still active: it is lost. The indexes are
  inverse after a call exactly if they were and the hash was not indexed (`Blockchain.AddBlock`), and after any run exactly
  if no block is left lost (`CallAll`, `LostAfter`). What a lookup does find is right in any case
  (`GetBlockHeightByHash`). Checking the hash rules a repetition out (`CheckedHashesAreFresh`). The initial download adds
  blocks with the check skipped (`src/full_node/ibd.rs:254-256`) and checks their hashes on other threads only afterwards
  (`src/full_node/ibd.rs:213-246`). Without the check two empty blocks show it (`RepeatedHashExample`).
- A link on which both ends ask for too much at once comes to a standstill: each writer waits for a full wire, each reader
  for its own full queue. These are exactly the states, other than idle ones, in which no task can move (`NothingLost`);
  they need 132 outstanding requests and two for every message that the wire holds one way (`StuckUnderLoad`), and they
  are reached for every capacity of the wire (`GetsStuck`). Below that load the link always falls idle (`FallsIdle`).
- A block that joins takes only its own transactions out of the pool. Exactly those of the other valid ones go stale that
  share an input with the block, or that the new transaction target rules out (`PendingAfterBlock`).
- `total_reward` overflows a shift as soon as it sums past 64 halvings (`TotalReward`).

## Model

| member | source | states |
|---|---|---|
| `Types.BlockHashBindsBlock` | src/core/block.rs:86-120 | Two blocks with authentic, equal hashes, one of them with authentic transaction ids, are the same block, outputs included, if and only if the other's ids are authentic too |
| `Types.HashCommitsTo` | src/core/block.rs:86-120 | Authentic blocks have the same hash if and only if they differ at most in outputs, and up to SCIP-1 in inputs |
| `Types.HashIgnoresOutputs` | src/core/block.rs:86-120 | Other outputs in a transaction make a different block with the same, still authentic hash |
| `Types.SameHashSamePrevious` | src/core/block.rs:86-120 | Equal authentic block hashes force equal previous hashes |
| `Types.SigningCovers` | src/core/transaction.rs:155-170 | Two transactions have the same signing buffer if and only if they agree in outputs, time and the inputs but for signatures |
| `Merkle.Build` | src/crypto/merkle_tree.rs:22-73 | The level-building loops, odd ends doubled, give the tree whose root `RootOfTree` identifies with the fold of the leaf digests |
| `Merkle.GenerateProof` | src/crypto/merkle_tree.rs:93-124 | The recursive search pushing onto a shared path finds the leftmost leaf with the target, and leaves the path untouched where it fails |
| `Merkle.CreateProof` | src/crypto/merkle_tree.rs:154-180 | The flat loop with padding in place yields the siblings of the first occurrence on the way to the root, or nothing for an absent target |
| `Merkle.Validate` | src/crypto/merkle_tree.rs:137-151 | Accepts exactly the paths along which the digest climbs to the root |
| `Merkle.RootOfTree` | src/crypto/merkle_tree.rs:22-79 | The root of the tree is the root computed from leaf digests alone, layer by layer |
| `Merkle.GeneratorsAgree` | src/crypto/merkle_tree.rs:93-180 | Both generators give the same path, or both none, if and only if the list is nonempty or the target is not zero: duplicates and odd levels included |
| `Merkle.ProofsValidate` | src/crypto/merkle_tree.rs:137-180 | A proof exists exactly for leaves, and each validates against the root |
| `Merkle.RootBindsIds` | src/core/block.rs:208-220 | With a collision-free hash, id lists of equal length and equal root are equal |
| `Merkle.ProofSound` | src/crypto/merkle_tree.rs:137-151 | A validating path of the tree's height starts at one of the leaves |
| `Merkle.ServedProofValidates` | src/full_node/behavior.rs:173-191 | The proof served for a listed id validates if and only if all ids are their own leaf digests |
| `Utxos.UTXOs.ValidateTransaction` | src/core/utxo.rs:77-168 | Accepts exactly the transactions that are sealed and funded on the view (unspent, distinct, owned inputs; positive outputs; equal sums that fit), never panics, and each rejection tells the truth |
| `Utxos.SignatureBinds` | src/core/utxo.rs:113-152 | If a signature is good for one buffer only, two valid transactions that share a signed input agree in all that is signed, outputs included |
| `Utxos.OnlyAsSigned` | src/core/utxo.rs:77-168 | So the inputs of a valid transaction, signatures included, make another valid one if and only if outputs and time are the same and its id is the digest and meets the target |
| `Utxos.UTXOs.ExecuteTransaction` | src/core/utxo.rs:171-212 | Takes the inputs out of the view, puts every output in, and returns both with their values; succeeds whenever the inputs are there and distinct |
| `Utxos.UTXOs.RecallBlockUtxos` | src/core/utxo.rs:215-242 | Puts the spent outputs back, growing or recreating entries, and takes the created ones out; succeeds whenever the record fits the view |
| `Utxos.UTXOs.CalculateConfirmedBalance` | src/core/utxo.rs:245-263 | The balance is the total of the address's part of the view, whatever the iteration order, and overflows exactly when that total does |
| `Blocks.SoundExecutes` | src/core/utxo.rs:171-212 | Transactions all checked against the state before the block execute one after the other without a failing lookup, and leave that state minus all inputs plus all outputs |
| `Blocks.PermutationSound` | src/core/blockchain.rs:285-294 | Every permutation of sound transactions with fresh ids is sound and has fresh ids |
| `Blocks.OrderIrrelevant` | src/core/blockchain.rs:285-294 | Every permutation of a block's sound transactions with fresh ids executes and leaves the same unspent outputs |
| `Blocks.DiffRecords` | src/core/utxo.rs:12-29 | The joined undo records of a block hold each spent and each created output once, with its value |
| `Blocks.ExactUndo` | src/core/utxo.rs:215-242 | Recalling a block's record is possible and restores the unspent outputs from before the block |
| `Blocks.StaysFunded` | src/core/utxo.rs:77-168 | What was funded before a block is funded after it if and only if the block spends none of its inputs |
| `Blocks.BlockConserves` | src/core/blockchain.rs:230-281 | A block changes the total unspent amount by exactly the reward it mints |
| `BlockStores.BlockStore.AddBlock` | src/core/block_store.rs:103-160 | Appends block and record and indexes the hash; the indexes are inverse afterwards if and only if they were and the hash was not indexed, and the blocks lost to the index are those before and those with that hash; a block without a hash changes nothing |
| `BlockStores.BlockStore.PopBlock` | src/core/block_store.rs:162-209 | Removes exactly the top block, its record and its index entries, and keeps the indexes inverse; the lost blocks below stay lost |
| `BlockStores.BlockStore.GetBlockHeightByHash` | src/core/block_store.rs:256-266 | A height found carries the hash, whatever was added before; one is found if and only if a block that is not lost carries the hash |
| `BlockStores.BlockStore.GetBlockByHash` | src/core/block_store.rs:237-239 | So is a block found, if and only if one that is not lost carries the hash |
| `BlockStores.BlockStore.GetUtxoDiffsByHeight` | src/core/block_store.rs:275-282 | The record of the height, except that block 0 has none |
| `BlockStores.BlockStore.GetTransaction` | src/core/block_store.rs:311-324 | Finds a transaction with the id if and only if the chain holds one |
| `HashLinks.CommonPrefix` | src/core/blockchain.rs:198-201 | Equal hashes anywhere on two linked authentic chains force equal heights and equal hashes below |
| `HashLinks.HashesDistinct` | src/core/blockchain.rs:198-201 | The hashes of one linked authentic chain are pairwise distinct |
| `Indexes.FreshHashesLoseNothing` | src/core/block_store.rs:103-209 | Runs that add fresh hashes lose no block to the index |
| `Indexes.RepeatedHashExample` | src/core/block_store.rs:103-209 | Two empty blocks under one hash, both accepted from genesis with the check skipped, lose the first, also once the second is popped |
| `Difficulty.DifficultyState.UpdateDifficulty` | src/core/difficulty.rs:40-106 | Over exact reals the three fields become the next targets: the scaling of the source lands on whole-number scales |
| `Difficulty.CalculateLiveTransactionDifficulty` | src/core/difficulty.rs:141-157 | Over exact reals the decay is one five-hundredth less per pending transaction |
| `Difficulty.ComputeBlockDifficulty` | src/core/difficulty.rs:127-138 | Over exact reals the target that a block's hash must meet is the one that `BlockTargetMet` describes |
| `Difficulty.BlockTargetMet` | src/core/difficulty.rs:127-138 | A hash meets it if and only if it has 256 bits and is at most the block target and half a per cent more for each transaction |
| `Difficulty.OneStep` | src/core/difficulty.rs:40-106 | Bounds of one adjustment: 0.8 to 1.2 for transactions, 0.984821 to 1.05 for blocks after SCIP-2, up to flooring and the ceiling |
| `Difficulty.RestsAfterScip2` | src/core/difficulty.rs:41-73 | Past SCIP-2 the block target rests at 35 seconds, grows by a twentieth from 147 on, and shrinks to 0.984821 within one |
| `Difficulty.RestsBeforeScip2` | src/core/difficulty.rs:74-89 | Before it the block target rests at 20 seconds, grows by a fifth from 24 on and shrinks by a fifth up to 16 |
| `Difficulty.TxTargetRests` | src/core/difficulty.rs:91-101 | The transaction target rests at a hundred transactions, grows by a fifth up to 83 and shrinks by a fifth from 125 on |
| `Difficulty.ScaleAfterScip2Is` | src/core/difficulty.rs:42-62 | In between the scale is in proportion to 2205 seconds more than have passed, capped |
| `Difficulty.ScaleBeforeScip2Is` | src/core/difficulty.rs:74-83 | In between the scale is in proportion to the seconds passed, clamped at both ends |
| `Difficulty.TxScaleIs` | src/core/difficulty.rs:91-96 | In between the scale is a hundred transactions over their number, clamped at both ends |
| `Difficulty.TargetsOverRuns` | src/core/difficulty.rs:40-106 | Over every run of n blocks all targets fit 256 bits and the transaction target stays within 0.8^n t0 - 5 and 1.2^n t0 |
| `Difficulty.NextTargetsReadBack` | src/core/difficulty.rs:159-171 | Every stored target reads back as the number computed |
| `Difficulty.LiveTargetTightens` | src/core/difficulty.rs:141-157 | The live target is the base on an empty pool, never grows with the pool, and is zero when a full block is pending |
| `Difficulty.LiveTargetMet` | src/core/difficulty.rs:141-157 | An id meets the live target if and only if it is at most the base less a five-hundredth for each pending transaction |
| `Bytes.To32BytesReadsBack` | src/core/difficulty.rs:159-171 | The padded buffer spells the number modulo 2^256, so nothing is dropped from a number below it |
| `Economics.TotalReward` | src/core/economics.rs:78-84 | The accumulating loop sums the rewards below the height, without overflow of the sum, and answers exactly up to 64 halvings; past them the shift overflows |
| `Economics.TotalByEra` | src/core/economics.rs:71-84 | That sum is the closed form by eras |
| `Economics.TotalRewardBound` | src/core/economics.rs:71-84 | It is at most two full first eras plus one unit per block |
| `Economics.RewardNonIncreasing` | src/core/economics.rs:71-75 | A later block never earns more |
| `Economics.RewardSchedule` | src/core/economics.rs:71-75 | The reward is ten billion through the first million blocks, constant through each million, and half, one at least, in the next |
| `Economics.DevFeeIs` | src/core/economics.rs:86-89 | The developers' fee is two per cent, rounded down |
| `Ledgers.AcceptedExecutes` | src/core/blockchain.rs:208-290 | In every consistent state an acceptable block with fresh ids executes fully |
| `Ledgers.AcceptedInNumbers` | src/core/blockchain.rs:181-290 | Every accepted block has at most 500 transactions, its filter and its Merkle root; each transaction is small, recent, signed by the owners, balanced and within the target, and a reward pays its height's amount with two per cent to the developers |
| `Ledgers.DifficultiesMet` | src/core/block.rs:142-206 | A block passes the difficulty checks if and only if it states the node's targets and its hash is at most the block target and half a per cent more for each transaction |
| `Ledgers.HashNamesBlock` | src/core/block.rs:86-220 | Among all blocks accepted anywhere with hashes and ids checked, equal hashes mean equal blocks |
| `Ledgers.RootNamesTransactions` | src/core/block.rs:208-220 | Among those with as many transactions, equal Merkle roots mean equal transactions |
| `Ledgers.NextKeeps` | src/core/blockchain.rs:181-350 | One add or pop keeps the state equal to a replay of the active blocks |
| `Ledgers.HistoryIndependence` | src/core/blockchain.rs:181-350 | So does every interleaving of adds and pops; and a state that is a replay in clock and block target too stays one if the chain is never emptied (`Clocks.ReplayFrom` says exactly when) |
| `Clocks.StateIsReplay` | src/core/blockchain.rs:181-350 | After every run from genesis, unspent outputs, undo records and transaction target are those of a replay of the active blocks; the whole state is, if and only if the clock left by the last emptying is harmless |
| `Clocks.ReplayFrom` | src/core/blockchain.rs:181-350 | The same from every consistent state, whatever clock its first block was added on |
| `Clocks.RunClocked` | src/core/difficulty.rs:40-106 | After every run targets, clock and what the active blocks state are those of a start at the time that the last emptying left |
| `Clocks.NodeStateIsReplay` | src/core/difficulty.rs:40-106 | For the node's rule the condition is a threshold of 35 or 20 seconds between that clock and the first active block |
| `Ledgers.PopUndoesAdd` | src/core/blockchain.rs:306-350 | Popping what was added restores the state if and only if a block remains or the clock already showed its time |
| `Clocks.StaleClockChangesTarget` | src/core/blockchain.rs:333-339 | Add, pop, add of two blocks that genesis would accept leaves a state that is a replay if and only if the second comes late enough after the first |
| `Clocks.StaleClockExample` | src/core/blockchain.rs:333-339 | Two empty blocks of any two times are such a run, and show the failure when the second comes too early |
| `Ledgers.Conservation` | src/core/blockchain.rs:230-290 | After every run the unspent total is the sum of the rewards minted by active blocks, and fits a u64 within 64 halvings |
| `Ledgers.BalancesFit` | src/core/utxo.rs:245-263 | So no address's balance overflows |
| `Ledgers.NoDoubleSpendInHistory` | src/core/utxo.rs:113-152 | After every run no output is spent by two blocks or twice in one, and each spent one was created, with that value, by an earlier block |
| `Blockchains.Blockchain.CheckMeta` | src/core/block.rs:142-220 | Accepts exactly the blocks with authentic hash (unless skipped), filter, complete transactions, Merkle root and the node's targets |
| `Blockchains.Blockchain.CheckReward` | src/core/blockchain.rs:230-281 | Accepts exactly a reward with an id, two or more outputs, the exact amount and the developers' fee among them |
| `Blockchains.Blockchain.CheckTransactions` | src/core/blockchain.rs:208-283 | Accepts exactly if every transaction passes alone, no two share an input and at most one is a reward; each rejection names a transaction or a pair that is at fault |
| `Blockchains.Blockchain.AddBlock` | src/core/blockchain.rs:181-303 | Succeeds exactly on acceptable blocks that execute, and then extends chain, records, unspent outputs and targets together; an unacceptable block changes nothing; the indexes are inverse afterwards if and only if they were and the hash was not indexed |
| `Blockchains.Blockchain.PopBlock` | src/core/blockchain.rs:306-350 | Shrinks all four together, or changes neither store nor targets |
| `Blockchains.AcceptedHashIsNew` | src/core/blockchain.rs:198-201 | On an authentic chain an acceptable block whose hash is checked carries no active block's hash, and the chain stays authentic |
| `Blockchains.CheckedHashesAreFresh` | src/core/blockchain.rs:181-350 | Along every run that checks hashes, accepted blocks bring fresh hashes |
| `Blockchains.CallAll` | src/core/blockchain.rs:181-350 | Any sequence of calls, failing ones included, is the run of the ledger; no call panics and each succeeds exactly if its block is acceptable or a block is there to pop; the indexes are inverse afterwards if and only if the run leaves no block lost, which fresh hashes ensure |
| `Sync.FindFork` | src/full_node/sync.rs:44-78 | Finds the highest height in the search window whose block hash the peer knows, or none |
| `Sync.StoreAnswers` | src/full_node/behavior.rs:140-143 | A node's answer by hash is the last active block with the hash, and there is one whenever the indexes are inverse |
| `Sync.SyncToPeer` | src/full_node/sync.rs:29-123 | Whatever the peer answers, pops at most down to a shared block among the top 29, keeps everything below it, and adds what is sent in order; Ok against an honest full node means the local chain is exactly the peer's first blocks; no fork point is reported exactly if the peer holds no block of the window |
| `Sync.SyncAndStay` | src/full_node/sync.rs:29-123 | If what is sent has fresh ids, a node whose state is a replay of its active blocks still has one afterwards, errors included |
| `Sync.ForkIsShared` | src/full_node/sync.rs:44-78 | A local block hash known to an honest peer means a shared prefix |
| `Sync.SharedBlocks` | src/full_node/sync.rs:44-78 | With authentic ids the blocks below it are the same blocks |
| `Sync.SyncedChainsEqual` | src/core/block.rs:86-120 | Authentic chains with equal hashes and authentic ids are equal block by block |
| `PeerLink.AnswersRequests` | src/full_node/behavior.rs:34-241 | Exactly the request commands are answered, with the id kept, the own version and the paired command; a connection of version 4 or later is acknowledged with flags |
| `PeerLink.StepKeeps` | src/node/peer.rs:93-248 | Every task step at either end keeps the invariant of the link |
| `PeerLink.ExactlyOneStage` | src/node/peer.rs:207-248 | Every issued id is in exactly one stage on its way out and back, and no other id is in any |
| `PeerLink.DeliveredOncePaired` | src/node/peer.rs:93-112 | A response reaches the requester of its id once, with the paired command, and the id is no longer pending |
| `PeerLink.NeverUnhandled` | src/full_node/behavior.rs:34-241 | What is handed to `on_message` is never a response |
| `PeerLink.NothingLost` | src/node/peer.rs:133-248 | With bounded queues and a bounded wire some task can move if and only if an end is not idle and not all is full; once both are idle every request has been answered |
| `PeerLink.StuckUnderLoad` | src/node/peer.rs:133-248 | All is full only under twice 66 outstanding requests and two for each message the wire holds one way |
| `PeerLink.GetsStuck` | src/node/peer.rs:207-248 | For every capacity of the wire a run leads to where all is full and no task can move |
| `PeerLink.RunsEnd` | src/node/peer.rs:207-248 | Without new requests every run has at most eight moves for each outstanding request |
| `PeerLink.FallsIdle` | src/node/peer.rs:207-248 | So it comes to rest, and under less load than fills the link it rests idle, with every request answered |
| `PeerLink.EveryRun` | src/node/peer.rs:207-248 | All of this in every state of every run, at both ends |
| `PeerLink.ReadInOrder` | src/node/peer.rs:207-248 | In every state of every run each end has read a front part of what the other queued, in that order |
| `Wallet.GetAvailableTransactionOutputs` | src/core/blockchain_ext.rs:66-102 | Lists exactly the unspent outputs of the address, each once |
| `Wallet.TakeCoins` | src/lib.rs:122-129 | Takes a shortest covering prefix of the coins, or all of them |
| `Wallet.BuildTransaction` | src/lib.rs:96-165 | Reports missing funds exactly when the kept coins sum below the target, too much IO exactly when inputs and outputs exceed the limit; otherwise every receiver is paid as asked, the rest goes back to the sender, and each selected coin, none of them ignored, is spent once, smaller amounts first |
| `Wallet.KeptMembers` | src/lib.rs:109-119 | A coin is kept if and only if it is listed and no ignored input names it |
| `Wallet.KeptConcat` | src/lib.rs:109-119 | The kept coins are in the order of the list |
| `Wallet.BuiltIsValid` | src/lib.rs:96-165 | For positive amounts and a receiver, what is built passes validation on the same unspent outputs, if and only if its id is its digest and meets the target |
| `Wallet.FundsAreTheBalance` | src/lib.rs:109-136 | With nothing ignored, what can be raised is the confirmed balance |
| `Wallet.BiggestFirstIfListed` | src/lib.rs:94-129 | Whatever is paid the biggest coins are used first, if and only if the coins are listed in descending order |
| `Wallet.SmallCoinFirst` | src/lib.rs:94-129 | A coin of 1 listed before one of 2 is used and the bigger one is not |
| `BlockBuilding.BuildBlock` | src/lib.rs:171-241 | Adds a reward to complete transactions that leave room: two per cent to the developers, rounded down, the rest to the miner, under an id that meets the transaction target; and lays the block out on top of the chain |
| `BlockBuilding.RewardPaysMiner` | src/lib.rs:178-194 | At every height the reward pays the miner at least 98 per cent |
| `BlockBuilding.ComputePow` | src/core/transaction.rs:129-153 | The search ends on a drawn nonce whose digest meets the target, and changes nothing but nonce and id |
| `BlockBuilding.BuiltIsAccepted` | src/lib.rs:171-241 | Once mined, the block is acceptable if and only if its hash meets the target and the chosen transactions are valid, conflict-free and timely |
| `BlockBuilding.AnyPickIsChoosable` | src/full_node/mod.rs:240-258 | Any pending transactions, in any order and after any history of the pool, pass a block's input and double-spend checks if each is still valid alone |
| `MemPools.MemPool.GetMempool` | src/node/mempool.rs:52-59 | Lists the buckets in order of expiry |
| `MemPools.MemPool.ValidateTransaction` | src/node/mempool.rs:71-83 | True exactly if no pending transaction shares an input |
| `MemPools.MemPool.MempoolSize` | src/node/mempool.rs:103-109 | The number of transactions listed, whatever the order of summing |
| `MemPools.AddInserts` | src/node/mempool.rs:63-68 | Adding inserts one transaction into the listing and moves nothing else |
| `MemPools.AddedByExpiry` | src/node/mempool.rs:52-68 | It is placed behind all that expire no later and before all that expire later |
| `MemPools.ExpiryDropsFront` | src/node/mempool.rs:23-49 | Expiry drops a front part of the listing |
| `MemPools.ExpiresOnTime` | src/node/mempool.rs:23-68 | An admitted transaction is pending exactly until 350 seconds are over |
| `MemPools.ListedByExpiry` | src/node/mempool.rs:23-59 | At any time the listing is what has expired by then followed by the rest |
| `MemPools.SpendFilters` | src/node/mempool.rs:86-101 | Spending filters the listing, empty buckets removed |
| `MemPools.NeverConflicting` | src/node/mempool.rs:52-113 | After every sequence of admissions, expiries, spends and clears no two pending transactions share an input |
| `MemPools.SplitAdmissionConflicts` | src/full_node/mod.rs:247-258 | Adding two transactions that each passed the check keeps the pool conflict-free if and only if they share no input, whenever they expire |
| `MemPools.InterleavedAdmissions` | src/full_node/mod.rs:247-258 | Over every interleaving of checks, additions and other calls, no conflict ever arises if and only if each passing check also clears what is checked and not yet added |
| `MemPools.AtomicAdmission` | src/full_node/mod.rs:247-258 | A check directly followed by its addition is the pool's atomic admission |
| `FullNodes.Node.AcceptTransaction` | src/full_node/mod.rs:215-280 | A transaction not seen before is admitted exactly if it meets the live target, is timely, valid and conflict-free; the pool changes only then, each refusal tells the truth, and the id is remembered either way |
| `FullNodes.AdmissibleInNumbers` | src/full_node/mod.rs:215-258 | Admissible means valid, at most 350 seconds off either way, within the target less a five-hundredth for each pending transaction, and no input pending |
| `FullNodes.Node.AcceptBlock` | src/full_node/mod.rs:162-212 | A block not just seen is accepted exactly if timely, acceptable and executable; then the chain extends and its transactions leave the pool, otherwise pool, blocks and targets stay; the hash is remembered either way |
| `FullNodes.AcceptTransactionTwice` | src/full_node/mod.rs:215-233 | A complete transaction sent twice is answered Ok the second time, though a refused one is still not in the pool |
| `FullNodes.AcceptBlockTwice` | src/full_node/mod.rs:162-180 | A block with a hash sent twice is answered Ok the second time, though a refused one is still not on the chain |
| `FullNodes.NewestRemembered` | src/full_node/node_state.rs:74-90 | Whatever ids arrive, the list holds the 500 that were new last, oldest first |
| `FullNodes.StaysRemembered` | src/full_node/node_state.rs:74-90 | So an id stays on the list until 500 newer ones came |
| `FullNodes.PoolAfterBlock` | src/full_node/mod.rs:183-193 | Exactly the transactions whose ids are not in the block remain pending |
| `NodeRuns.NodeRunKeeps` | src/full_node/mod.rs:162-280 | Over every run of a node, transactions, blocks, expiry and reorganisations in any order, its chain state is a run of the ledger and consistent, its pool conflict-free and its memory bounded |
| `NodeRuns.PendingAfterBlock` | src/full_node/mod.rs:176-193 | When a block joins, only its own transactions leave the pool, and of the valid others exactly those stay valid that share no input with it and still meet the transaction target |
| `NodeRuns.PicksAtAnyTime` | src/full_node/mod.rs:240-258 | At any time of any run, any pending transactions that are valid alone and timely pass a block's checks together |
| `NodeRuns.HandlePing` | src/full_node/behavior.rs:57-85 | A ping that claims two blocks more than are here empties the pool and synchronises; the state afterwards is that of the pops and adds, and the last block added is the last one seen; any other ping changes nothing |
| `NodeRuns.HandleAll` | src/full_node/behavior.rs:57-131 | Whatever arrives the node object stays valid, and from a sane state and with fresh ids it goes through exactly that run |
| `Paging.CollectPages` | src/client.rs:84-111 | The joined pages are the list, once and in order, exactly when the last page is within u32 |
| `Paging.TransactionsOfAddress` | src/full_node/api_server.rs:76-118 | The scan with early exit answers the slice of the filtered chain; another page is announced exactly when this one is filled; an id missing on the page is an error |
| `Paging.GetTransactionsOfAddress` | src/client.rs:185-221 | The client gathers all ids of the address once, newest block first, up to its page limit |
| `Paging.AskedPages` | src/client.rs:185-221 | A limit of pages asks for what is on so many pages, the first one in any case, and for nothing else |
| `Paging.PagedHistory` | src/full_node/api_server.rs:86-107 | The list that is paged holds exactly the address's transactions, those of later blocks before those of earlier ones |
| `Filter.AddressInclusionFilter.Insert` | src/crypto/address_inclusion_filter.rs:61-69 | Sets exactly the address's positions and no other bit |
| `Filter.AddressInclusionFilter.Contains` | src/crypto/address_inclusion_filter.rs:71-82 | True exactly if all positions are set; never for an empty filter |
| `Filter.CreateFilter` | src/crypto/address_inclusion_filter.rs:26-55 | The set bits are exactly the positions of the addresses of the transactions |
| `Filter.WhatIsFound` | src/crypto/address_inclusion_filter.rs:57-82 | Every inserted address is covered; an address is covered exactly if inserted ones share each of its positions |
| `Filter.SearchBlock` | src/crypto/address_inclusion_filter.rs:26-82 | No false negatives for any size and hash function |

## Left out

- RandomX, SHA-256 and ed25519 themselves: unknown functions in `Env`.
- Encodings, database files, temporary files and what a crash leaves behind: stores are maps, and a write does not fail.
- Difficulty.DifficultyState.UpdateDifficulty: exact reals, so not the block scale one millionth lower that truncation of floats gives at elapsed times of 56, 91 and 126 seconds.
- Difficulty.CalculateLiveTransactionDifficulty: exact reals, so not the scale one millionth lower at pool sizes such as 33.
- Difficulty.ComputeBlockDifficulty: exact reals, so not the scale one thousandth lower at some counts of transactions, such as one.
- The developers' fee is a whole division by 50, and the size and hash count of an address filter are arguments.
- Overflow of `timestamp + 350` in u64: timestamps are unbounded from above.
- Economics.GetBlockReward: does not model heights of 64 halvings and more, where the source's shift overflows; the model shifts on to zero.
- FullNodes.Node.AcceptTransaction: models one task at a time; how tasks interleave is modelled on the pool alone (`InterleavedAdmissions`), and not against a block that arrives meanwhile.
- FullNodes.Node.AcceptBlock: takes one clock reading per call, and leaves out broadcasting and forwarding.
- FullNodes.Node.AddLastSeenTransaction: the channel that holds the list is a plain field.
- Filter.AddressInclusionFilter: the filter inside a block header is only compared, through `Env.filterOf`; the bit-level filter is a model of its own.
- Sync.SyncToPeer: the peer's chain does not change while it is read, and timeouts are a peer that does not answer.
- Paging.CollectPages: the list does not change between pages.
- BlockBuilding.ComputePow: takes the drawn nonces as an argument, one of which hits; the difficulty margin is left out.
- The handshake, TCP, kill signals, timeouts, the ping task, reconnection and bans: the link starts established, and a link
  at a standstill stays as it is until a request to it times out.
- NodeRuns.HandlePing: one task at a time; the flag that keeps a second reorganisation and blocks out meanwhile is not modelled.
- Message payloads: the link model keeps ids and command kinds.
- The light node, initial download from several peers, quorum requests, the mining loops, chain event subscriptions and logging.
