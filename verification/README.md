# BlackChain node: a verified model

This project models the ledger of the BlackChain node and the protocols around it, and proves what
they keep over whole runs. It covers

- the ledger state machine: block application, the buffer for a block that arrives one early, the
  pending pool, the proposer, depth-two finality, the block directory and snapshots
  (`internal/mesh/chain_core.go`, `chain_persist.go`, `chain_snapshot.go`);
- the Merkle commitment a block header makes to the balances (`internal/mesh/merkle_balances.go`);
- the vote finalizer and a network of finalizers (`internal/consensus/finalizer.go`);
- the HTTP token bucket (`internal/mesh/http_ratelimit.go`);
- gossip flooding (`internal/mesh/gossip.go`, `internal/mesh/messages.go`).

`dafny verify dfyconfig.toml` checks everything.

## How it is built

| file | holds |
|---|---|
| `Wrappers`, `Sets`, `Text`, `Heights`, `Accounts` | options, finite sets, decimal text and byte order, sorted heights, account maps modulo zero accounts and their total |
| `Merkle`, `Blocks`, `Rewards` | the commitment; transactions, blocks, cryptography and errors; issuance and fee split |
| `Execution`, `Mempool`, `Ledger` | checked execution against unchecked prediction; compaction; every ledger operation as a function on `Chain` |
| `History`, `Replay`, `Agreement`, `Runs`, `Proposing`, `DeliveryOrder`, `Theorems` | invariants, restart and snapshots, what a tip pins down, all runs, the proposer, delivery order, the main results |
| `Node` | the class `ProductionChain`, whose loops and in-place updates are proved to compute the functions of `Ledger` and `Replay` |
| `Finality`, `RateLimit`, `Gossip` | the three protocol pieces, each with its class |

The node carries three executions of the same transfers: the scratch-map run that commits a block,
the unchecked run that predicts the root its header commits to, and the shadow run that compacts the
pool. Each is proved equal to a sequential execution, and the results above them compare those.

## What is assumed

- Ed25519 (section 5.1 of RFC 8032) and SHA-256 (section 6.2 of FIPS 180-4) are the function
  parameters of `Crypto`. Every result holds for every choice of them. Only results about blocks a
  validator builds assume that its key pair verifies its own signatures, only the agreement of nodes
  with equal tips assumes that block hashes do not collide, and only the refusal of tampered snapshots
  that the accounts and snapshot hashes do not.
- In `Merkle` hashing is free: digests are equal only when built alike. The code has no domain
  separation between leaves and inner nodes, so this is an assumption about SHA-256.
- The clock, the answer of the peer quorum, the wallet, the keys and the success of each disk write
  are inputs. The peer table behind the quorum is never filled in the code, so the progress results
  ask for a yes where the code asks the quorum, and the safety results allow any answer.
- A state is reachable when deliveries, submissions, proposals and restarts lead to it from an empty
  chain, without loading a snapshot. A restart among these events loads the directory, a second time
  if the first start halts, and its own writes succeed; what a failed write does to a restart is
  `Theorems.RestartAfterAnyRun`.
- A gossip node is known to its peers by its own name: the source sets the name to the address it
  listens on, and peers list that address.
- A failed disk write leaves the directory as it was. Strings are byte strings; a Dafny `char` is
  one byte. Time counts nanoseconds from Go's zero time.

## Where the code does not meet a plain reading

- `applyBlockLocked` adds every fee twice before it splits fees for the treasury, so from height 1279
  on the accounts after a block with more than 5 in fees are not those its header commits to. The
  exact condition and difference are proved (`Ledger.PredictionRefinesExecution`,
  `Ledger.PredictionOffByTreasury`). A comment in the source calls the treasury inactive; the code
  activates it at that height, and the model follows the code.
- A block is written to disk before its transfers run. One that then fails stays there, and the next
  start halts on it and moves it away. Replay ends without error exactly when there is no such file
  (`Theorems.RestartAfterAnyRun`, `Theorems.RefusedBlockHaltsRestart`).
- Replay writes every block it reads again, and takes a write that fails for a corrupt file: the file
  of a committed block is moved away and the start halts short of the tip. The chain comes back whole
  exactly when all those writes succeed (`Theorems.RestartAfterAnyRun`).
- Startup replays the files above a snapshot and then all files from the first one on. The launch
  runbook (`docs/production/LAUNCH_CANDIDATE_RUNBOOK.md:12`) expects both to succeed; the second halts
  unless there are no files (`Theorems.SnapshotHaltsStartup`).
- The finalizer ignores a failed write of its state, and a restart can then forget a refusal. Exactly
  when the point on disk refuses as well is a refusal for good (`Finality.RefusalSurvivesRestarts`,
  `Finality.UnsavedPointIsForgotten`). Its field comment says
  ceil(2/3 N); the code, and the model, use floor(2N/3)+1.
- A token bucket that is collected after ten idle minutes comes back full, so the rate bound holds
  exactly when the burst refills within that time (`RateLimit.BoundExact`, `RateLimit.CollectionExact`).
- The consensus API document says block hashes cover the signature; the code hashes validator,
  balances root, height, previous hash, time, producer and transactions, and the model follows it.

## Model

| member | source | states |
|---|---|---|
| Theorems.AppendOnlyHistory | internal/mesh/chain_core.go:546-552 | In every reachable state the block keys are exactly 1..height, each block is filed under its height, hashes to its hash, names the hash of its predecessor and is strictly younger than every earlier block; the tip is the last hash; finality is max(0, height-2) with every block up to it flagged; and no later event changes a committed block except by raising its flag |
| Theorems.CommittedIsSigned | internal/mesh/chain_core.go:398-450 | In every reachable state every committed block carries a valid signature of the validator it names over its hash and at most 64 transactions, each signed for its sender, recipient, amount and nonce, with a positive amount between two parties, no negative fee and fields within the limits; no two of a block share an identifier or sender and nonce |
| Theorems.SupplyAccounting | internal/mesh/chain_core.go:493-544 | Over every run no balance or nonce is negative and all coins equal the block rewards 1..height plus, for blocks after the fee fork, the sum of ceil(F/5)-ceil(F/10); the rewards are at most 9,100,000 plus the height, and below height 1279 there is no surplus |
| Theorems.AcceptedBlockPays | internal/mesh/chain_core.go:493-544 | At every account an accepted block adds the transfers received less those sent with their fees, one nonce per transaction sent, for the payout address the reward and the fees less ceil(F/10) from height 1279 on, and for the treasury ceil(F/5) from that height on |
| Theorems.NoTransactionReplay | internal/mesh/chain_core.go:504-530 | Over every run an account nonce is the number of its committed transactions, whose nonces read 0,1,2,... in chain order, and no two committed transactions share sender and nonce |
| Theorems.MempoolInvariant | internal/mesh/chain_core.go:260-305 | In every reachable state the pool has at most 256 entries, one per sender, each verified and spending the committed nonce from the committed balance, with both indexes exact; compacting it drops nothing below 256 entries and exactly the fees below 2 at 256 |
| Theorems.AdmissionIsExact | internal/mesh/chain_core.go:283-305 | In every reachable state a transaction is admitted if and only if it is signed, well formed and within the limits, spends the next nonce from a sufficient balance, pays at least 1, there are fewer than 256 pending, and none of them has its sender or identifier; it goes to the end of the pool |
| Theorems.AcceptedBlockKeepsPending | internal/mesh/chain_core.go:307-372 | A block accepted in a reachable state drops a pending transaction if and only if its nonce is no longer the next, its sender can no longer pay, or the pool was full and it pays less than 2; the rest stays in order, and senders the block does not move can lose a transaction for the fee only |
| Theorems.ProposerCompleteness | internal/mesh/chain_core.go:870-974 | In every reachable state a proposer with matching keys, a wallet, a write of its block that succeeds, a clock past the last block and at most two minutes ahead, and no buffered block in the way gets its block applied and raises the height, before and after the fee fork |
| Theorems.DeliveryOrderSafetyAndProgress | internal/mesh/chain_core.go:556-682 | Blocks of one valid chain delivered in any order with any repetition, under any clock, quorum answer and disk, mixed with any transactions and restarts: the node is always at the fold of some prefix k modulo zero accounts and buffers at most block k+2; one in-order pass that clock, quorum and disk let through then reaches the end |
| Theorems.SwappedNeighboursComplete | internal/mesh/chain_core.go:621-682 | A valid chain whose blocks arrive with any disjoint pairs of neighbours swapped, after whatever went before, takes the node to its end under fair clock, quorum and disk: a block that is one early waits in the buffer |
| Theorems.DeliveryIsExact | internal/mesh/chain_core.go:556-643 | In every reachable state a delivered block passes the first checks if and only if it meets the spelled-out conditions on quorum, height, time, hash, signature and form, and otherwise changes nothing; it is applied if and only if it is, besides, the next block, can be written and is accepted, and buffered, with its block then in the buffer, if and only if it is the one after and none is |
| Theorems.AppliedGuarantees | internal/mesh/chain_core.go:556-629 | An applied proposal extends the tip, is strictly younger than it and at most two minutes ahead of the clock, is signed by the validator it names, was not outvoted, commits to the predicted accounts and is in the chain afterwards |
| Theorems.RestartAfterAnyRun | internal/mesh/chain_persist.go:83-105 | Loading the block directory of any reachable state in a fresh node, which writes every block again, rebuilds height, tip, blocks, finality and accounts modulo zero accounts if and only if each of those writes succeeds; it ends without error if and only if, besides, no block of the next height is left on disk; with working storage the node always comes up again with the same chain |
| Theorems.SnapshotAfterAnyRun | internal/mesh/chain_snapshot.go:69-155 | A snapshot of any reachable state is valid, restores height, tip and accounts and leaves no block, buffered block or pending transaction behind; loaded later under the block files above it, it gives the ledger of that later state if and only if those files can be written again, and ends without error if and only if, besides, no refused block is left |
| Theorems.TamperedSnapshotIsRefused | internal/mesh/chain_snapshot.go:223-251 | With accounts hash and snapshot hash free of collisions, a snapshot that carries the snapshot hash of an export of a reachable state passes validation if and only if it is that export; any other leaves the node as it was |
| Theorems.SnapshotHaltsStartup | internal/mesh/daemon_bridge.go:238-251 | A start that finds a snapshot of an earlier state beside the block files of any reachable state halts, if and only if there is any block file |
| Theorems.RefusedBlockHaltsRestart | internal/mesh/chain_core.go:464-515 | In every reachable state, a block any validator with matching keys builds around one signed, well-formed transaction its sender cannot execute is refused for that reason after it was written to disk, the height stays, and the next load of the directory halts |
| Theorems.ForkBlockMissesCommitment | internal/mesh/chain_core.go:538-544 | For any validator with matching keys, any n of at least 1278 and any signed transaction of its wallet with nonce 0, a fee above 5 and an amount it can pay, there is a valid chain of n+1 blocks ending with that transaction whose accounts do not have the root the last header commits to |
| Theorems.TipDeterminesLedger | internal/mesh/chain_core.go:191-213 | Two nodes with the same tip, whatever runs brought them there, have the same height, the same block headers at every height and the same accounts modulo zero accounts, if block hashes do not collide |
| Theorems.ValidChainsExist | internal/mesh/chain_core.go:939-964 | Valid chains of every length exist, built by any validator with matching keys, and pay their rewards to its wallet |
| Merkle.RootExact | internal/mesh/merkle_balances.go:20-78 | Under free hashing two account maps have the same root if and only if they agree on every account that is not zero, whatever their sizes and despite the duplicated last node |
| Merkle.ListingUnique | internal/mesh/merkle_balances.go:42 | Sorting by address leaves one possible list, so map order and sorting algorithm do not show in the root |
| Merkle.LeafTextInjective | internal/mesh/merkle_balances.go:52 | The leaf text address, balance, nonce splits back in one way, even when the address contains newlines |
| Merkle.LevelInjective | internal/mesh/merkle_balances.go:61-73 | Pairing a level loses nothing on lists without repetition: a duplicated last node is never mistaken for a pair |
| Merkle.ReduceInjective | internal/mesh/merkle_balances.go:60-77 | Equal roots come from equal leaf lists, also of different lengths |
| Merkle.CollectEntries | internal/mesh/merkle_balances.go:27-40 | The collected list holds exactly the non-zero accounts, in any map order |
| Merkle.SortByAddress | internal/mesh/merkle_balances.go:42 | Sorting gives the unique ascending list of the accounts |
| Merkle.LeafLevel | internal/mesh/merkle_balances.go:50-57 | One leaf per entry, in order |
| Merkle.PairLevel | internal/mesh/merkle_balances.go:61-73 | The inner loop pairs neighbours and duplicates an odd last node |
| Merkle.MerkleBalancesRoot | internal/mesh/merkle_balances.go:20-78 | The code computes the root of the map, independently of iteration order and of zero accounts, and its loop terminates |
| Text.FormatIntInjective | internal/mesh/tx_signing.go:132-136 | Base-10 formatting is injective on all integers |
| Text.SplitLastField | internal/mesh/merkle_balances.go:52 | A field without the separator splits off the right end of a text in one way only |
| Text.SplitFirstField | internal/mesh/chain_snapshot.go:270 | A field without the separator splits off the left end of a text in one way only |
| Blocks.SenderNonceKeyInjective | internal/mesh/chain_core.go:260-262 | Two transactions have the same pool key if and only if they have the same sender and nonce, whatever characters addresses contain |
| Rewards.SplitFeesExact | internal/mesh/chain_core.go:108-115 | The split hands out exactly the fees; the treasury gets ceil(F/10), and ceil(F/5) when given the fees twice |
| Rewards.SurplusZero | internal/mesh/chain_core.go:538-544 | The treasury surplus is never negative and is zero exactly below height 1279 or for fees of at most 5 |
| Rewards.RewardByEra | internal/mesh/chain_core.go:73-89 | The shifted reward is 50, 25, 12, 6, 3 in the first five eras of 100,000 blocks and 1 ever after |
| Rewards.RewardSumIsIssued | internal/mesh/chain_core.go:73-89 | The sum of rewards has a closed form |
| Rewards.IssuanceBound | internal/mesh/chain_core.go:73-89 | The rewards of heights 1..h sum to at most 9,100,000+h, with equality if and only if h is at least 500,000 |
| Execution.ExecuteSame | internal/mesh/chain_core.go:475-524 | On ledgers equal modulo zero accounts a list of transfers succeeds or fails alike, for the same reason, touching the same accounts, and leaves equal ledgers |
| Execution.ExecuteExact | internal/mesh/chain_core.go:493-524 | A list of transfers executes if and only if each is well formed, carries its sender next nonce after those before it and is covered by what they leave its sender |
| Execution.FailureExact | internal/mesh/chain_core.go:475-515 | A list fails at its first transfer that fails after those before it, for its reason, having looked up the parties so far |
| Execution.ExecuteSplit | internal/mesh/chain_core.go:493-524 | A list of transfers executes exactly if its front does and its back does on the result |
| Execution.ExecutedFees | internal/mesh/chain_core.go:764-775 | Where the checked execution succeeds, the unchecked prediction of the transfers and of the fees agrees with it |
| Execution.ExecuteNonNegative | internal/mesh/chain_core.go:493-530 | Executed transfers keep balances and nonces non-negative |
| Execution.ExecuteNonces | internal/mesh/chain_core.go:504-524 | The nonces an account spends in a list of transfers are consecutive from its old nonce to its new one |
| Execution.ExecuteNet | internal/mesh/chain_core.go:504-524 | Executed transfers change a balance by what it receives less what it sends and the fees |
| Execution.ExecuteBystander | internal/mesh/chain_core.go:493-524 | An account that sends nothing keeps its nonce and loses nothing |
| Execution.PredictTxsTotal | internal/mesh/chain_core.go:764-775 | Predicted transfers destroy exactly the fees |
| Execution.PredictTotal | internal/mesh/chain_core.go:764-796 | The predicted ledger grows by exactly the block reward at every height, for well-formed transactions with non-negative fees |
| Execution.SettleTotal | internal/mesh/chain_core.go:532-544 | Settling a block adds its fees, its reward and the treasury surplus to the total |
| Execution.ExecutionAgainstPrediction | internal/mesh/chain_core.go:532-544 | At every account, execution and prediction of a block differ only at the treasury, by the surplus |
| Execution.ExecutionMeetsPrediction | internal/mesh/chain_core.go:748-799 | Execution equals prediction modulo zero accounts if and only if the height is below 1279 or the fees are at most 5 |
| Execution.PredictReflectsSame | internal/mesh/chain_core.go:748-799 | Two ledgers are equal modulo zero accounts if and only if their predictions for a block are |
| Mempool.KeepSound | internal/mesh/chain_core.go:332-367 | Whatever the pool held, what compaction keeps is valid, one per sender and without repeated identifiers |
| Mempool.CompactRuns | internal/mesh/chain_core.go:307-372 | Every prefix of the compacted pool executes in sequence on the committed accounts |
| Mempool.CompactExact | internal/mesh/chain_core.go:332-367 | On any ledger, a pool with one transaction per sender loses exactly what does not validate, in order: the duplicate checks and the shadow run drop nothing more |
| Mempool.CompactIsFeeFilter | internal/mesh/chain_core.go:332-367 | On a sound pool compaction filters by fee alone |
| Mempool.CompactPrecise | internal/mesh/chain_core.go:307-372 | Compacting a sound pool drops nothing below 256 entries and exactly the fees below 2 at 256 |
| Mempool.CompactIdempotent | internal/mesh/chain_core.go:307-372 | Compacting any pool twice is compacting it once |
| Mempool.PoolSurvives | internal/mesh/chain_core.go:549 | Pending transactions outside a block stay valid after it |
| Mempool.KeysExact | internal/mesh/chain_core.go:273-281 | The sender index of a sound pool maps each pending key to its transaction and nothing else |
| Ledger.ScanExact | internal/mesh/chain_core.go:405-427 | The first pass lets a list of transactions through if and only if all verify and fit and no two share an identifier or sender and nonce |
| Ledger.AcceptsExact | internal/mesh/chain_core.go:398-524 | A block is accepted if and only if it meets the spelled-out conditions on height, predecessor, time, hash, signature, transactions, reward and balances root |
| Ledger.BlockEffect | internal/mesh/chain_core.go:493-544 | What an accepted block does to each account |
| Ledger.PredictionRefinesExecution | internal/mesh/chain_core.go:394-554 | For every accepted block the accounts left equal those its header commits to, modulo zero accounts, if and only if the height is below 1279 or the fees are at most 5 |
| Ledger.PredictionOffByTreasury | internal/mesh/chain_core.go:532-544 | Otherwise they differ at the treasury account only, by ceil(F/5)-ceil(F/10) |
| Ledger.AcceptanceMeansAgreement | internal/mesh/chain_core.go:464-470 | If two nodes accept the same block, their ledgers were equal modulo zero accounts before it and are after it |
| Ledger.LateRefusal | internal/mesh/chain_core.go:471-515 | A block refused after its write stays on disk; the accounts of its transfers up to the one that failed stay created, and nothing else changes |
| Ledger.RefusedFacts | internal/mesh/chain_core.go:471-515 | A refused block changes nothing but zero accounts and possibly the file of its height, which then is the next height |
| History.AppendKeepsHistory | internal/mesh/chain_core.go:546-552 | Appending an accepted, younger block keeps the whole shape of the history and changes no earlier block but for finality flags |
| History.AppendFinality | internal/mesh/chain_core.go:813-831 | Finality advances to max(0, height-2) and flags every block up to it |
| History.AcceptedIsSealed | internal/mesh/chain_core.go:398-450 | An accepted block is signed, has at most 64 transactions, and all of them verify, fit, are well formed and pay no negative fee |
| History.TimesRise | internal/mesh/chain_core.go:605-607 | Any later block is strictly younger than any earlier one |
| History.AppendKeepsSupply | internal/mesh/chain_core.go:493-544 | An accepted block moves the total by its reward and surplus and makes no balance negative |
| History.AppendKeepsNonces | internal/mesh/chain_core.go:504-530 | An accepted block extends every sender history of nonces without gap or repetition |
| History.NoReplay | internal/mesh/chain_core.go:504-530 | In a history whose nonces count up, of two transactions of one sender the later has the larger nonce |
| Agreement.TipPinsHeaders | internal/mesh/chain_core.go:191-213 | Equal tips mean equal headers at every height |
| Agreement.RootPinsRecipient | internal/mesh/chain_core.go:787-796 | Blocks that differ in payout address predict different ledgers, although the block hash does not cover that address |
| Agreement.HeaderPinsEffect | internal/mesh/chain_core.go:394-554 | Blocks with one header, accepted on ledgers equal modulo zero accounts, leave equal ledgers |
| Agreement.ReplayAgrees | internal/mesh/chain_core.go:464-470 | Two chains that replay without error to the same tip leave the same ledger |
| Agreement.TipPinsLedger | internal/mesh/chain_core.go:464-470 | In states whose directory is sound, the tip determines height and ledger |
| Runs.StepKeepsGood | internal/mesh/chain_core.go:556-682 | Every delivery, submission, proposal and restart, with any clock, quorum answer and storage failure outside the restart itself, keeps the joint invariant on history, supply, nonces, pool, disk and buffer, and only extends the chain |
| Runs.RunKeepsGood | internal/mesh/chain_core.go:394-974 | The joint invariant holds after every run, and every run only extends the chain |
| Runs.ApplyKeepsInv | internal/mesh/chain_core.go:394-554 | Applying any block that is younger than the tip keeps the invariant; the height moves exactly when it is accepted |
| Runs.DrainKeepsInv | internal/mesh/chain_core.go:654-682 | Draining keeps the invariant and leaves the buffer empty |
| Runs.DeliverKeepsGood | internal/mesh/chain_core.go:556-643 | A delivery keeps the invariant, and only a block two above the tip is ever buffered |
| Runs.RefusedDelivery | internal/mesh/chain_core.go:556-643 | A refused delivery changes nothing but zero accounts and the disk |
| Runs.SubmitKeepsPool | internal/mesh/chain_core.go:283-305 | An admitted transaction keeps the pool sound and both indexes exact |
| Runs.AdmissionExact | internal/mesh/chain_core.go:283-305 | With a sound pool a transaction is admitted if and only if it validates, there is room, and no pending one has its sender or identifier; it is then the last entry |
| Runs.BlockKeepsPending | internal/mesh/chain_core.go:549 | With a sound pool an accepted block leaves exactly the pending transactions that validate after it, in order |
| Runs.BystanderStaysPending | internal/mesh/chain_core.go:549 | A pending transaction of a sender the block does not move stays, but for the fee in a full pool |
| Runs.ProposeKeepsGood | internal/mesh/chain_core.go:919-973 | A proposal, successful or not, keeps the invariant |
| Runs.RestartKeepsGood | internal/mesh/chain_persist.go:46-106 | A restart after whatever refusals re-establishes the joint invariant on the chain it stopped with, with empty pool and buffer and no refused block left in the directory |
| Proposing.ProposerCompletes | internal/mesh/chain_core.go:919-966 | Under the same conditions, in any state that satisfies the invariant, the proposed block passes every check and raises the height |
| Proposing.ProposerYields | internal/mesh/chain_core.go:684-708 | A proposer holds back, changing nothing, if and only if it lacks a wallet or keys or a block of another validator is buffered |
| Proposing.FailedProposalKeepsPool | internal/mesh/chain_core.go:966-973 | After a proposal that fails past its safety checks the pool is exactly the compacted pool with indexes rebuilt, and the chain is as before |
| Proposing.SuccessfulProposalKeepsRest | internal/mesh/chain_core.go:922-937 | After a successful proposal with no buffered successor applied, the pool is the compacted pool without its first min(64, n) entries |
| DeliveryOrder.DeliverOnChain | internal/mesh/chain_core.go:556-643 | A node at prefix k stays on the chain whatever block of it arrives and whatever clock, quorum and disk answer; when they let it, block k+1 is applied, with block k+2 behind it if that was buffered, and block k+2 is in the buffer after it arrives |
| DeliveryOrder.DrainOnChain | internal/mesh/chain_core.go:654-682 | The buffered successor goes in right behind the block it waited for if its write succeeds, and leaves the buffer in any case |
| DeliveryOrder.AnyOrderIsSafe | internal/mesh/chain_core.go:556-643 | Every run over blocks of one valid chain, with restarts and any answers of clock, quorum and disk, leaves the node at a prefix, never shorter than before |
| DeliveryOrder.InOrderPassCompletes | internal/mesh/chain_core.go:621-629 | From any state on the chain one in-order pass reaches its end with an empty buffer |
| DeliveryOrder.NearOrderCompletes | internal/mesh/chain_core.go:621-682 | From any state on the chain, blocks that arrive in their places or one off, none twice, take the node to the end with an empty buffer |
| Replay.ApplySimulates | internal/mesh/chain_core.go:394-554 | Equality modulo zero accounts is a simulation: same decision on every block, related states after it |
| Replay.ReplaySimulates | internal/mesh/chain_persist.go:83-103 | Replay from related states halts at the same block for the same reason and leaves related states |
| Replay.AcceptanceKeepsDisk | internal/mesh/chain_core.go:471-473 | After an accepted block the directory holds exactly the committed blocks and their replay rebuilds the chain |
| Replay.RefusalKeepsDisk | internal/mesh/chain_core.go:471-515 | A refused block leaves at most one extra file, of the next height, that replay will refuse again |
| Replay.RestartRestores | internal/mesh/chain_persist.go:83-105 | Replaying the directory rebuilds the chain modulo zero accounts if and only if every committed block can be written again, and ends without error if and only if, besides, no refused block is left in it |
| Replay.RestartComesUp | internal/mesh/chain_persist.go:207-237 | A start that halts on a refused block moves its file away, and the start after it succeeds, with the same chain and without that file |
| Replay.SnapshotRoundTrip | internal/mesh/chain_snapshot.go:37-49 | An export is valid if and only if no account is negative; loading it anywhere restores height, tip and accounts, clears blocks, buffer and pool, and leaves finalized height and disk alone |
| Replay.TamperedSnapshot | internal/mesh/chain_snapshot.go:223-251 | With hashes free of collisions, a snapshot with the hash of an export passes if and only if it is that export and no account is negative |
| Replay.SnapshotTextInjective | internal/mesh/chain_snapshot.go:268-272 | The text under the snapshot hash determines height, tip and accounts hash, whatever characters the tip contains |
| Replay.SnapshotShortcut | internal/mesh/chain_snapshot.go:91-152 | Snapshot plus the files above it gives the ledger full replay gives if and only if those files can be written again, with the exact condition for ending without error |
| Replay.SnapshotStartHalts | internal/mesh/daemon_bridge.go:238-251 | Loading a snapshot with the files above it and then all files, as startup does, ends without error if and only if there are no files |
| Node.ProductionChain.constructor | internal/mesh/chain_core.go:153-165 | A new chain is empty |
| Node.ProductionChain.IndexPool | internal/mesh/chain_core.go:273-281 | The rebuild loop computes both indexes of the pool |
| Node.ProductionChain.AddTxToMempool | internal/mesh/chain_core.go:283-305 | Admission takes the specified decision and the specified new state |
| Node.ProductionChain.CompactMempool | internal/mesh/chain_core.go:307-372 | The loop over the pool with its lazily filled shadow map computes the compaction and counts what it drops |
| Node.ProductionChain.CalcStateHashWithBlock | internal/mesh/chain_core.go:748-799 | The unchecked run on a copy of the accounts yields the root of the predicted ledger |
| Node.ProductionChain.ScanBlock | internal/mesh/chain_core.go:405-427 | The first pass finds the first faulty transaction, or sums the fees |
| Node.ProductionChain.CheckHeader | internal/mesh/chain_core.go:398-470 | The checks before the write, in order |
| Node.ProductionChain.RunTransfers | internal/mesh/chain_core.go:475-524 | The pass over a scratch map of touched accounts computes the sequential execution; on failure exactly the touched accounts were created |
| Node.ProductionChain.WriteBack | internal/mesh/chain_core.go:526-530 | Writing the scratch map back in any order overlays it on the accounts |
| Node.ProductionChain.AdvanceFinality | internal/mesh/chain_core.go:813-831 | The loop flags exactly the blocks from the old finalized height to the new one |
| Node.ProductionChain.CommitBlock | internal/mesh/chain_core.go:532-552 | Reward, treasury, new head, compaction and finality give the specified state |
| Node.ProductionChain.ApplyBlock | internal/mesh/chain_core.go:394-554 | Decision and whole new state of block application, including what a late refusal leaves behind |
| Node.ProductionChain.DrainPending | internal/mesh/chain_core.go:654-682 | The drain loop computes the specified drain and terminates |
| Node.ProductionChain.CheckProposal | internal/mesh/chain_core.go:564-619 | The proposal checks, in order |
| Node.ProductionChain.ApplyBlockOrBuffer | internal/mesh/chain_core.go:556-643 | Decision and whole new state of a delivered proposal |
| Node.ProductionChain.ProposalSafetyCheck | internal/mesh/chain_core.go:684-708 | The scan of the buffer finds a reason to hold back exactly when there is one |
| Node.ProductionChain.ProposeBlock | internal/mesh/chain_core.go:870-974 | Decision and whole new state of a proposal, including the restored pool |
| Node.ProductionChain.LoadFromDisk | internal/mesh/chain_persist.go:46-106 | The replay loop over the sorted files computes the specified replay, including the file it moves away when it halts |
| Node.ProductionChain.ExportSnapshot | internal/mesh/chain_snapshot.go:37-49 | The exported snapshot |
| Node.ProductionChain.ValidateSnapshot | internal/mesh/chain_snapshot.go:223-251 | Validation finds the specified fault, or none |
| Node.ProductionChain.LoadSnapshotFromBytes | internal/mesh/chain_snapshot.go:198-221 | A valid snapshot replaces height, tip and accounts and clears blocks, buffer and pool; an invalid one changes nothing |
| Node.ProductionChain.LoadSnapshotFromDisk | internal/mesh/chain_snapshot.go:69-155 | A valid snapshot is loaded and the files above it are replayed, up to the first refused one, which is moved away |
| Node.ProductionChain.Start | internal/mesh/daemon_bridge.go:238-251 | Startup computes the specified load: the snapshot with the files above it, if there is one, and then all files |
| Heights.SortHeights | internal/mesh/chain_persist.go:76 | Sorting block files gives the unique ascending list of heights |
| Finality.Finalizer.NewFinalizer | internal/consensus/finalizer.go:38-62 | Empty identifiers are dropped; there is no finalizer without data directory or validators |
| Finality.Finalizer.AddVote | internal/consensus/finalizer.go:82-113 | The nested vote maps compute the tally, and the state moves as specified |
| Finality.Finalizer.EnforceNoReorg | internal/consensus/finalizer.go:115-132 | The refusal decision |
| Finality.QuorumsMeet | internal/consensus/finalizer.go:59 | Two quorums share a validator outside any set smaller than a third |
| Finality.ThresholdExact | internal/consensus/finalizer.go:59 | The threshold is the least count above two thirds, and the validators outside any smaller third reach it |
| Finality.TraceSound | internal/consensus/finalizer.go:82-113 | Over every network run each finalized point, in memory or on disk, carries a quorum of cast votes, whatever is lost, repeated, reordered, unsaved or unreadable |
| Finality.FinalityAgreement | internal/consensus/finalizer.go:82-113 | At no two moments of a network run do two finalizers, or one before and after a crash, record different hashes for one height, if fewer than a third of the validators vote for two hashes at one height |
| Finality.TallyExact | internal/consensus/finalizer.go:91-113 | Between restarts, whatever becomes of the writes, the finalized height is the maximum of the loaded one and the greatest height with a quorum |
| Finality.EveryRunIsGreatest | internal/consensus/finalizer.go:82-113 | The same holds, for the point the last restart loaded, in every state votes and restarts can lead to |
| Finality.OrderIndependence | internal/consensus/finalizer.go:82-113 | Two nodes whose last restart loaded the same point and that end with the same valid votes, in any order and number and with any writes, are at the same height and hash |
| Finality.HonestVotesFinalize | internal/consensus/finalizer.go:99-111 | If the votes of all validators outside a smaller third for a point arrive, in whatever order and whatever becomes of the writes, its height is finalized |
| Finality.RefusalExact | internal/consensus/finalizer.go:115-132 | Refused are exactly the heights below the finalized one and, at it, every other hash, where an empty hash on either side matches any |
| Finality.RefusalIsPermanent | internal/consensus/finalizer.go:115-132 | Once refused, always refused over every run of votes until the next restart, whatever becomes of the writes |
| Finality.RefusalSurvivesRestarts | internal/consensus/finalizer.go:109-146 | A refusal outlasts every run of votes and restarts that can read the state file, with whatever writes, if and only if the point on disk refuses too |
| Finality.DiskIsLastSaved | internal/consensus/finalizer.go:104-109 | Over every run of votes and restarts the point on disk is the last finalized one whose write succeeded, or the one before the run |
| Finality.WorkingDiskNeverForgets | internal/consensus/finalizer.go:104-146 | While writes and reads of the state file succeed, no run of votes and restarts lowers the finalized height, changes the hash at it or forgets a refusal |
| Finality.UnsavedPointIsForgotten | internal/consensus/finalizer.go:109 | A concrete run with a failed write in which a restart forgets a refusal |
| RateLimit.HttpRateLimiter.constructor | internal/mesh/http_ratelimit.go:29-42 | Defaults for non-positive settings |
| RateLimit.HttpRateLimiter.Allow | internal/mesh/http_ratelimit.go:44-81 | The collection loop, refill and charge compute the specified answer and buckets |
| RateLimit.ServeByLevel | internal/mesh/http_ratelimit.go:62-80 | A call is admitted exactly when the refilled level covers its charge, which comes off it |
| RateLimit.RecentIsKept | internal/mesh/http_ratelimit.go:49-54 | Whatever the limits, collection plays no part in the answer to a client seen in the last ten minutes |
| RateLimit.PaidFor | internal/mesh/http_ratelimit.go:44-81 | What a client is admitted in a period is at most its level at the start plus the refill |
| RateLimit.BoundExact | internal/mesh/http_ratelimit.go:44-81 | Every window of every run admits one client at most burst plus refill if and only if burst is at most 600 times the rate |
| RateLimit.EarlyCollectionBreaks | internal/mesh/http_ratelimit.go:49-60 | Above that, a named pair of calls: the second is admitted only because the bucket was collected, and the two exceed burst plus refill |
| RateLimit.CollectionInvisible | internal/mesh/http_ratelimit.go:49-54 | If the burst refills in ten minutes, decisions with and without collection agree from any two tables that show every client the same level |
| RateLimit.CollectionExact | internal/mesh/http_ratelimit.go:49-54 | Collecting idle buckets changes no decision of any run if and only if burst is at most 600 times the rate |
| Gossip.TrimExact | internal/mesh/gossip.go:95 | Trimming an address cuts off white space at both ends and leaves none there |
| Gossip.TargetsExact | internal/mesh/gossip.go:94-103 | A node sends to exactly its non-empty peers other than itself and the previous hop |
| Gossip.MeshNode.GossipOrigin | internal/mesh/gossip.go:14-43 | The originated copies, and the table of seen identifiers with the new one marked and pruned |
| Gossip.MeshNode.GossipForward | internal/mesh/gossip.go:84-105 | The forwarded copies |
| Gossip.MeshNode.HandleIncoming | internal/mesh/messages.go:60-137 | Unknown kinds and seen identifiers are dropped and leave the table alone, everything else is marked in it and the table pruned; refused blocks are not forwarded, the rest is |
| Gossip.MeshNode.MarkSeen | internal/mesh/seen.go:16-76 | The two pruning loops leave, of the entries no older than two minutes, all or the newest 5000 |
| Gossip.NewestIsKept | internal/mesh/seen.go:16-76 | An identifier marked later than all others is in the table afterwards, however full it was |
| Gossip.KeptUntilExpired | internal/mesh/seen.go:36-50 | With fewer than 5000 in use, marking one identifier drops another exactly when it is older than two minutes |
| Gossip.ForwardWellSent | internal/mesh/gossip.go:84-105 | A forwarded copy has at least one hop left, one fewer than before, and goes to a peer other than its sender and the address the message came from |
| Gossip.ForwardExact | internal/mesh/gossip.go:84-105 | A message is sent on to a peer if and only if it has two or more hops left and the peer is neither the node itself nor the address the message came from |
| Gossip.FloodWellSent | internal/mesh/gossip.go:84-105 | Every step of every flood keeps, for each copy in flight, that its route is a walk over peer lists that never stays in place nor turns straight back, and that hops left and hops gone add up |
| Gossip.FloodRoutes | internal/mesh/gossip.go:14-43 | In every flood of one origination each copy in flight has come from the origin along such a walk, of at most ttl+1 addresses |
| Gossip.FloodExact | internal/mesh/gossip.go:84-105 | A flood in which every copy arrives and is sent on delivers along exactly the walks of at most ttl hops that never stay in place nor turn straight back |
| Gossip.FloodReaches | internal/mesh/gossip.go:84-105 | Such a flood reaches every address within ttl hops of the origin |
| Gossip.DedupedFloodReaches | internal/mesh/messages.go:71-80 | With every address sending on only the first copy it gets, a flood with at least as many hops as addresses reaches every address the peer lists lead to, in whatever order copies arrive |
| Gossip.StepTerminates | internal/mesh/gossip.go:84-105 | Every arrival strictly lowers the sum of (d+1)^ttl over copies in flight |
| Gossip.FloodBound | internal/mesh/gossip.go:14-43 | One origination with t hops and peer lists of at most d sends at most d+d^2+...+d^t copies, in every topology, delivery order and pattern of forgotten identifiers |

## Left out

- 64-bit overflow: amounts, fees, heights and nonces are unbounded integers.
- Hex, JSON and key-file encoding, TLS, HTTP handlers, dialing, discovery, logging and counters: no property of the ledger depends on them.
- Node.ProductionChain.LoadFromDisk: does not model files that do not parse or hold another height than their name says, interrupted writes and their temporary files, a file that cannot be moved away, or the best-effort recovery switch; the block directory is a map from height to block.
- Node.ProductionChain.LoadSnapshotFromDisk: leaves out the same, and a snapshot file that does not parse; an invalid snapshot is refused, but not moved away.
- Node.ProductionChain.Start: covers the two loads only, not the listeners and identities set up around them.
- A write that fails after its rename: a write either happens or does not.
- Mesh-side votes (`addVoteLocked`, `tryFinalizeLocked`): the counters they read are never raised, so they change no block.
- The validator set observed by the chain: it is read only by that vote code.
- `ObserveBlock` and the timestamp in the finalizer state: nothing reads them.
- Vote signatures: the network model lets a vote arrive only if it was cast.
- Which of several equally old identifiers the seen table drops: the source takes any, and so does the model. The flood results hold for every pruning rule, since they allow any identifier to be forgotten at any time.
- Concurrency inside one node: all modelled operations run under the chain lock in the source.
- Loopback and path rules around the rate limiter: plumbing around `allow`.
