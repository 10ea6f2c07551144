# go-expanse in Dafny

A model of the consensus and networking core of go-expanse, an Ethereum-family node, with
proofs about it. `dafny verify dfyconfig.toml` checks the whole project.

| area | files | main results |
|---|---|---|
| chain store and fork choice | Lineage, ChainSpec, ChainManager, TxIndex, HeadLag, StaleNumber | `ChainSpec.RunKeepsInv`, `ChainManager.BlockChain.ImportBlock`, `TxIndex.ReorgIndexExact`, `ChainSpec.HeadersFollowIff`, `ChainSpec.RunNamesIff` |
| header chain | HeaderManager | `HeaderManager.HeaderRunKeepsInv` |
| validation and uncles | Validator, Uncles, Issuance | `Uncles.UncleNeverTwice`, `Uncles.UncleNeverAncestor`, `Uncles.FaultlessIff`, `Issuance.ChainIssues`, `Issuance.ChainConserves`, `Validator.MinedHeaderPasses` |
| mining and importing | Miner, Packing, Importing | `Importing.InsertMined`, `Miner.MinedBlockFits`, `Packing.PackReplays`, `Packing.OutcomeDecided`, `Packing.Work.CommitTransactions` |
| transaction execution | Ledger, Execution, Processor | `Execution.TransactConserves`, `Execution.AppliedEffect`, `Execution.ValueArrives`, `Processor.Process`, `Processor.DeriveGasUsed` |
| transaction pool | PoolSpec, TxPool (module `PoolManager`) | `PoolSpec.RunKeepsInv`, `PoolSpec.AdmittedIffExecutable`, `PoolSpec.PassKeepsRangeIff`, `PoolSpec.PassIsStable`, `PoolSpec.ListingKeepsRangesIff` |
| RLPx transport | Bytes, Frames, FrameRW, Tampering, Handshake, KeyAgreement | `Handshake.SessionsAgree`, `KeyAgreement.FreshKeys`, `Tampering.AlteredBody`, `Tampering.ReplayedFrame`, `Frames.ConversationRoundTrip`, `Frames.ReadBackIffNoWrap` |
| sub-protocols and dialing | Protocols, Dial, DialRuns, Sets | `Protocols.CodesTravel`, `DialRuns.RunSafe`, `DialRuns.StaticsDialed`, `DialRuns.KeepsLooking` |
| RLP | Rlp, RlpRaw | `Rlp.RoundTrip`, `Rlp.TruncatedPanics`, `RlpRaw.AcceptsExactly`, `RlpRaw.PanicsExactly` |
| ICAP | Icap | `Icap.RoundTrip`, `Icap.ReplacementRejected` |
| elliptic curve | Congruence, Curve, CurveLaw, CurveGroup, ScalarMult | `ScalarMult.ScalarMult`, `CurveGroup.DifferentFromBase`, `Curve.AddRepresents`, `Curve.DoubleKeepsCurve`, `CurveLaw.AddKeepsCurve` |

Stores, queues and schedulers are classes whose methods are proved against relations or
functions on values; the invariants and whole-run theorems are lemmas about those
relations. Integers of unbounded width stand for `*big.Int`; where a machine word matters
(the 32-bit frame size, bytes, 64-bit lengths) its width is written out.

How the surroundings enter the model:

- A header's hash is a field. Results that need collision freedom take the set of all
  headers that ever occur and demand that their hashes differ. The uncle results also
  demand that no uncle is built on the block that includes it: a block's hash covers its
  uncles, so such a pair would be a cycle of hashes, but `VerifyUncles` itself accepts it.
  A transaction is identified with its hash, so a map from hash to transaction is a set
  of transactions.
- The clock, the random draw that breaks ties, the seal check, whether the roots in a header
  match the processed state, and the random table nodes are parameters. `ImportBlock` of the
  chain store takes the gas a block used; `Importing` runs the processor to get it.
  Iteration over a Go map picks elements in any order.
- The virtual machine is any function of state, message, target and gas that creates neither
  gas nor balance, leaves nobody in debt and does not touch the sender's nonce. It may burn
  balance, as a contract does that self-destructs in its own favour, and it marks the
  accounts that self-destruct, which are deleted with all they hold by the end of the
  transaction. Both amounts are carried along and enter every conservation statement.
- For the mining results the genesis block is configured with at least the minimum gas limit
  and used no more gas than its limit; for every later block this is proved.
- Ciphers, hashes, ECIES, signatures and ECDH are arbitrary functions with the equations
  the protocol relies on (decrypt after encrypt, recover after sign, symmetry of ECDH). No hash
  is assumed to be free of collisions: what would need it hands out the colliding inputs.
- `P` is a prime for the curve results, as for every curve the source defines. For scalar
  multiplication the multiples of the base point, over all integers, obey the complete
  addition law of the curve, and none from 1 to `N` - 1 is infinite. That the multiples
  from 2 to `N` - 2 never share their x with the base point is proved from this.
- `container/heap` and `sort` are modelled by their effect: a least element, and any
  sorted arrangement.

Where the code does less than one might expect, the model follows the code and the exact
condition is proved:

- `reorg` inserts the new branch from its top block down, so `currentHeader` and
  `currentFastBlock` end at the lowest new block. They follow the new head exactly when the
  parent of the new head was canonical (`ChainSpec.HeadersFollowIff`, with a concrete run in
  `HeadLag.ReorgLeavesHeaderHeadBehind`).
- `insert` never deletes a number, so after a reorganisation to a shorter chain the number map
  still names abandoned blocks above the head. Over any run it names exactly the numbers some
  head so far has reached, and it ends at the head exactly when no earlier head stood higher
  (`ChainSpec.RunNamesIff`, `ChainSpec.RunNamedExactlyIff`, with concrete chains in
  `StaleNumber.ShorterChainLeavesStaleNumber`).
- `IntermediateRoot` deletes self-destructed accounts with whatever they were paid after their
  destruction. Nothing is lost exactly when none of them holds anything by then
  (`Processor.SealedLoses`, with a miner that loses its fee in
  `Processor.DoomedMinerLosesFee`).
- `WriteMsg` tests the frame size after adding in 32 bits. An accepted message is read
  back exactly when that sum did not wrap (`Frames.ReadBackIffNoWrap`, with a concrete
  message in `Frames.WrappingMessage`).
- `readHandshakeMsg` tries the plain form first, so an EIP-8 packet is read exactly when its
  first bytes are not a valid plain ciphertext (`Handshake.Eip8PacketRead`, with lawful
  primitives under which none is in `Handshake.Eip8TakenForPlain`).
- The server hands `taskDone` the time of its last planning round, so the 30 seconds before a
  redial count from that time, not from the end of the dial (`DialRuns.RedialWaits`).
- `readKind` indexes out of range exactly on the single byte 0x81 (`RlpRaw.PanicsExactly`).
- `commitTransaction` restores the state of a transaction refused after it bought its gas,
  but not the gas pool. What the pool lacks is exactly the gas of the inputs with that
  outcome (`Packing.PackReplays`), and an input has it exactly when it is tried, its nonce,
  fee and gas pass, and its gas is below the intrinsic gas or its value is not covered
  (`Packing.LeakDecided`, with a concrete offer in `Packing.LeakingOffer`).
- `GetTransactions` validates without rebuilding the pending nonces. The nonce ranges
  survive exactly when every pending transaction is still live
  (`PoolSpec.ListingKeepsRangesIff`, with a concrete pool in `PoolSpec.ListingLeavesHole`).
- `checkQueue` can lower a pending nonce when a queued transaction reuses the nonce of a
  pending one. The sender's range survives a pass exactly when a queued live transaction
  has the pending nonce, or none lies below it, or one lies right below it
  (`PoolSpec.PassKeepsRangeIff`, with a resubmission that breaks it in
  `PoolSpec.ReplacementLowersNonce`). With unique nonces it always survives, which the run
  theorem builds on.
- `addJacobian` ends at infinity exactly when a summand is infinite or both have the same x,
  so it fails on equal points as on opposite ones (`CurveLaw.AddInfiniteIff`).
- The exponential difficulty term never fires, because the Homestead rules begin before
  its second period (`Validator.NoExponentialTerm`).

## Model

| member | source | states |
|---|---|---|
| Lineage.LineageShape | core/blockchain.go:656-666 | In a linked store the parent chain of any header runs from the genesis, one stored header per number. |
| Lineage.SharedPrefix | core/blockchain.go:1284-1302 | Two parent chains that meet at one number agree on everything below it. |
| ChainSpec.GenesisInv | core/blockchain.go:415-433 | A database holding just the genesis satisfies the chain invariant. |
| ChainSpec.ImportKeepsInv | core/blockchain.go:1050-1093 | An imported block, side or canonical, keeps the number map equal to the head's parent chain up to the head, the exact transaction index, the recorded total difficulties, and the head heaviest. |
| ChainSpec.RunKeepsInv | core/blockchain.go:1097-1256 | Every database reached from the genesis by any sequence of block imports satisfies the whole chain invariant. |
| ChainSpec.RunHeadMonotone | core/blockchain.go:1050-1086 | Over any run the head's total difficulty never decreases. |
| ChainSpec.HeavyEnough | core/block_validator.go:254-335 | Given the recorded sums, a stored block's total difficulty is at least the genesis difficulty plus the minimum difficulty times its number. |
| ChainSpec.WinsByWork | core/blockchain.go:1055-1071 | The fork choice compares the work of the two chains from the genesis up, ties going to the draw. |
| ChainSpec.HeadHasNoDescendant | core/blockchain.go:1054-1086 | No stored block descends strictly from the head, since it would be heavier. |
| ChainSpec.HeadersFollowIff | core/blockchain.go:475-500 | After a canonical import the header head and the fast head equal the new head if and only if its parent was canonical. |
| ChainSpec.StoredIsRoomy | core/block_validator.go:111-114 | Every stored block used at most its gas limit, which is at least the minimum. |
| ChainSpec.CanonNamesIff | core/blockchain.go:475-500 | After a canonical import exactly the numbers up to the new head and those named before are named; the map ends at the head if and only if it named nothing above it before. |
| ChainSpec.RunNamesIff | core/blockchain.go:475-500 | Over any run the number map names a number if and only if some head so far stood there or higher. |
| ChainSpec.RunNamedExactlyIff | core/blockchain.go:475-500 | Over any run the number map ends at the head if and only if no earlier head stood higher. |
| ChainManager.FindFork | core/blockchain.go:1261-1310 | The walk over both branches terminates and returns exactly the blocks above the highest common ancestor, with the old branch's transactions. |
| ChainManager.MeetingIsFork | core/blockchain.go:1284-1302 | Where the two walks meet is the fork of the two parent chains. |
| ChainManager.BranchNotNumbered | core/blockchain.go:475-500 | The lowest block of a winning branch is never what the number map already names at its height. |
| ChainManager.TxDifference | core/types/transaction.go:326-341 | The transactions of the first list that do not occur in the second. |
| ChainManager.BlockChain.Insert | core/blockchain.go:475-500 | Numbers the block and makes it the head; the header and fast heads follow exactly when the number map did not name it already. |
| ChainManager.BlockChain.InsertBranch | core/blockchain.go:1312-1326 | After inserting the branch top-down the number map follows the new chain above the fork, the index is overlaid with the branch, and the other heads stand right above the fork. |
| ChainManager.BlockChain.DeleteTransactions | core/database_util.go:450-453 | Exactly the given transactions leave the index. |
| ChainManager.BlockChain.Reorg | core/blockchain.go:1261-1347 | Always succeeds on the stored chains and leaves the number map and the exact transaction index of the new chain. |
| ChainManager.BlockChain.WriteBlock | core/blockchain.go:1050-1093 | Refuses unknown parents; otherwise stores block and total difficulty, and makes the block head exactly when it wins the fork choice. |
| ChainManager.BlockChain.Check | core/blockchain.go:1121-1200 | Raises no complaint exactly when seal, novelty, parent, header, uncles and used gas are all in order, and otherwise exactly the first complaint, with the header's or the uncles' verdict. |
| ChainManager.BlockChain.Commit | core/blockchain.go:1210-1231 | Writing and then indexing a valid block is one step of the specified import relation. |
| ChainManager.BlockChain.ImportBlock | core/blockchain.go:1121-1246 | One block of an import keeps the whole invariant; it stores the block exactly when all checks pass, and otherwise changes nothing. |
| TxIndex.WriteTransactions | core/database_util.go:354-391 | Every transaction of the block is indexed with the block's hash, number and its position; other entries stay. |
| TxIndex.ReorgIndexExact | core/blockchain.go:1312-1341 | Overlaying the new branch on the old exact index and deleting what only the old branch held gives the exact index of the new chain. |
| TxIndex.TopBlockExact | core/blockchain.go:1212-1231 | Indexing the head once more keeps the index exact. |
| TxIndex.LookupFinds | core/database_util.go:354-391 | Looking a transaction up in an exact index leads to its block and place, and every transaction of the chain is found. |
| HeadLag.ReorgLeavesHeaderHeadBehind | core/blockchain.go:1312-1326 | A concrete run of three imports after which the header and fast heads are one block below the head. |
| StaleNumber.Abandon | core/blockchain.go:1261-1347 | Importing a chain and then any shorter but heavier rival makes the rival's top the head and leaves the abandoned top in the number map. |
| StaleNumber.ShorterChainLeavesStaleNumber | core/blockchain.go:475-500 | Two concrete valid chains of 53 and 52 blocks that do so. |
| HeaderManager.WroteKeepsInv | core/blockchain.go:723-771 | One header write keeps the number map exact, the head heaviest, and its total difficulty from falling. |
| HeaderManager.HeaderRunKeepsInv | core/blockchain.go:723-771 | Over every run of header writes the number map has domain exactly 0 to the head's number and equals its parent chain. |
| HeaderManager.MetOldChain | core/blockchain.go:745-757 | Stopping the renumbering at the first agreeing ancestor is enough: everything below already agrees. |
| HeaderManager.HeaderChain.DropAbove | core/blockchain.go:738-743 | The numbers above the new header are deleted, however many there are. |
| HeaderManager.HeaderChain.Renumber | core/blockchain.go:745-757 | Walking back rewrites the map until it is the new header's parent chain; the walk terminates. |
| HeaderManager.HeaderChain.WriteHeader | core/blockchain.go:723-771 | Stores the header and moves the head exactly when it is heavier, or equally heavy and the draw says so. |
| Validator.DifficultyFallsWithTime | core/block_validator.go:254-335 | Waiting longer never raises the difficulty, under both rule sets. |
| Validator.NoExponentialTerm | core/block_validator.go:299-335 | Before Homestead the difficulty equals the parent's, adjusted up or down and capped below, on every input. |
| Validator.HomesteadSteps | core/block_validator.go:262-297 | From Homestead on the difficulty moves by a 512th of the parent's per minute: up in the first, unchanged in the second, then down, by at most 99 steps. |
| Validator.GasLimitBand | core/block_validator.go:228-233 | A permitted gas limit is at least 5000 and less than a 1024th of the parent's away from it, in multiples instead of quotients. |
| Validator.GasLimitFollowsUse | core/block_validator.go:340-368 | More gas used in the parent never lowers the miner's limit. |
| Validator.GasLimitTarget | core/block_validator.go:340-368 | Below the target the limit rises, but not beyond it unless use carries it there; above, it drifts down and follows use. |
| Validator.MinerGasLimitOk | core/block_validator.go:340-368 | The miner's gas limit obeys the strict bound relative to the parent in every branch. |
| Validator.ValidateHeader | core/block_validator.go:204-249 | A header is accepted if and only if it obeys every rule: number, time, difficulty, gas limit, extra data and seal. |
| Validator.FirstComplaint | core/block_validator.go:204-249 | Each complaint comes if and only if its rule is broken and all rules tested before it hold. |
| Validator.DifficultyFixed | core/block_validator.go:222-225 | All headers accepted on one parent at one time carry the same difficulty, the one in the miner's header for that time. |
| Validator.ValidBlockIsValidUncle | core/block_validator.go:204-249 | A header accepted as a block is acceptable as an uncle. |
| Validator.MinedHeaderPasses | miner/worker.go:461-484 | A header assembled on any valid parent at the later of now and one past its time passes every check; before its timestamp the only complaint is the future time. |
| Uncles.GetBlocksFromHash | core/blockchain.go:656-666 | Returns the block and its stored ancestors, newest first, up to the given count. |
| Uncles.CollectWindow | core/block_validator.go:145-156 | The sets filled from the window hold exactly its uncles and its blocks. |
| Uncles.CheckUncle | core/block_validator.go:159-181 | The accumulated sets give the same verdict on an uncle as the definition without them. |
| Uncles.VerifyUncles | core/block_validator.go:139-184 | Returns the first fault in list order, or acceptance when there is none. |
| Uncles.VerdictUnique | core/block_validator.go:139-184 | There is only one verdict on a block's uncles. |
| Uncles.WindowIsLineage | core/blockchain.go:656-666 | The collected blocks are the top of the parent chain. |
| Uncles.FaultlessIff | core/block_validator.go:145-181 | Without any window: an uncle is faultless if and only if it repeats nothing of the last seven blocks and their uncles, and is a valid successor of one of them other than the parent. |
| Uncles.FaultKinds | core/block_validator.go:157-181 | Each fault comes if and only if its cause holds on the chain and those tested before it do not. |
| Uncles.AttachKeepsVerified | core/block_validator.go:139-184 | Storing a verified block keeps every stored block verified. |
| Uncles.UncleLiesNearby | core/block_validator.go:157-181 | On a verified chain every uncle lies one to six blocks below its includer, hangs off that chain and obeys all header rules there. |
| Uncles.UncleNeverAncestor | core/block_validator.go:165-172 | No uncle is an ancestor of its includer at any depth, though only seven are inspected. |
| Uncles.UncleNeverTwice | core/block_validator.go:145-163 | Along any verified chain no header is included as an uncle twice. |
| Issuance.BlockMints | core/state_processor.go:92-106 | Every block of a verified chain mints between 16/16 and 45/16 of the block reward. |
| Issuance.ChainIssues | core/state_processor.go:92-106 | Up to any block a verified chain has minted between 1 and 45/16 rewards per block. |
| Issuance.ChainConserves | core/state_processor.go:34-106 | At every block of a processed verified chain the state holds the genesis total plus everything issued minus everything burned, deleted accounts included. |
| Miner.Work.constructor | miner/worker.go:373-408 | The prepared sets hold exactly the window's blocks, and its blocks and uncles. |
| Miner.Work.CommitUncle | miner/worker.go:575-588 | Accepts exactly uncles that are new, hang off the window and are not family. |
| Miner.CommitUncles | miner/worker.go:539-556 | For any map order: of the side blocks tried exactly the acceptable ones are committed and exactly the others forgotten; with fewer than two uncles all were tried. |
| Miner.CommittedIsFaultless | core/block_validator.go:157-181 | Every uncle committed from stored side blocks is faultless to the validator. |
| Miner.NotChildOfHead | miner/worker.go:575-588 | No stored side block is a child of the head, although the miner does not test it. |
| Miner.MinedBlockFits | miner/worker.go:453-573 | A sealed block the miner built passes every check of an import, and processing it on the head's state gives the miner's state and receipts and uses exactly the gas in its header. |
| Miner.FilledReplays | miner/worker.go:590-660 | A block filled by packing, processed by any node on the same state, gives the miner's state and receipts and the gas in its header, within its limit. |
| Miner.MinedBlockBecomesHead | core/blockchain.go:1050-1086 | Importing it makes it the head whatever the draw, and takes the header head along. |
| Importing.InsertBlock | core/blockchain.go:1121-1246 | Processing and importing keeps the whole invariant; the block is stored if and only if all checks pass, and then it used exactly the gas in its header. |
| Importing.InsertMined | core/blockchain.go:1121-1246 | A mined and sealed block, imported by any node with the same head once its time has come, is written and becomes the head, whatever the draw. |
| Execution.IntrinsicGas | core/state_transition.go:84-106 | The loop computes the base cost plus 68 per non-zero and 4 per zero byte. |
| Execution.IntrinsicSnoc | core/state_transition.go:84-106 | An empty message costs 21000, or 53000 for a Homestead creation; every further byte 4 or 68. |
| Execution.GasPool.AddGas | core/gaspool.go:27-31 | Adds to the pool. |
| Execution.GasPool.SubGas | core/gaspool.go:35-42 | Takes from the pool exactly when there is enough, otherwise leaves it. |
| Execution.RunConserves | core/execution.go:63-137 | A run keeps the total balance but for what it burns, never returns more gas than it got, and bumps the sender's nonce unless the value cannot be paid. |
| Execution.RunReverts | core/execution.go:127-134 | A failed run leaves only the bumped nonce, burns nothing and has no gas left. |
| Execution.SettledConserves | core/state_transition.go:267-287 | Refund and fee together return exactly the prepaid amount; at least half of the consumed gas is charged. |
| Execution.TransactConserves | core/state_transition.go:213-265 | An applied transaction preserves the total balance but for what the machine burned, leaves no debt, advances the nonce by one even when the run reverts, and charges between half and all of the gas consumed. |
| Execution.RevertChargesAllGas | core/execution.go:127-134 | A reverted execution moves exactly the whole gas fee from sender to miner and nothing else. |
| Execution.AppliedEffect | core/execution.go:63-137 | Balance by balance: the machine starts with fee and value taken from the sender, the value at the target and the nonce raised; what it leaves stands, plus unused gas to the sender and used gas to the miner. It reverts if and only if the machine fails or a Homestead creation cannot pay for its code. |
| Execution.SettledEffect | core/state_transition.go:254-287 | The refund is the counter or half of what was consumed, whichever is less; sender and miner get exactly the price of the unused and the used gas. |
| Execution.ValueArrives | core/execution.go:103 | With an inert machine exactly the value moves from sender to target, or to the new contract, and the price of the gas from sender to miner. |
| Execution.PoolOnlyGates | core/state_transition.go:169-187 | With room in the pool the outcome does not depend on how much room. |
| Execution.FirstRefused | core/state_transition.go:169-250 | Each refusal comes if and only if its test fails and those before it pass; a message is applied if and only if all pass. |
| Execution.LeaksIff | core/state_transition.go:213-250 | A refused transaction takes gas out of the pool if and only if it passes nonce, fee and pool, has gas, and then lacks intrinsic gas or value. |
| Execution.LeakExample | core/state_transition.go:223-225 | A concrete transaction whose one unit of gas is lost. |
| Execution.Transition.Exec | core/execution.go:63-137 | Transfer, machine, code deposit and revert as the run function says. |
| Execution.Transition.BuyGas | core/state_transition.go:169-187 | Refuses in the right order without effect, or moves the whole fee and gas. |
| Execution.Transition.PreCheck | core/state_transition.go:189-211 | Nonce and purchase: refuses as specified without touching the pool, or leaves the paid transition to do. |
| Execution.Transition.RefundGas | core/state_transition.go:267-283 | Returns the remaining gas and the refund capped at half of the used gas, to sender and pool. |
| Execution.Transition.TransitionDb | core/state_transition.go:213-265 | The stepwise transition equals the specified one, and accounts for the pool in every outcome. |
| Processor.DeriveGasUsed | core/blockchain.go:959-974 | The gas rebuilt from cumulative receipts is the gas each transaction was charged. |
| Processor.SealedLoses | core/state/statedb.go:333-347 | Sealing the state empties exactly the self-destructed accounts, balance and nonce; nothing is lost if and only if they hold nothing. |
| Processor.IntermediateRoot | core/state/statedb.go:333-347 | Deletes exactly the marked accounts, in any order, and resets the refund counter. |
| Processor.DoomedMinerLosesFee | core/state/statedb.go:335-340 | A concrete transaction in which the miner self-destructs and its fee is deleted with it. |
| Processor.ExecutedSound | core/state_processor.go:34-56 | A processed block preserves the total balance but for what its transactions burned and what deleted accounts held, stays within its gas limit and has correct running totals. |
| Processor.ApplyTransaction | core/state_processor.go:63-86 | Adds one transaction's gas and receipt; a failed one changes only the pool. |
| Processor.ProcessTransactions | core/state_processor.go:34-52 | Pool gas plus used gas equals the gas limit; the result is the specified run, or its first failure. |
| Processor.AccumulateRewards | core/state_processor.go:92-106 | Every account receives exactly its uncle rewards, and the miner the block reward and a 32nd of it per uncle. |
| Processor.RewardsExact | core/state_processor.go:92-106 | The rewards add exactly the minted amount and bring every account exactly what it earned. |
| Processor.UncleRewardExact | core/state_processor.go:96-99 | The division by eight loses nothing. |
| Processor.MintedExact | core/state_processor.go:92-106 | A block mints 8 ether, a quarter of an ether per uncle, and one ether for every block an uncle is nearer than eight. |
| Processor.EarnedExact | core/state_processor.go:92-106 | Each account earns exactly its part of that. |
| Processor.MintedBounds | core/fees.go:23 | Two nearby uncles bring a block to at most 45/16 of the block reward. |
| Processor.Process | core/state_processor.go:34-56 | Processing returns the specified block result, or the first failure. |
| Processor.ProcessedSound | core/state_processor.go:34-56 | A processed block adds exactly the minted rewards and takes away exactly what was burned or deleted; its gas and receipts add up. |
| Packing.Work.CommitTransaction | miner/worker.go:650-660 | A refused transaction leaves the work as it was, but takes from the pool what the transition took. |
| Packing.Work.Attempt | miner/worker.go:630-646 | Trying and booking a transaction is the specified step: block, waiting senders, removals and pool. |
| Packing.Work.Consider | miner/worker.go:592-647 | One round of the loop is the specified step, price test included. |
| Packing.Work.CommitTransactions | miner/worker.go:590-648 | The work equals the specified packing; the committed transactions processed as any block give its state, receipts and gas; pool, used gas and the gas of the inputs turned down late add up to the limit; every list and set holds exactly the inputs with its outcome. |
| Packing.PackReplays | miner/worker.go:590-660 | The committed transactions replay to the same state, receipts and gas, and what the pool lacks is exactly the gas of the inputs turned down late. |
| Packing.PackBooks | miner/worker.go:590-648 | Block, set-aside, waiting and removed transactions are exactly those with that outcome. |
| Packing.OutcomeDecided | miner/worker.go:597-625 | An input is set aside exactly when its sender underpaid up to it, waits exactly when an earlier one of its sender did not fit, and is otherwise decided by the state and pool before it. |
| Packing.SetAsideIff | miner/worker.go:597-617 | An input is set aside if and only if its sender is not the node's own and has offered less than the asking price in it or before it. |
| Packing.LeakDecided | miner/worker.go:650-656 | An input makes the pool leak if and only if it is tried and passes the guards before a late refusal. |
| Packing.LeakingOffer | miner/worker.go:650-656 | A concrete offer that leaves the block empty and the pool one unit short. |
| Packing.WaitingDoesNotFit | miner/worker.go:632-636 | Senders wait only for a transaction that does not fit what is left of the pool. |
| PoolSpec.PassKeepsRanged | core/tx_pool.go:401-462 | With unique nonces a pass over the queue keeps each sender's pending nonces a range and leaves no queued transaction at its end. |
| PoolSpec.PassKeepsRangeIff | core/tx_pool.go:433-456 | A pass keeps a sender's range if and only if a live queued transaction has the pending nonce, or none lies below it, or one lies right below it. |
| PoolSpec.ReplacementLowersNonce | core/tx_pool.go:436-456 | A concrete resubmission of a pending nonce that is accepted, promoted, and breaks the range. |
| PoolSpec.PassIsStable | core/tx_pool.go:401-462 | A second pass under the same state changes nothing. |
| PoolSpec.KeptBelow | core/tx_pool.go:469-517 | What validation keeps has no holes from the state's nonce up. |
| PoolSpec.ResetKeepsInv | core/tx_pool.go:118-151 | A new head with advanced nonces keeps the invariant, now based on the new state. |
| PoolSpec.ArriveKeepsInv | core/tx_pool.go:293-320 | Accepting transactions keeps the invariant. |
| PoolSpec.RunKeepsInv | core/tx_pool.go:118-320 | In every run each sender's pending nonces are exactly those from the state's to the pool's nonce, and no queued transaction has the pool's nonce. |
| PoolSpec.EmptyPoolInv | core/tx_pool.go:76-92 | A new pool satisfies the invariant. |
| PoolSpec.AcceptedIsPlaced | core/tx_pool.go:179-302 | An accepted transaction becomes pending at once if its nonce is next, and otherwise stays queued unless 64 with no higher nonces do. |
| PoolSpec.FirstRefusal | core/tx_pool.go:179-232 | A transaction is admitted if and only if it keeps every rule, and each refusal comes if and only if its rule is broken and those tested before it hold. |
| PoolSpec.AdmittedExecutes | core/tx_pool.go:179-232 | An admitted transaction is applied in any state in which its nonce has come and its sender is no poorer. |
| PoolSpec.AdmittedIffExecutable | core/tx_pool.go:179-232 | Of the well-priced transactions of known senders whose nonce is next, exactly those that would execute are admitted. |
| PoolSpec.ListingKeepsRangesIff | core/tx_pool.go:340-356 | Listing keeps the ranges if and only if every pending transaction is still live. |
| PoolSpec.ListingLeavesHole | core/tx_pool.go:340-356 | A concrete pool whose range breaks when an account is drained. |
| PoolManager.SortByNonce | core/tx_pool.go:435 | A listing of the set by nonce, ties in any order. |
| PoolManager.TxPool.QueueTx | core/tx_pool.go:264-270 | Adds the transaction to its sender's queue. |
| PoolManager.TxPool.AddTx | core/tx_pool.go:273-290 | Makes an unknown transaction pending and moves its sender's nonce right behind it. |
| PoolManager.TxPool.DropDead | core/tx_pool.go:421-432 | Keeps exactly the affordable transactions not yet processed. |
| PoolManager.TxPool.Promote | core/tx_pool.go:436-456 | Promotes exactly the prefix of the list up to the first missing nonce. |
| PoolManager.TxPool.CheckSender | core/tx_pool.go:408-460 | One sender's queue is dropped, promoted and capped as specified; no other sender changes. |
| PoolManager.TxPool.CheckAll | core/tx_pool.go:407-461 | For any order of senders: every queue entry has 1 to 64 transactions, all above the promoted range, and anything cut by the limit has a nonce at least that of everything kept. |
| PoolManager.TxPool.CheckQueue | core/tx_pool.go:401-462 | The same with the delayed first reset, which amounts to a single pass. |
| PoolManager.TxPool.DropPending | core/tx_pool.go:480-503 | Removes exactly the dead transactions and finds the least unaffordable nonce per sender. |
| PoolManager.TxPool.Postpone | core/tx_pool.go:505-516 | Moves exactly the transactions at or above their sender's gap back to the queue. |
| PoolManager.TxPool.ValidatePool | core/tx_pool.go:469-517 | Keeps, requeues and drops exactly the sets fixed by the least unaffordable nonce per sender. |
| PoolManager.TxPool.Rebase | core/tx_pool.go:139-147 | Each nonce becomes the state's, or one above the sender's highest pending nonce. |
| PoolManager.TxPool.ResetState | core/tx_pool.go:118-151 | Validation, rebasing and a pass, in that order, from the new state. |
| PoolManager.TxPool.Enqueue | core/tx_pool.go:179-261 | Reports the first broken rule without effect, or queues the transaction. |
| PoolManager.TxPool.Add | core/tx_pool.go:293-302 | A refused transaction changes nothing; an accepted one is queued and the queue checked. |
| PoolManager.TxPool.AddTransactions | core/tx_pool.go:305-320 | Queues exactly the valid unknown transactions, then makes one pass. |
| PoolManager.TxPool.NewHead | core/tx_pool.go:100-107 | Remembers Homestead and resets. |
| PoolManager.TxPool.GetTransactions | core/tx_pool.go:340-356 | Returns the pending transactions after a pass and a validation. |
| PoolManager.TxPool.RemoveTx | core/tx_pool.go:383-398 | Removes the transaction from wherever it is and nothing else, leaving no empty entry. |
| Frames.Int24RoundTrip | p2p/rlpx.go:694-702 | A 24-bit length is read back as written. |
| Frames.CodeRoundTrip | p2p/rlpx.go:672-676 | Every 64-bit message code is read back from in front of any payload. |
| Frames.CodeReadIsCanonical | p2p/rlpx.go:672-676 | Whatever is read as a code is exactly what the writer writes for it. |
| Bytes.XorUnits | p2p/rlpx.go:538-544 | Zero changes nothing under exclusive or, and a byte cancels itself. |
| Frames.FrameRoundTrip | p2p/rlpx.go:591-680 | A frame read with the state it was written with returns the message, leaves the bytes after it and ends in the writer's state. |
| Frames.ReadBackIffNoWrap | p2p/rlpx.go:596-602 | An accepted message is read back if and only if its 32-bit frame size did not wrap. |
| Frames.WrappingMessage | p2p/rlpx.go:596-602 | A concrete message whose frame size wraps to zero and which is not read back. |
| Frames.ConversationRoundTrip | p2p/rlpx.go:591-680 | Every sequence of messages is read back identically and both ends stay in step. |
| FrameRW.FrameRW.Reseed | p2p/rlpx.go:684-692 | The MAC update with its byte-wise loop. |
| FrameRW.FrameRW.WriteMsg | p2p/rlpx.go:591-631 | Sends exactly the specified frame and advances only the outgoing state, or refuses oversized messages. |
| FrameRW.FrameRW.ReadMsg | p2p/rlpx.go:633-680 | Returns what the specified reading returns, advancing only the incoming state; a bad MAC or short input yields nothing. |
| Tampering.ForgedHead | p2p/rlpx.go:640-643 | A header whose tag is not the one the transcript demands is refused. |
| Tampering.ForgedFrame | p2p/rlpx.go:659-667 | So is a body of any content. |
| Tampering.CutFrame | p2p/rlpx.go:634-663 | No proper prefix of a frame is taken for a message. |
| Tampering.AlteredHead | p2p/rlpx.go:640-643 | An altered header that is not refused gives a collision of the MAC hash. |
| Tampering.AlteredBody | p2p/rlpx.go:659-667 | So does an altered body. |
| Tampering.ReplayedFrame | p2p/rlpx.go:684-692 | So does a frame accepted a second time. |
| Tampering.FrameIsStream | p2p/rlpx.go:600-630 | Without its tags a frame is one stretch of the key stream over header and body, and the next frame goes on where it ends. |
| Tampering.ConversationMovesOn | p2p/rlpx.go:591-631 | Over a whole conversation no byte of the key stream is used twice. |
| Tampering.HeadLayout | p2p/rlpx.go:600-601 | The header is the big-endian size, the RLP list of two empty strings, and zeros. |
| Handshake.PlainPacketRead | p2p/rlpx.go:480-490 | The reader takes exactly a plain packet off the connection. |
| Handshake.Eip8PacketRead | p2p/rlpx.go:491-509 | The reader takes exactly an EIP-8 packet off the connection if and only if its first bytes are not a valid plain ciphertext, and otherwise just those bytes. |
| Handshake.Eip8TakenForPlain | p2p/rlpx.go:480-509 | Primitives that satisfy every equation, under which every EIP-8 packet is taken for a plain one. |
| Handshake.CutPacket | p2p/rlpx.go:491-509 | An EIP-8 packet that breaks off is not read. |
| Handshake.UndersizedRefused | p2p/rlpx.go:493-496 | A packet that claims to be smaller than a plain one is refused. |
| Handshake.StructRoundTrip | p2p/rlpx.go:460-474 | A handshake structure is parsed back whatever padding follows. |
| Handshake.AuthArrives | p2p/rlpx.go:349-377 | The listener reads the dialer's message in either form. |
| Handshake.HandshakeMirrors | p2p/rlpx.go:228-257 | Both sides complete with equal keys, and each side's outgoing MAC state is the other's incoming one. |
| Handshake.SessionsAgree | p2p/rlpx.go:569-680 | After the handshake whatever one side sends the other reads, in both directions and in step. |
| KeyAgreement.HandshakeDerives | p2p/rlpx.go:228-257 | Both sides derive their secrets from the agreement of the ephemeral keys, both nonces and both packets. |
| KeyAgreement.FreshKeys | p2p/rlpx.go:235-240 | Two handshakes with different ephemeral agreements or nonces that end with an equal AES or MAC key give a hash collision. |
| KeyAgreement.AesDiffers | p2p/rlpx.go:235-240 | Equal AES keys come from equal agreement and nonces, or from a hash collision. |
| KeyAgreement.MacDiffers | p2p/rlpx.go:235-240 | Equal MAC keys do as well. |
| KeyAgreement.TranscriptsDiffer | p2p/rlpx.go:243-256 | The two directions of one side start from different MAC transcripts if the nonces differ. |
| KeyAgreement.TranscriptsBind | p2p/rlpx.go:243-256 | Under one MAC key equal transcripts come from the same nonce and the same packet. |
| KeyAgreement.KeysSeparate | p2p/rlpx.go:569-588 | The key stream is the AES key's alone, the tags are the MAC key's alone. |
| KeyAgreement.AuthBinds | p2p/rlpx.go:319-328 | The signature of the first message covers the static agreement and the nonce. |
| Protocols.RangesTile | p2p/peer.go:270-292 | The chosen ranges cover exactly the codes from 16 up to the sum of their lengths. |
| Protocols.RangesDisjoint | p2p/peer.go:270-292 | No code belongs to two protocols. |
| Protocols.SortCaps | p2p/protocol.go:79-81 | A permutation in order of name and version. |
| Protocols.TakeCap | p2p/peer.go:276-290 | Entering a higher version replaces the lower one at the same offset. |
| Protocols.MatchProtocols | p2p/peer.go:270-292 | Exactly the shared names run, in their highest shared version, each after the lengths of all earlier names. |
| Protocols.GetProto | p2p/peer.go:318-325 | Finds a running protocol whose range holds the code, or none if there is none. |
| Protocols.RoutingUnique | p2p/peer.go:318-325 | At most one protocol takes a code, so the map order does not matter. |
| Protocols.PeersAgree | p2p/peer.go:270-292 | Two peers compute the same names, versions and offsets from each other's advertisements. |
| Protocols.RunsHighest | p2p/peer.go:270-292 | No shared version is passed over for a lower one; what runs is one's own and was advertised. |
| Protocols.NameOrder | p2p/peer.go:270-292 | The ranges follow the order of the names, from 16 on. |
| Protocols.CodesTravel | p2p/peer.go:337-364 | Exactly the codes below a protocol's length are written; each reaches the same protocol on the other side, and no other, as the same code. |
| Dial.DialState.AddStatic | p2p/dial.go:117-119 | Adds one static node. |
| Dial.DialState.Expire | p2p/dial.go:275-279 | Exactly the entries whose time has passed are forgotten. |
| Dial.DialState.AddDial | p2p/dial.go:123-131 | Plans a dial exactly when the node is not dialing, connected or remembered. |
| Dial.DialState.DialRandom | p2p/dial.go:156-164 | Tries the random nodes for half of the wanted dials, uses no more than half, and never exceeds the limit. |
| Dial.DialState.DialFound | p2p/dial.go:167-173 | Tries lookup results from the front while dials are wanted and drops those tried. |
| Dial.DialState.NewTasks | p2p/dial.go:121-191 | One round: allowed dials only, static nodes first, the dynamic limit, a lookup exactly when results run short and none runs, a timer for the earliest expiry exactly when nothing else runs. |
| Dial.DialState.TaskDone | p2p/dial.go:193-205 | Books a finished dial with its expiry, or a finished lookup with its results. |
| DialRuns.StartInv | p2p/dial.go:102-115 | A new scheduler satisfies the invariant. |
| DialRuns.StepKeepsInv | p2p/dial.go:121-205 | Every planning round, finished task and peer change keeps the scheduler's invariant. |
| DialRuns.RunSafe | p2p/dial.go:121-205 | In every run no node is dialed twice at once, at most one lookup is active, and dynamically dialed peers and dials together stay within the limit. |
| DialRuns.RedialWaits | p2p/dial.go:123-131 | A node is dialed only when no dial to it is in flight, and strictly more than 30 seconds after the time handed to taskDone for every earlier dial to it. |
| DialRuns.StaticsDialed | p2p/dial.go:121-154 | Every planning round dials a static node if and only if no dial to it is in flight, it is no peer, and no dial to it was booked within 30 seconds. |
| DialRuns.RunGenuine | p2p/dial.go:193-205 | In every run the history holds nothing but finished dials. |
| DialRuns.KeepsLooking | p2p/dial.go:175-181 | While dynamic peers are missing a lookup is in flight after every planning round. |
| DialRuns.ResultsUsed | p2p/dial.go:167-173 | In the next round every result of a lookup is dialed, connected or remembered, or kept because enough dials are under way. |
| DialRuns.OtherTasks | p2p/dial.go:175-189 | Only the first lookup sets the table up; a timer runs alone and ends when the first booked dial is 30 seconds old. |
| DialRuns.NeverFallsAsleep | p2p/dial.go:182-189 | With nothing in flight and a dial that finished no more than 30 seconds ago, planning starts a task. |
| Rlp.IntLen | common/rlp.go:117-123 | The number of bytes a length needs. |
| Rlp.SliceTag | common/rlp.go:200-219 | The slice path writes the one list prefix for its length. |
| Rlp.Decode | common/rlp.go:232-292 | The decoder equals the specified one, panics included. |
| Rlp.DecodeFinds | common/rlp.go:232-292 | Wherever an encoding occurs, decoding yields its value and stops right after it. |
| Rlp.RoundTrip | common/rlp.go:125-228 | Decoding an encoding returns the value and its exact length, for all nested values. |
| Rlp.TruncatedPanics | common/rlp.go:232-292 | No encoding cut short is decoded: the decoder indexes out of range. |
| Rlp.EncodeInjective | common/rlp.go:125-228 | Different values have different encodings. |
| RlpRaw.AcceptsExactly | rlp/raw.go:86-156 | Acceptance, kind and sizes hold if and only if the input carries the unique tag the encoder writes. |
| RlpRaw.PanicsExactly | rlp/raw.go:86-125 | The reader indexes out of range if and only if the input is the single byte 0x81. |
| RlpRaw.FailureKinds | rlp/raw.go:86-156 | An input is cut, not in shortest form, or too large, each with its exact condition. |
| RlpRaw.SplitOfEncode | rlp/raw.go:39-45 | Splitting an encoding followed by anything returns its content and the rest. |
| RlpRaw.SplitIsEncoding | rlp/raw.go:39-45 | What was split encodes back to the input. |
| RlpRaw.CountValues | rlp/raw.go:74-84 | The loop counts the values the input splits into. |
| RlpRaw.CountOfEncodings | rlp/raw.go:74-84 | A concatenation of n encodings counts n values. |
| Icap.ExpandedValue | common/icap.go:143-157 | Reading the expansion in base ten gives the weighted number of the string. |
| Icap.Iso13616Expand | common/icap.go:143-157 | Rejects other characters and expands letters to two digits. |
| Icap.AlphabetCodes | common/icap.go:143-157 | Digits count from zero with one decimal digit, letters on from ten with two. |
| Icap.Reverse | common/icap.go:170-173 | Reverses the digits in place. |
| Icap.Base36Encode | common/icap.go:159-175 | The base-36 digits of the number. |
| Icap.Base36Value | common/icap.go:159-175 | Base-36 digits read back as the number. |
| Icap.CheckDigits | common/icap.go:129-140 | Always two digits between 02 and 98. |
| Icap.CheckDigitsValid | common/icap.go:129-140 | The digits make the rearranged number one modulo 97. |
| Icap.ValidCheckSum | common/icap.go:116-127 | Separates bad characters from a wrong checksum. |
| Icap.AddressToICAP | common/icap.go:79-87 | Produces the specified form. |
| Icap.ICAPToAddress | common/icap.go:39-77 | Reports the first error in the order of the code, or the address. |
| Icap.AcceptedIff | common/icap.go:39-77 | Exactly the strings of 34 or 35 base-36 characters that begin with XE and have a correct checksum are addresses; each error has its own condition. |
| Icap.RoundTrip | common/icap.go:39-87 | Every 160-bit address survives the round trip, in 34 or 35 characters. |
| Icap.ReplacementRejected | common/icap.go:116-127 | Replacing any one character by another of its class breaks a correct checksum. |
| Curve.DoubleRepresents | crypto/curve.go:182-212 | Doubling a representative of a point gives one of the doubled point by the tangent law. |
| Curve.AddRepresents | crypto/curve.go:111-172 | Adding representatives of points with different x gives one of their sum by the chord law. |
| Curve.DoubleKeepsCurve | crypto/curve.go:182-212 | Doubling any triple on the curve stays on the curve, for any modulus. |
| CurveLaw.OnCurveIsChecked | crypto/curve.go:74-86 | The membership test is the curve equation modulo P. |
| CurveLaw.SameCurve | crypto/curve.go:91-101 | A triple is on the curve if and only if its affine point is. |
| CurveLaw.AddKeepsCurve | crypto/curve.go:111-172 | Adding finite triples on the curve with different x gives a finite triple on the curve. |
| CurveLaw.AddInfiniteIff | crypto/curve.go:158-171 | The sum is infinite if and only if a summand is or both have the same x. |
| CurveLaw.DoubleInfiniteIff | crypto/curve.go:207-209 | The double is infinite if and only if the point is, or its y is zero. |
| CurveGroup.MultipleOnCurve | crypto/curve.go:216-252 | Every multiple of a curve point below its order is a finite curve point. |
| CurveGroup.DifferentFromBase | crypto/curve.go:236-242 | No multiple from 2 to N - 2 shares its x with the base point: an equal one would make the multiple below it infinite, an opposite one the multiple above it. |
| CurveGroup.AddsByChord | crypto/curve.go:240 | Adding the base point to a higher multiple, with the sum below the order, takes the chord. |
| CurveGroup.DoublesByTangent | crypto/curve.go:234 | Doubling a multiple, with the double below the order, takes a tangent that is not vertical. |
| ScalarMult.AffineFromJacobian | crypto/curve.go:91-101 | Dividing out z recovers the affine point. |
| ScalarMult.NextBit | crypto/curve.go:232-244 | One bit doubles and adds; below the order the sum is taken only of finite points with different x. |
| ScalarMult.ScalarMult | crypto/curve.go:216-252 | Returns k times the base point for every 0 < k below its order, and nothing for zero. |

## Left out

- `SetHead`, `Rollback`, `FastSyncCommitHead`, fast-sync receipts and runs that mix header and block imports: they break the head invariants on purpose.
- Block and receipt stores beyond headers, bodies, total difficulties, the number map and the transaction index; caches, the future-block queue, bad-block reports, chain events and logs.
- Database and I/O errors, and the error of the state function in the transaction pool: reads and writes succeed.
- `InsertHeaderChain` and the batching of `InsertChain`: one header or block at a time, with linked input.
- The contents of the state trie and the virtual machine; contract addresses are an arbitrary function.
- `commitTransactions` on work that already holds transactions, and the price order of the transactions handed to it.
- Handing out nonces through the pool's managed state, and the gas price and removal events of the pool beyond the methods they call.
- Accounts below the top level of execution: the depth limit and nested calls are inside the virtual machine.
- Timeouts, goroutines, disconnects, snappy and the protocol handshake of the transport; each locked section is one step.
- `DecodeWithReader`, reflection-based encoding, and byte slices that share capacity.
- `GenerateKey`, `Marshal`, `Unmarshal` and the curve constants.
- Everything outside these packages: accounts, downloader, fetcher, discovery, RPC, mining agents, ethash, gas price oracle, JavaScript runtime and command line.
- ScalarMult.ScalarMult: that adding multiples of the base point by the complete law adds their factors is assumed, because associativity of the curve group is not derived here.
- ChainManager.BlockChain.ImportBlock: takes the gas the block used, at most its limit, from the caller, because processing is joined to it in Importing.
- Importing.InsertBlock: whether the state, receipt and bloom roots match is a parameter, because the state trie is not part of this model.
- Handshake.HandshakeMirrors: assumes of EIP-8 packets that their first bytes are not a valid plain ciphertext, because the reader would otherwise take them for a plain packet.
- Protocols.MatchProtocols: does not model 64-bit wrap-around of the offset, because the lengths of the protocols a node runs add up to far less.
