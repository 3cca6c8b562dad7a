# A verified model of the CKB node's chain, cells and kernels

Dafny 4.11 models of the parts of a CKB node that have to agree with each other, and proofs about them.
`dafny verify dfyconfig.toml` checks the whole project. Nothing here runs the node.

The centre is **chain reorganisation**. A node keeps a tree of blocks, an index of the main chain, one
record (`ext`) per block, epochs, and the set of live cells in memory and on disk. Inserting one block may
switch the main chain to another branch. All these structures are updated step by step, by different code.
The proofs say that they stay in agreement over every run, that a rejected block leaves no trace, and that
the outcome does not depend on the order in which blocks arrive.

| file | what it holds |
|---|---|
| `Types.dfy` | out points, transactions, blocks |
| `BlockTree.dfy` | trees of blocks: paths, total difficulty, inherited epochs, fork points |
| `ForkChoice.dfy` | one insertion as a state transition, its invariant, and runs from genesis |
| `StoreBatch.dfy` | the ordered write batch and what committing it does to the index |
| `ChainService.dfy` | `ForkChanges`, `GlobalIndex` and the chain service as classes with the source's loops, proved to perform the transition of `ForkChoice` |
| `CellSets.dfy`, `CellReplay.dfy` | the update a reorg's diff makes, and its equality with replaying the new chain |
| `CellState.dfy` | `CellSetDiff`, `CellSet` and `ChainState::update_tip` as classes, with the writes to disk |
| `CellOverlay.dfy` | the read-only overlay used while a reorg is being verified |
| `Node.dfy` | chain service and chain state together, and runs of both |
| `ReorgSoundness.dfy` | when the chains adopted over a run are well formed and free of double spends |
| `DoubleSpendRun.dfy` | a concrete run that adopts a double spend |
| `Resolution.dfy` | block-wide resolution of transactions |
| `SequentialExecution.dfy` | the one-transaction-at-a-time reference and the exact relation between the two |
| `ChainSoundness.dfy` | when a block resolved on the overlay of a reorg keeps the new chain free of double spends |
| `CuckooCycle.dfy` | verification of a Cuckoo Cycle proof |
| `CacheDb.dfy` | the write-through LRU cache over the key-value store |
| `PeerRegistry.dfy` | peer admission and eviction |
| `ScriptGroups.dfy` | script grouping and cycle accounting |
| `BlockTemplates.dfy` | block-template budgeting and its cache |
| `Difficulty.dfy` | target and difficulty conversions |

What comes from outside is an argument of the model: contextual and stateless block verification are
arbitrary verdicts per block, the epoch rule is an arbitrary function that names the new epoch by the block
it is computed from, headers and base cells are arbitrary functions, a script group's run is an arbitrary
function, the Cuckoo edge hash is an arbitrary function, and clock, pool, uncles and random choices are
arbitrary inputs. Hash-map traversals pick an arbitrary next element, so every claim holds for every order.

Callers of block insertion owe what the source expects of them: the parent is stored, the number is the
parent's plus one, the difficulty is positive, the block is not stored yet, and its hash is not the key under which
the genesis epoch is stored (`BlockTree.Fresh`). The genesis hash is not that key either (`Consensus.Valid`).

## Properties that turned out false, and exactly when they hold

- The overlay used during a reorg is meant to show the cell set after the reorg. It does so for a
  transaction if and only if `CellOverlay.Diverges` is false. It is true only for transactions outside the base set.
  One case is an output created and spent inside the diff, because spends are looked up in the base map alone.
  `OverlayMissesSpend` is an instance, and `OverlayLiveness` says which cells look live during a reorg.
- Verification is meant to keep double spends off the chain. For blocks with new transactions it does so if and
  only if no block it resolves brings one (`AdoptedChain`, and over whole runs `ServedRun`). A block brings one in
  exactly two ways. It respends a cell that the reorg has created and spent before it, which still looks live in the
  overlay; `DoubleSpendAdopted` is a whole run that ends so. Or it spends one cell under two out points, which the
  set of seen inputs takes for two cells; `TipDoubleSpend` is such a block on top of the tip. A block on top of the
  tip can only do the second (`TipExtension`).
- Block-wide resolution is meant to accept what sequential execution accepts. It does so if and only if no
  spent cell is named again by a different out point (`NoAlias`), since the set of seen inputs is keyed on
  the whole out point, block hash included. `TwoFormsDiffer` is an instance.
- `Cuckoo::verify` is meant to return a verdict. Its lookups fail if and only if a proof that passes all
  earlier checks repeats the edge of its first nonce under another nonce. `RepeatedEdge` is an instance.
- The cache is meant to be transparent. It is so over all runs if and only if every cached column of positive
  capacity exists in the store, because writes to a missing column are dropped by the store and kept by the cache.
- Target, difficulty, target, difficulty is stable for every even target, and for an odd target above one if and
  only if quotient and remainder of 2^255 by it are as `DifficultyStable` says. `ThreeDrifts` is an instance.

## Model

| member | source | states |
|---|---|---|
| BlockTree.DifficultyGrows | chain/src/chain.rs:253-254 | total difficulty strictly grows along every path of the tree, so a block never ties with its own ancestor |
| BlockTree.EpochDeterminedByKey | chain/src/chain.rs:269-304 | two stored blocks with the same epoch key have the same epoch, so rewriting an epoch record under its key never changes it |
| BlockTree.ForkApart | chain/src/chain.rs:458-499 | two paths of one tree share a block at a number if and only if the number is below their fork point, so the fork point is the highest common ancestor |
| ForkChoice.GenesisInv | store/src/store.rs:254-319 | the state written for genesis satisfies the invariant of all reachable states |
| ForkChoice.SideBlockKeepsInv | chain/src/chain.rs:266-304 | storing a block that does not win keeps tree, exts, epochs, index and best tip in agreement |
| ForkChoice.SwitchKeepsInv | chain/src/chain.rs:306-341 | switching to a winning block whose unverified ancestors all pass keeps them in agreement, with index and epoch of the new path |
| ForkChoice.StepKeepsInv | chain/src/chain.rs:224-385 | every insertion, accepted or rejected, won or lost, keeps the invariant |
| ForkChoice.AcceptsExactly | chain/src/chain.rs:225-309 | a request is accepted if and only if stateless verification passes or is not asked for, and, for a block that wins on (total difficulty, hash), every block of its path that is neither indexed nor verified is judged valid |
| ForkChoice.StepStores | chain/src/chain.rs:253-298 | an accepted block is stored with its parent's difficulty and uncle sums plus its own, and no other sums change |
| ForkChoice.StepEpoch | chain/src/chain.rs:269-304 | its epoch is what the epoch rule gives for its parent, else the parent's own epoch |
| ForkChoice.StepLoses | chain/src/chain.rs:338-341 | a block that does not win moves neither tip, index nor epoch, and its ext waits unverified |
| ForkChoice.StepWins | chain/src/chain.rs:306-337 | a block that wins is the tip, number and hash index are exactly its path, and its epoch is current |
| ForkChoice.StepMarks | chain/src/chain.rs:540-659 | the blocks of the path that were neither indexed nor verified are marked, with the fees of their verdict or none without verification; every other ext is as before |
| ForkChoice.ReachableState | chain/src/chain.rs:224-385 | after every run from genesis the tip beats every other stored block on (higher total difficulty, smaller hash), as the exts say it, the number index is exactly the parent path from tip to genesis, all of it verified, and the current epoch is the tip's |
| ForkChoice.ReachableExts | chain/src/chain.rs:288-304 | after every run each stored block's ext carries the sums of its own path, its parent's plus its own, no stored block is marked invalid, and verified blocks have verified parents |
| ForkChoice.ReachableEpochs | chain/src/chain.rs:269-304 | after every run the epoch filed for a block is what the epoch rule gives for its parent, else its parent's; the current epoch is the one filed for the tip |
| ForkChoice.SameBlocksSameChain | chain/src/chain.rs:306-309 | two states that satisfy the invariant over the same blocks have the same tip, difficulty, epoch and index |
| ForkChoice.OrderIndependence | chain/src/chain.rs:224-385 | two runs that end with the same stored blocks, inserted in different parent-first orders, end with the same tip, main chain, total difficulty and epoch |
| ForkChoice.NoDetachExtendsTip | chain/src/chain.rs:332-334 | a winning block detaches nothing if and only if its parent is the old tip, which is why the epoch may stay unwritten then |
| StoreBatch.DetachAll | store/src/store.rs:572-587 | committing the detach writes removes exactly the entries of the detached blocks from both index columns |
| StoreBatch.AttachAll | store/src/store.rs:526-570 | committing the attach writes folds the attached blocks into the two index columns and touches no other column |
| StoreBatch.FiledAt | store/src/store.rs:526-570 | the folded columns hold every attached block's hash under its number and its number under its hash |
| StoreBatch.FiledElse | store/src/store.rs:526-570 | every other key of the two columns is as before |
| StoreBatch.WriteExts | store/src/store.rs:522-524 | committing the ext writes folds them into the ext column and touches no other column |
| StoreBatch.RewrittenAt | store/src/store.rs:522-524 | the folded column holds each listed block's new ext |
| StoreBatch.RewrittenElse | store/src/store.rs:522-524 | every other ext is as before |
| StoreBatch.Reindex | chain/src/chain.rs:396-410 | detaching in any order and then attaching turns the index of the old main chain into the index of the new path |
| ChainService.GlobalIndex.Forward | chain/src/chain.rs:132-151 | moving on steps to the parent: the number falls by one and the hash is the given one |
| ChainService.Chain.constructor | store/src/store.rs:254-319 | a new chain is the genesis state and satisfies the invariant |
| ChainService.Chain.AlignmentFork | chain/src/chain.rs:412-456 | the longer branch is walked down to the other's height: exact detached blocks in push order, exact attached suffix, exact dirty exts |
| ChainService.Chain.FindForkUntilLatestCommon | chain/src/chain.rs:458-499 | the lock-step walk ends at the highest common ancestor, with every block passed on either side recorded |
| ChainService.Chain.FindFork | chain/src/chain.rs:501-529 | attached is the ascending parent path above the highest common ancestor, detached is the old main chain above it, each block once and in a stated order, and the dirty exts are those of the last attached blocks |
| ChainService.Chain.UpdateIndex | chain/src/chain.rs:396-410 | the batch grows by the detach writes in deque order, then the attach writes |
| ChainService.Chain.BuildVerifyContext | chain/src/chain.rs:98-129 | the diff starts as that of all detached and all already verified attached blocks |
| ChainService.Chain.VerifyAttached | chain/src/chain.rs:540-652 | verification stops judging at the first failure; without one every unverified block is marked and enters the diff |
| ChainService.Chain.ReconcileMainChain | chain/src/chain.rs:532-667 | it succeeds if and only if all unverified attached blocks pass; then the writes mark exactly their exts and the diff is that of the whole fork; else the error is that of the first failing block |
| ChainService.DirtyIsUnverified | chain/src/chain.rs:94-96 | the dirty exts belong exactly to the attached blocks not yet verified, position by position |
| ChainService.ReorgIsSwitch | chain/src/chain.rs:306-341 | the columns left by committing the batch of a reorg are those of the abstract switch |
| ChainService.Chain.InsertBlock | chain/src/chain.rs:224-385 | a block that fails stateless verification is refused with that error; any other succeeds if and only if it does not win or every block of its path that is neither indexed nor verified is valid; then it is stored, and is the tip if it wins; else the error is that of the first block that is not valid; a rejected block, also in the middle of a reorg, changes nothing; the invalid-parent error never occurs; the diff handed on is that of the detached and attached blocks |
| CellReplay.ReplayHolds | shared/src/chain_state.rs:230-305 | replaying a well-formed chain leaves exactly its transactions, each output dead exactly when the chain spends it |
| CellReplay.SetUnset | core/src/transaction_meta.rs:80-98 | setting or clearing dead bits by out points adds or removes exactly those cells from what a meta counts as spent, out-of-range indices included |
| CellReplay.UndoHolds | shared/src/chain_state.rs:248-280 | undoing detached transactions from the cell set of a chain leaves the cell set of the common part |
| CellReplay.RedoHolds | shared/src/chain_state.rs:282-305 | adding attached transactions to it gives the cell set of the new chain |
| CellReplay.NothingRebuilt | shared/src/chain_state.rs:255-271 | every transaction named by an undone input is still in memory, so nothing is rebuilt from the store |
| CellReplay.ReorgReplays | shared/src/chain_state.rs:230-305 | for chains with unique transactions that spend each cell at most once after its creation, updating with the reorg's diff gives the replay of the new chain from genesis |
| CellReplay.ReorgBack | shared/src/chain_state.rs:230-305 | reorganising there and back restores the cell set exactly |
| CellReplay.NoDoubleSpend | core/src/cell.rs:524-633 | what `SpendsOnce` means for a chain: every input spends an output made earlier in the chain, and no other input of the chain, in the same transaction or elsewhere, spends it |
| CellState.CellSetDiff.PushNew | shared/src/cell_set.rs:17-33 | the inputs of the block are added, each of its transactions is filed with the block's number and epoch, whether it is a cellbase, and its number of outputs, and nothing else changes |
| CellState.CellSetDiff.PushOld | shared/src/cell_set.rs:35-43 | the inputs and transaction hashes of the old block are added, and nothing else changes |
| CellState.CellSet.InsertCell | shared/src/cell_set.rs:139-155 | a rebuilt transaction holds one live output, every other output dead, with the header fields handed in |
| CellState.CellSet.InsertTransaction | shared/src/cell_set.rs:157-172 | the transaction's outputs are all live, with the header fields handed in, and its stored meta is returned |
| CellState.CellSet.Remove | shared/src/cell_set.rs:174-176 | exactly that transaction is gone |
| CellState.CellSet.MarkDead | shared/src/cell_set.rs:178-187 | one output dies; the write is an update, or a deletion exactly when no live output is left; unknown transactions give nothing |
| CellState.CellSet.TryMarkLive | shared/src/cell_set.rs:190-197 | one output is live again, or nothing happens and nothing is returned for an unknown transaction |
| CellSets.UpdatedAt | shared/src/chain_state.rs:230-305 | what an update leaves for a transaction: whether it is in the set, where its header fields come from, and output by output whether it is dead |
| CellState.ChainState.UpdateTip | shared/src/chain_state.rs:230-328 | for every traversal order of the four sets the set in memory becomes the specified update, memory and disk agree again although the writes captured intermediate metas, and fully spent transactions are off the disk when the spends undone are in range |
| CellState.TidyIsExact | shared/src/chain_state.rs:307-325 | then a transaction with outputs is on disk if and only if it is not fully spent, with the meta it has in memory |
| CellState.AgreesOnLive | shared/src/chain_state.rs:145-167 | when memory and disk agree, loading the set from disk gives the same live or not-live answer for every out point |
| CellOverlay.NewOverlay | shared/src/cell_set.rs:80-129 | the loops build the specified overlay for every traversal order |
| CellOverlay.OverlayExact | shared/src/cell_set.rs:80-129 | the overlay answers what the update will leave for a transaction if and only if that transaction does not diverge |
| CellOverlay.OverlayMissesSpend | shared/src/cell_set.rs:113-122 | for a reorg between two concrete well-formed chains, an output one attached transaction creates and another spends is live in the overlay and not live after the reorg |
| CellOverlay.OverlayLiveness | shared/src/cell_set.rs:53-61 | during a reorg a cell looks live if and only if it is live after the new chain, or was created and spent by attached blocks in a transaction the old chain lacks |
| Node.MoveReplays | chain/src/chain.rs:343-359 | one insertion takes the replay of the main chain to the replay of the new main chain and to nothing else, whatever the order of detached blocks |
| Node.RunReplays | chain/src/chain.rs:224-385 | over every run whose chains are well formed there is exactly one possible cell set, the replay of the main chain |
| Node.ChainCells | shared/src/chain_state.rs:282-305 | in the cell set of a well-formed chain every transaction has the number and epoch of its block, is a cellbase exactly when it has one null input, one output and one witness, and each output is dead exactly when an input of the chain names it |
| Node.ChainCellsOnly | shared/src/chain_state.rs:230-305 | and there is no other transaction in it |
| Node.Node.constructor | store/src/store.rs:284-319 | the chain starts in order with memory and disk in agreement and no fully spent transaction on disk, and exact when the genesis transactions are well formed and spend nothing |
| Node.Node.ExactCells | shared/src/chain_state.rs:282-305 | the same of the node's cell set in memory, whenever it is exact |
| Node.Node.ProcessBlock | chain/src/chain.rs:206-222 | chain service and chain state together, for every request: the chain moves by the transition, the cell set by the reorg's diff and by nothing else, and the disk agrees with memory; an error changes nothing; a cell set that is the replay of the main chain stays so whenever the chain adopted is well formed, without anything from the store; the disk stays free of fully spent transactions on chains that spend outputs once |
| Resolution.BlockCellProvider.Cell | core/src/cell.rs:384-413 | it answers the output named, of the last transaction of that hash, with the block's number and epoch, and otherwise unknown, which leaves the answer to the base provider |
| Resolution.OverlayCell | core/src/cell.rs:325-334 | block cells in front of base cells give the combined answer for every out point |
| Resolution.NewBlockCellProvider | core/src/cell.rs:343-382 | construction succeeds if and only if no dep or input names a transaction at its own position or later; else the error names such an out point |
| Resolution.InputVerdict | core/src/cell.rs:537-584 | for each input of a transaction that is no cellbase, exactly when it is resolved, unknown, dead, unspecified or has a bad header, and the value resolved |
| Resolution.DepVerdict | core/src/cell.rs:586-622 | for each dep, exactly when it is resolved, unknown, dead, empty or has a bad header, and the value resolved |
| Resolution.ResolveTransaction | core/src/cell.rs:524-633 | success if and only if every verdict is good, with the values in order; else the first fault in scan order, or, without faults, all unknown out points in order; the inputs of a cellbase are skipped, of any other transaction all are resolved, each from a live cell not used before |
| Resolution.ResolveBlock | chain/src/chain.rs:561-590 | it returns the one resolution of the block, or an error exactly when there is none: an out point that is out of order, else the error of the first transaction that fails |
| SequentialExecution.ConsumeIs | core/src/cell.rs:537-584 | the reference run over inputs succeeds if and only if each input is usable after the ones before it were spent |
| SequentialExecution.PointExact | core/src/cell.rs:524-633 | one reference resolves in the sequential run if and only if it resolves block-wide, is in order, and is not aliased |
| SequentialExecution.ResolutionIsExecution | core/src/cell.rs:343-413 | for new transaction hashes, sequential execution yields `rs` if and only if block-wide resolution yields `rs` and no spent cell is named by another out point |
| SequentialExecution.CellsAloneNoAlias | core/src/transaction.rs:122-126 | blocks whose cell references carry no block hash meet that condition |
| SequentialExecution.TwoFormsDiffer | core/src/cell.rs:544-551 | a block that spends one cell under two out-point forms resolves, and no sequential execution of it succeeds |
| ChainSoundness.OverlayProvider | shared/src/chain_state.rs:776-813 | the provider over the overlay says live, dead or unknown exactly as the overlay's dead bits do |
| ChainSoundness.BlockExtends | core/src/cell.rs:524-633 | on any base that is right about the block's inputs, a resolved block with new transactions extends a chain without double spends to one without if and only if none of its inputs is aliased, and a well-formed chain to a well-formed one if and only if none is aliased with an earlier transaction |
| ChainSoundness.ReorgBlockExtends | chain/src/chain.rs:561-590 | a block of a reorg with new transactions, resolved on the overlay, keeps the new chain free of double spends if and only if it neither respends nor has aliased inputs, and well formed if and only if it neither respends nor has inputs aliased across transactions |
| ChainSoundness.ReorgDoubleSpend | chain/src/chain.rs:561-590 | in a concrete reorg of three attached blocks, whatever provider answers from the overlay, the third block resolves, has no aliased inputs, and spends a cell for the second time |
| ChainSoundness.TipDoubleSpend | core/src/cell.rs:544-551 | a concrete block on top of the tip, whatever provider answers, resolves, does not respend, and spends a cell twice under two out points |
| ReorgSoundness.AdoptedChain | chain/src/chain.rs:552-652 | when verified paths are free of double spends and every unverified block of a reorg has new transactions and resolves on its overlay, the chain adopted is free of double spends if and only if none of these blocks respends or has aliased inputs, and well formed if and only if none respends or has inputs aliased across transactions |
| ReorgSoundness.TipExtension | chain/src/chain.rs:552-652 | a block on top of the tip brings a double spend if and only if it has aliased inputs |
| ReorgSoundness.StepKeepsSound | chain/src/chain.rs:224-385 | an insertion that adopts a chain without double spends keeps every verified path free of them |
| ReorgSoundness.RunSpendsOnce | chain/src/chain.rs:224-385 | over every run whose reorgs resolve on their overlays, all main chains are free of double spends if and only if no block brings one; then all verified paths are, too |
| ReorgSoundness.ServedRun | chain/src/chain.rs:224-385 | the same from genesis on; and then the one possible cell set is the replay of the main chain |
| DoubleSpendRun.DoubleSpendAdopted | chain/src/chain.rs:224-385 | a concrete run of one heavy block and three side blocks is served from genesis on, all its reorgs resolve, and a main chain of it spends a cell twice |
| CuckooCycle.FindMate | pow/src/cuckoo.rs:208-215 | on a side where every node has two edges the lookup finds the far end of the other edge, unless both edges end in the same node |
| CuckooCycle.HopStep | pow/src/cuckoo.rs:207-217 | from an edge without twin both lookups succeed and the next edge has no twin either |
| CuckooCycle.HopInjective | pow/src/cuckoo.rs:207-217 | the walk step can be undone |
| CuckooCycle.WalkOn | pow/src/cuckoo.rs:207-222 | one more step meets a new upper node or is back at the first edge itself |
| CuckooCycle.CoveredSize | pow/src/cuckoo.rs:207-222 | a walk of n rounds has covered 2n different edges, so it ends within half the number of edges |
| CuckooCycle.WalkIsCycle | pow/src/cuckoo.rs:223 | a closed walk as long as the proof is one cycle through all edges |
| CuckooCycle.CycleIsWalk | pow/src/cuckoo.rs:223 | on one cycle through all edges the closed walk has the length of the proof |
| CuckooCycle.Verify | pow/src/cuckoo.rs:168-224 | accepted if and only if the nonces increase, lie within the mask and their edges form a single cycle; a lookup fails if and only if a proof that passes all earlier checks repeats the edge of its first nonce; the walk terminates |
| CuckooCycle.RepeatedEdge | pow/src/cuckoo.rs:208-211 | four increasing nonces whose edges pass the degree checks while the second repeats the edge of the first, the case in which the lookup fails |
| CacheDb.MemoryDb.Commit | db/src/memorydb.rs:111-126 | the operations are applied in order: a key of an existing column then has the value of its last operation, or none after a deletion, or what it had before; missing columns stay missing |
| CacheDb.EvictsOldest | db/src/cachedb.rs:67-86 | a new key goes to the recent end, at the cost of the least recently used entry when the cache is full |
| CacheDb.HitIsRecent | db/src/cachedb.rs:119-128 | a hit moves its entry to the recent end |
| CacheDb.Batch.Add | db/src/cachedb.rs:44-65 | the batch keeps all operations for the store and exactly those on cached columns for the caches |
| CacheDb.Store.Read | db/src/cachedb.rs:119-128 | the answer is that of the plain store and only recency changes |
| CacheDb.Store.PartialRead | db/src/cachedb.rs:130-138 | the answer is that of the plain store, ranges outside the value included |
| CacheDb.Store.Commit | db/src/cachedb.rs:67-86 | store and caches take the whole batch and are coherent again |
| CacheDb.BatchCoherent | db/src/cachedb.rs:67-86 | a batch keeps what the caches hold equal to what the store holds, whatever is evicted |
| CacheDb.TransparentExactly | db/src/cachedb.rs:43-138 | over all runs of commits, reads and partial reads the cached store answers as the plain store if and only if every cached column of positive capacity exists in the store |
| PeerRegistry.SortThenDrop | network/src/peer_registry.rs:33-41 | what is dropped are the n lowest keys, what is kept is the rest, and a list of at most n stays whole |
| PeerRegistry.LargestGroup | network/src/peer_registry.rs:157-171 | the group returned is a whole network group and no other is larger, for every iteration order |
| PeerRegistry.Registry.ConnectionStatus | network/src/peer_registry.rs:227-245 | the counts are those of unreserved inbound and outbound peers for every iteration order |
| PeerRegistry.Registry.TryEvictInboundPeer | network/src/peer_registry.rs:110-178 | a victim is found if and only if an unreserved inbound peer exists; it is one, and comes from a largest group left after the three rounds |
| PeerRegistry.VictimPing | network/src/peer_registry.rs:117-133 | with more than eight candidates eight others have no higher ping than the victim |
| PeerRegistry.VictimMessage | network/src/peer_registry.rs:135-150 | with more than sixteen, eight further candidates sent a message no longer ago |
| PeerRegistry.VictimAge | network/src/peer_registry.rs:151-155 | half of those left after two rounds were connected no later than the victim |
| PeerRegistry.Registry.AcceptPeer | network/src/peer_registry.rs:61-106 | limits, distinct peer ids and keys equal to session ids are kept over every run; each error has its exact condition, the inbound-limit error only when the maximum is zero; an error changes nothing; success adds exactly the peer, less one victim exactly when the inbound peers are at their limit |
| PeerRegistry.Registry.RemovePeer | network/src/peer_registry.rs:200-202 | exactly that session goes and the limits stay kept |
| PeerRegistry.Registry.RemovePeerByPeerId | network/src/peer_registry.rs:214-217 | afterwards no session has that peer id, and at most that one session is gone |
| ScriptGroups.BuildGroups | script/src/verify.rs:133-165 | every resolved input is in the lock group of its cell's lock hash and in no other; every input and output with a type script is in the type group of its hash and in no other; positions ascend, and each group has the first script of its hash |
| ScriptGroups.LockPartition | script/src/verify.rs:144-149 | every input with a resolved cell is in exactly one lock group, that of its lock hash, and there once |
| ScriptGroups.Verify | script/src/verify.rs:253-295 | success with c cycles if and only if the input checks pass, all groups succeed and their cycles sum to c within the limit, for every iteration order of both maps; each error names a reason that holds |
| ScriptGroups.TotalCounts | script/src/verify.rs:284-292 | the sum counts every lock group and every type group once with its own cycles |
| BlockTemplates.GetProposedTxs | shared/src/chain_state.rs:674-693 | the entries are the longest prefix of the pool whose sums stay strictly below both limits; the sums returned include the entry that ended it |
| BlockTemplates.OrMaximum | miner/src/block_assembler.rs:180-198 | the limit used never exceeds the maximum or the request, and is one of the two |
| BlockTemplates.BlockAssembler.TxsSizeLimit | miner/src/block_assembler.rs:233-252 | the remainder and the fixed parts add up to the limit, or the fixed parts exceed it |
| BlockTemplates.BlockSizeIs | core/src/block.rs:117-130 | the size of a block: a header for itself and each uncle, ten bytes a proposal, the cellbase and the transactions |
| BlockTemplates.BlockAssembler.GetBlockTemplate | miner/src/block_assembler.rs:254-374 | every template returned over a run, new or cached, rebuilds to a block within its byte limit, the consensus maximum and the cycle limit, and is for a tip, limit and version of this request; a new one is for the block after the locked tip with the uncles handed in, a current time after the tip's and as many transactions as fit; a cached one is young enough or unmodified; a refusal means the fixed parts alone exceed the limit |
| Difficulty.TargetToDifficulty | core/src/difficulty.rs:10-17 | the result is within two below 2^256 divided by the argument, from two on; smaller arguments give the maximum |
| Difficulty.DifficultyToTarget | core/src/difficulty.rs:19-26 | the same function, so that targets and difficulties convert alike |
| Difficulty.Antitone | core/src/difficulty.rs:10-17 | a higher target never has a higher difficulty |
| Difficulty.ThereAndBack | core/src/difficulty.rs:10-26 | converting twice loses nothing of an even value and at most one of an odd value |
| Difficulty.DifficultyStable | core/src/difficulty.rs:10-26 | the first difficulty comes back after a further round trip if and only if the target is even, or one, or the remainder of 2^255 by it is not below the quotient, or both together are below the target less one |
| Difficulty.ThreeDrifts | core/src/difficulty.rs:10-26 | for target three it does not come back |

## Left out

- Threads, channels and notifications: insertions are modelled as already serialised, cache commits as made one after another.
- Restart in the middle of a run: fully spent entries are then missing from memory and the rebuild path reads store columns outside this model.
- `TxPool`, the proposal table and pool contents after a reorg.
- Contextual verifiers, DAO statistics and epoch adjustment: a verdict per block and an epoch function stand for them; `received_at` and `dao_stats` of an ext are not modelled.
- Store columns for bodies, uncles, transaction addresses, cell metas and epoch numbers; the columns modelled are blocks, exts, the two index columns, the tip, epochs and the cell set.
- Updates of a `TransactionMeta` in place: metas are values owned by the map, so setting a bit gives a new meta that replaces the old one.
- Fixed-width overflow: difficulties, sizes and counts are unbounded, except for the 64-bit cycle sum and the 256-bit difficulty arithmetic.
- Issuing-DAO inputs in the cell set: they name no stored transaction, while the update of the cell set expects one; block resolution does model them.
- Header resolution through `BlockHeadersProvider`: headers are an arbitrary function.
- The Cuckoo edge hash, the byte decoding of proofs, blake2b, secp256k1 and CKB-VM.
- `custom_output` truncation; and the proposals limit of cached templates, which the cache key does not contain (new templates keep it).
- RocksDB, RPC, the networking service, the miner client, FlatBuffers code and configuration.
- ChainService.Chain.BuildVerifyContext: builds the diff only; the outputs map, the header provider and the fork context are inputs of the arbitrary verdicts.
- ReorgSoundness.ServedRun: the verdicts on blocks are arbitrary in `ForkChoice`, so that they come from resolution on the overlay is a condition on the run; so is that blocks bring transactions with new hashes and no issuing-DAO inputs.
