# Verified model of parity-bitcoin

A Dafny model of four parts of the node and proofs about them. Check everything with
`dafny verify dfyconfig.toml`.

**Chain store** (`KeyValue`, `TransactionMeta`, `SpentIndex`, `ChainStore`, `CanonicalChain`, `SideChains`,
`BlockChainDatabase`). The class `BlockChainDatabase` follows `db/src/block_chain_db.rs`: its methods build the same
write batches and are proved equal to functions on a `Store`. On those functions the main results are that every run of
inserts, canonizations, decanonizations, fork switches and rollbacks keeps the height index a well-formed chain
(`RunsKeepSkeleton`, on any blocks), that admissible runs keep the per-transaction records a replay of that chain
(`RunsStayCanonical`), so that the indexes depend on stored blocks and best hash and not on history
(`HistoryIndependence`), and that in every reachable store `fork` on a reported side chain ends on the header's parent
(`RunsForkSafely`), with the panics of `block_origin` characterised exactly (`OriginPanics`).

**Memory pool** (`PoolOrder`, `PoolGraph`, `PoolReferences`, `PoolSpends`, `PoolIterator`, `PoolVirtualFee`, `PoolRuns`,
`MemoryPool`, `PoolExamples`). The class `Storage` keeps all indexes of `miner/src/memory_pool.rs` in agreement
(`Consistent`). Iteration is the one greedy topological order of the strategy; package totals are exact after
parents-first runs, and the operations that break them do so exactly under a stated condition; the double spend check
reports exactly the spenders' families, which are exactly what removal takes out.

**Scripts** (`Script`, `ScriptNum`, `Stack`, `Signatures`, `MultiSig`, `Operations`, `OpcodeMeaning`,
`MultiSigMeaning`, `Interpreter`, `Conditionals`, `VerifyScript`, `PayToScriptHash`, `WitnessPrograms`, `NoStops`). All opcodes of
`eval_script` are modelled. The flat loop with its conditional stack equals a recursive evaluator over nested blocks
(`FlatMatchesRecursive`), every reachable state is within the limits (`RunsStayWithinLimits`), greedy multisig matching is
complete (`GreedyIsComplete`), and acceptance of script-hash outputs and key-hash witness programs is stated exactly.

**Codecs and arithmetic** (`LittleEndian`, `Serialization`, `TransactionCodec`, `SignatureHash`,
`OriginalSignatureHash`, `Merkle`, `CompactTarget`). Round trips with trailing bytes, what signature hashes and Merkle roots
bind, and the rounding of compact targets.

## Conventions

- A 256-bit hash is the number its 32 bytes spell, most significant byte first, so the byte-wise order is `<`.
- Hash functions and the signature checker are function values; proofs hold for all of them. Where
  hashes must not collide, the assumption speaks only of the strings or pairs hashed in the computations compared. (An
  injective hash of all strings does not exist.)
- Panics of the source are error values (`AssertionFailed`, `Unimplemented`), so that their absence is a theorem.
- A hash map that is iterated in the source is traversed in an arbitrary order, so results hold for every order. A
  `BTreeSet` is a set whose elements are identified by the order's equality.
- Pool scores, heights and counters are unbounded integers; script numbers, lengths and hash types have the source's
  widths.

## Where the code and its description differ

- `OP_DIV` and `OP_MOD` divide the top element by the one below it and reject a zero below, while the comment at
  `script/src/interpreter.rs:3598` describes `a 0 OP_DIV` as the failing case. `OpcodeMeaning.BinaryInOrder` states what
  the code does.
- `SignatureIllegalForkId` is never returned: outside the fork the bit it tests is not read
  (`Signatures.ForkIdErrors`).
- The low-S test is not implemented in the source and stops the program; it is reached exactly as
  `Signatures.LowSStops` says, and never without its flag (`NoStops.VerifyReturns`).
- `block_origin` expects never to find an orphaned side chain, and to find its best block indexed. Neither holds of
  every reachable store: `SideChains.OriginPanics` gives the exact condition, and `EmptyStorePanics`,
  `RollbackLeavesOrphan` and `SecondGenesisPanics` the runs that lead there.
- `set_virtual_fee` does not change the entry's own package virtual fee, and removal does not take an entry out of its
  ancestors' totals. `VirtualFeeKeepsPackagesIff` and `RemovalKeepsPackagesIff` give the exact conditions, and
  `PoolExamples` two pools on which the totals are wrong.
- A transaction without inputs does not survive its own serialization: the empty list reads as the witness marker
  (`TransactionCodec.RoundTripIffInputs`).

## Model

| member | source | states |
|---|---|---|
| `Overlay.ViewRefinesWrites` | db/src/kv/overlaydb.rs:22-33 | reading any key of any column through an overlay sees the base after all writes |
| `Overlay.DrainedWrites` | db/src/kv/memorydb.rs:30-67 | applying the drained operations gives each remembered key its last state and leaves every other key alone |
| `Overlay.FlushInstallsCopy` | db/src/kv/overlaydb.rs:17-19 | flushing leaves all columns as if every write had gone to them directly, in whatever order keys are drained |
| `Overlay.ReadsDetermine` | db/src/kv/memorydb.rs:100-114 | columns that read the same at every key are the same |
| `SpentIndex.CanonizeReplays` | db/src/block_chain_db.rs:286-324 | marking inputs and adding records of a valid block succeeds and gives the records of the longer chain |
| `SpentIndex.DecanonizeReplays` | db/src/block_chain_db.rs:361-396 | releasing the last block's inputs and dropping its records gives the records of the shorter chain, also for blocks that spend their own outputs |
| `SpentIndex.ChainSpendsMeaning` | db/src/block_chain_db.rs:292-320 | the outputs marked along a chain are exactly those some non-coinbase transaction on it spends |
| `SpentIndex.IsSpentMeaning` | db/src/block_chain_db.rs:503-508 | an output reads as spent exactly when a non-coinbase transaction of the chain spends it |
| `ChainStore.ReopenRestores` | db/src/block_chain_db.rs:99-119 | the in-memory best block is the persisted one: reopening restores the store |
| `ChainStore.EmptyStoreHasSkeleton` | db/src/block_chain_db.rs:113-119 | the empty store, where every run starts, has the empty skeleton |
| `ChainStore.InsertKeepsSkeleton` | db/src/block_chain_db.rs:201-222 | inserting any block keeps the canonical skeleton: the two height indexes inverse on 0..best, parents linked, height 0 on the zero hash, best persisted |
| `ChainStore.CanonizeKeepsSkeleton` | db/src/block_chain_db.rs:248-329 | no assertion fires, and a successful canonization extends the skeleton by the hash |
| `ChainStore.DecanonizeKeepsSkeleton` | db/src/block_chain_db.rs:331-401 | no assertion fires, the empty chain is refused, and success returns and drops the last hash |
| `ChainStore.RollbackKeepsSkeleton` | db/src/block_chain_db.rs:224-245 | rolling back drops the last hash, keeps the skeleton and returns the new best hash |
| `ChainStore.DecanonizeRouteKeepsSkeleton` | db/src/block_chain_db.rs:128-131 | a route that can be undone is the end of the canonical chain |
| `ChainStore.CanonizeRouteKeepsSkeleton` | db/src/block_chain_db.rs:133-135 | canonizing a route appends it to the skeleton |
| `ChainStore.RunsKeepSkeleton` | db/src/block_chain_db.rs:125-401 | every run of the five operations on any blocks with non-zero hashes keeps the skeleton |
| `CanonicalChain.CanonizeExtends` | db/src/block_chain_db.rs:248-329 | canonizing a stored block that validly follows the best block succeeds and appends it |
| `CanonicalChain.DecanonizeShrinks` | db/src/block_chain_db.rs:331-401 | decanonizing a non-empty replayed chain always succeeds and drops its last block |
| `CanonicalChain.DecanonizeUndoesCanonize` | db/src/block_chain_db.rs:248-401 | decanonize after canonize restores best block, both height indexes, every record and every stored block |
| `CanonicalChain.InsertKeepsCanonical` | db/src/block_chain_db.rs:201-222 | inserting stores the block and leaves the replayed chain alone |
| `CanonicalChain.FirstBlock` | db/src/block_chain_db.rs:201-329 | inserting and canonizing a valid first block starts a replayed chain |
| `CanonicalChain.RollbackKeepsCanonical` | db/src/block_chain_db.rs:224-245 | rollback removes the last block and its transactions and keeps the rest a replayed chain |
| `CanonicalChain.ForkSwitches` | db/src/block_chain_db.rs:125-142 | forking back to a height and over to a stored valid branch succeeds and replays the new chain |
| `CanonicalChain.RunsStayCanonical` | db/src/block_chain_db.rs:125-401 | along every admissible run the records are a replay of the canonical chain |
| `CanonicalChain.CanonicalMeaning` | db/src/block_chain_db.rs:477-508 | the transactions with a record are exactly those of canonical blocks, and spent means spent by a canonical non-coinbase transaction |
| `CanonicalChain.ChainDetermined` | db/src/block_chain_db.rs:248-401 | stored blocks and best hash determine the canonical chain |
| `CanonicalChain.HistoryIndependence` | db/src/block_chain_db.rs:248-401 | stores with the same blocks and best hash agree on every index and record, whatever their histories |
| `SideChains.WalkTells` | db/src/block_chain_db.rs:171-196 | the walk ends at the first canonical block, at the first missing header, or after 2048 stored side blocks, as it says |
| `SideChains.WalkLinks` | db/src/block_chain_db.rs:171-196 | the route is a chain of stored, non-canonical headers from the canonical block reached to the parent |
| `SideChains.CanonicalDepth` | db/src/block_chain_db.rs:171-180 | a canonical block's height is its number of parent links to the genesis |
| `SideChains.DepthUnique` | db/src/block_chain_db.rs:171-180 | a block has one depth |
| `SideChains.OriginPanics` | db/src/block_chain_db.rs:150-192 | `block_origin` panics if and only if there is no canonical block, or fewer than 2048 side blocks before the header end in one whose parent is missing |
| `SideChains.AncientExactly` | db/src/block_chain_db.rs:171-198 | an ancient fork is reported if and only if the 2048 blocks before the header are stored side blocks |
| `SideChains.ReportedExactly` | db/src/block_chain_db.rs:171-188 | a side chain is reported if and only if fewer than 2048 side blocks lie between the header and the canonical chain |
| `SideChains.ReportIsTrue` | db/src/block_chain_db.rs:171-188 | the reported number is the header's depth, the routes lead over the nearest canonical ancestor to the parent, and the chain becomes canonical exactly when the header is deeper than the best block |
| `SideChains.SuffixUndone` | db/src/block_chain_db.rs:128-131 | undoing the end of the canonical chain never trips the route assertion |
| `SideChains.ForkReachesParent` | db/src/block_chain_db.rs:125-199 | `fork` on any reported side chain never trips its route assertion, and on success the parent is best at its depth |
| `SideChains.RunsForkSafely` | db/src/block_chain_db.rs:125-401 | so in every store that any run of the five operations reaches |
| `SideChains.ForkOnValidBranch` | db/src/block_chain_db.rs:125-142 | when the route's blocks are valid in order the fork succeeds and replays the new chain |
| `SideChains.RootedNeverPanics` | db/src/block_chain_db.rs:150-192 | with every parent stored and one genesis, `block_origin` does not panic once there is a canonical block |
| `SideChains.RootedRunsNeverPanic` | db/src/block_chain_db.rs:125-401 | runs without a second genesis and without a rollback under a side block stay so, and panic exactly on a store without canonical blocks |
| `SideChains.RollbackKeepsParents` | db/src/block_chain_db.rs:233-238 | rollback keeps parents stored if and only if no stored side block builds on the removed one |
| `SideChains.RollbackKeepsBlocks` | db/src/block_chain_db.rs:233-238 | every other stored block still reads back if and only if none lists a transaction the removed block lists |
| `SideChains.EmptyStorePanics` | db/src/block_chain_db.rs:152 | a header offered to an empty store trips the opening assertion |
| `SideChains.RollbackLeavesOrphan` | db/src/block_chain_db.rs:190-192 | a run of six steps whose rollback orphans a side block, on which the next header panics |
| `SideChains.SecondGenesisPanics` | db/src/block_chain_db.rs:190-192 | a run that stores a second genesis, on which the next header panics |
| `BlockChainDatabases.MarkTransaction` | db/src/block_chain_db.rs:295-319 | the loop over inputs, fetching records on first use, computes the marked records or the same error |
| `BlockChainDatabases.CanonizedMetas` | db/src/block_chain_db.rs:286-320 | the transaction loop computes the records of `CanonizeMetas` or the same error |
| `BlockChainDatabases.ReleasedMetas` | db/src/block_chain_db.rs:361-388 | the transaction loop computes the released records or the same error |
| `BlockChainDatabases.BlockChainDatabase.Open` | db/src/block_chain_db.rs:113-119 | opening reads the best block from the columns |
| `BlockChainDatabases.BlockChainDatabase.Insert` | db/src/block_chain_db.rs:201-222 | refines `ChainStore.Insert`; an error changes nothing |
| `BlockChainDatabases.BlockChainDatabase.Canonize` | db/src/block_chain_db.rs:248-329 | refines `ChainStore.Canonize`; an error changes nothing |
| `BlockChainDatabases.BlockChainDatabase.Decanonize` | db/src/block_chain_db.rs:331-401 | refines `ChainStore.Decanonize`; an error changes nothing |
| `BlockChainDatabases.BlockChainDatabase.RollbackBest` | db/src/block_chain_db.rs:224-245 | refines `ChainStore.RollbackBest`; an error changes nothing |
| `BlockChainDatabases.BlockChainDatabase.Fork` | db/src/block_chain_db.rs:125-142 | runs both routes on a fresh overlay equal to `ChainStore.Fork` and leaves the store alone |
| `BlockChainDatabases.DrainTransaction` | db/src/kv/memorydb.rs:30-67 | lists every remembered operation once, in an arbitrary order |
| `BlockChainDatabases.BlockChainDatabase.SwitchToFork` | db/src/block_chain_db.rs:144-148 | takes over the best block and flushes the drained overlay; a store that has not moved becomes the fork |
| `BlockChainDatabases.BlockChainDatabase.IsSpent` | db/src/block_chain_db.rs:503-508 | reads the spent flag; a missing record counts as unspent |
| `BlockChainDatabases.BlockChainDatabase.WalkSideChain` | db/src/block_chain_db.rs:168-196 | the loop over ancestors computes the walk |
| `BlockChainDatabases.BlockChainDatabase.BlockOrigin` | db/src/block_chain_db.rs:150-199 | computes `OriginOf` on every store, panics included as errors |
| `BlockChainDatabases.BlockChainDatabase.CanonHashes` | db/src/block_chain_db.rs:177-179 | collects the indexed hashes above the fork point in order, skipping heights without one |
| `PoolOrder.ScoreTransitive` | miner/src/memory_pool.rs:240-272 | cross-multiplied comparison of fractions is transitive, and strictly so if either step is strict |
| `PoolOrder.BeforeTransitive` | miner/src/memory_pool.rs:220-275 | the order of all three strategies is transitive on positive sizes |
| `PoolOrder.BeforeTotal` | miner/src/memory_pool.rs:220-275 | it is irreflexive, asymmetric, and compares any two different hashes |
| `PoolOrder.PlainSet` | miner/src/memory_pool.rs:602-613 | with one key per hash the ordered set behaves as a set |
| `PoolOrder.First` | miner/src/memory_pool.rs:401-407 | finds the key that comes before all others |
| `PoolOrder.FirstUnique` | miner/src/memory_pool.rs:401-407 | there is only one such key |
| `PoolGraph.SomethingAvailable` | miner/src/memory_pool.rs:568-573 | while entries are left one of them has no live parent |
| `PoolGraph.ArrivalKeepsAncestors` | miner/src/memory_pool.rs:788-799 | recorded ancestors stay exactly the reachable ones when an entry arrives |
| `PoolGraph.ArrivalKeepsPackages` | miner/src/memory_pool.rs:302-342 | crediting recorded ancestors once keeps every package total exact, diamonds included |
| `PoolGraph.RootRemovalKeepsAncestors` | miner/src/memory_pool.rs:409-427 | removing an entry without live parents keeps ancestry among the others |
| `PoolGraph.RemovalKeepsPackagesIff` | miner/src/memory_pool.rs:409-427 | removal keeps package totals exact if and only if the entry has no live parent |
| `PoolGraph.ParentOvercounts` | miner/src/memory_pool.rs:409-427 | otherwise every parent's total is wrong |
| `PoolReferences.RemoveReference` | miner/src/memory_pool.rs:575-600 | moves exactly the children left without live parents from pending to the orderings and keeps all indexes in agreement |
| `PoolReferences.InsertOrders` | miner/src/memory_pool.rs:602-613 | inserting and removing an entry's keys keeps the three orderings in step with the entries |
| `PoolReferences.KeysUpdate` | miner/src/memory_pool.rs:312-324 | replacing an entry's key keeps the ordering in step whether or not the entry is in it |
| `PoolSpends.VictimsLeast` | miner/src/memory_pool.rs:472-489 | the victims are the least set with the roots that is closed under children |
| `PoolSpends.VictimsAfter` | miner/src/memory_pool.rs:472-489 | removing families one after the other removes their union |
| `PoolSpends.Dependents` | miner/src/memory_pool.rs:444-459 | the queue walk collects exactly the outputs of the spender and all its descendants, and terminates |
| `PoolSpends.CheckDoubleSpend` | miner/src/memory_pool.rs:429-470 | double spend exactly on an input spent by a final entry, none exactly when no input is spent, otherwise exactly the spent inputs and the outputs of the victims |
| `PoolIterators.GreedyTopological` | miner/src/memory_pool.rs:863-880 | a greedy order repeats nothing, stays in the pool and puts every in-pool parent first |
| `PoolIterators.GreedyUnique` | miner/src/memory_pool.rs:863-880 | the strategy's greedy order is unique |
| `PoolIterators.Top` | miner/src/memory_pool.rs:401-407 | the first key of the ordering is the first available entry of the strategy |
| `PoolIterators.MemoryPoolIterator.Next` | miner/src/memory_pool.rs:863-880 | extends the greedy order by one entry and ends exactly when every entry has been yielded |
| `PoolIterators.ReadN` | miner/src/memory_pool.rs:711-714 | reads the first `n` entries of the greedy order, or the whole pool |
| `PoolIterators.ReadingUnique` | miner/src/memory_pool.rs:863-880 | there is one such sequence |
| `PoolVirtualFee.VirtualFeeKeepsPackagesIff` | miner/src/memory_pool.rs:356-395 | reprioritising keeps package totals exact if and only if the fee does not change |
| `PoolVirtualFee.OwnPackageStale` | miner/src/memory_pool.rs:356-395 | a changed fee leaves the entry's own total wrong |
| `PoolVirtualFee.SetVirtualFee` | miner/src/memory_pool.rs:356-395 | updates ancestors' totals and keeps every ordering key equal to its entry's fields |
| `PoolVirtualFee.Rekeyed` | miner/src/memory_pool.rs:361-393 | replacing an entry's keys keeps the score orderings in step |
| `PoolRuns.RunsKeepPackages` | miner/src/memory_pool.rs:302-342 | after every parents-first run of arrivals and parentless removals, recorded ancestors and package totals are exact |
| `MemoryPools.ListUnderInputs` | miner/src/memory_pool.rs:306-309 | lists the entry under every transaction it spends from |
| `MemoryPools.CreditAncestors` | miner/src/memory_pool.rs:311-324 | credits each recorded ancestor once and refreshes its package key |
| `MemoryPools.SpendInputs` | miner/src/memory_pool.rs:334-338 | records the spender of every input |
| `MemoryPools.ReleaseInputs` | miner/src/memory_pool.rs:415-419 | forgets exactly the removed entry's inputs |
| `MemoryPools.InsertEntry` | miner/src/memory_pool.rs:302-342 | keeps all indexes in agreement with the entries |
| `MemoryPools.RemoveEntry` | miner/src/memory_pool.rs:409-427 | keeps all indexes in agreement, for any entry |
| `MemoryPools.GetAncestors` | miner/src/memory_pool.rs:788-799 | the recursion collects in-pool parents with the ancestors recorded for them |
| `MemoryPools.Storage.Insert` | miner/src/memory_pool.rs:302-342 | keeps all indexes and, on admitted arrivals, package totals |
| `MemoryPools.Storage.RemoveByHash` | miner/src/memory_pool.rs:409-427 | removes one entry, keeps all indexes, and keeps package totals if and only if it had no live parent |
| `MemoryPools.Storage.InsertVerified` | miner/src/memory_pool.rs:661-674 | takes the transaction unless its fee is zero and zero fees are not accepted, with exact ancestors and totals |
| `MemoryPools.Storage.RemoveWithStrategy` | miner/src/memory_pool.rs:534-545 | removes the first available entry and keeps package totals |
| `MemoryPools.ConsistentIterates` | miner/src/memory_pool.rs:852-861 | a valid storage can be iterated from the start |
| `MemoryPools.Storage.ReadNWithStrategy` | miner/src/memory_pool.rs:711-714 | on every valid storage reads the first `n` entries of the greedy order, or all |
| `MemoryPools.Storage.RemoveNWithStrategy` | miner/src/memory_pool.rs:547-561 | removes exactly the sequence that reading would have given |
| `MemoryPools.Storage.SetVirtualFee` | miner/src/memory_pool.rs:356-395 | keeps all indexes, and package totals if and only if the fee does not change |
| `MemoryPools.Storage.CheckDoubleSpend` | miner/src/memory_pool.rs:429-470 | the exact answer on the pool's own indexes, as for `PoolSpends.CheckDoubleSpend` |
| `MemoryPools.Storage.RemoveByPrevout` | miner/src/memory_pool.rs:472-489 | removes the spender and all its descendants and nothing else |
| `MemoryPools.Storage.ResolveDoubleSpends` | miner/src/memory_pool.rs:429-489 | removing over the reported double spends removes exactly the entries reported as dependent, and the same check then reports no double spend |
| `PoolExamples.RemovedChild` | miner/src/memory_pool.rs:409-427 | a pool of two insertions on which removing the child leaves the parent with the total of both |
| `PoolExamples.Reprioritised` | miner/src/memory_pool.rs:356-395 | a pool of one entry whose virtual fee is missing from its own package total |
| `Script.GetInstruction` | script/src/script.rs:252-298 | an instruction lies inside the script, advances, carries data exactly for push opcodes, and fails only as a bad opcode |
| `Script.TokenAt` | script/src/interpreter.rs:450-459 | the position strictly grows and stays inside the script, malformed instructions included |
| `Script.IsPushOnly` | script/src/script.rs:325-340 | true exactly when every instruction decodes and is a push |
| `Script.WitnessProgramForm` | script/src/script.rs:148-159 | witness programs are exactly a version opcode up to 16 and one direct push of 2 to 40 bytes |
| `Script.PushRoundTrip` | script/src/builder.rs:78-104 | decoding at a pushed string gives it back wherever it stands |
| `ScriptNum.RoundTrip` | script/src/num.rs:127-202 | minimal decoding inverts encoding and accepts exactly the encodings |
| `ScriptNum.EncodedSize` | script/src/num.rs:162-202 | an encoding has at most n bytes exactly for magnitudes below 2^(8n-1) |
| `ScriptNum.FromSlice` | script/src/num.rs:127-160 | the loop computes the sign-magnitude value, or overflow, or non-minimality |
| `ScriptNum.ToBytes` | script/src/num.rs:162-202 | the loop computes the minimal encoding, of at most 8 bytes, for every magnitude below 2^63 |
| `ScriptNum.MinimallyEncode` | script/src/num.rs:89-124 | gives the value of any byte string whose minimal form fits, and never reports non-minimality |
| `ScriptNum.WidenMeaning` | script/src/interpreter.rs:683-698 | widening keeps the sign-magnitude value |
| `ScriptNum.WidenRoundTrip` | script/src/interpreter.rs:666-700 | a number widened to any permitted width and minimised again is the same number |
| `ScriptStack.SwapRotateOrder` | script/src/stack.rs:115-139 | two swaps or three rotations restore the stack |
| `ScriptStack.Stack.Remove` | script/src/stack.rs:75-80 | removes and returns the element with `i` above it, or fails and changes nothing |
| `ScriptStack.Stack.Drop` | script/src/stack.rs:82-90 | the loop drops the top `i` elements |
| `ScriptStack.Stack.Dup` | script/src/stack.rs:92-101 | the loop repeats the top `i` elements |
| `ScriptStack.Stack.Over` | script/src/stack.rs:103-113 | the loop repeats the second group of `i` elements |
| `ScriptStack.Stack.Rot` | script/src/stack.rs:115-126 | the loop moves the third group of `i` elements to the top |
| `ScriptStack.Stack.Swap` | script/src/stack.rs:128-139 | the loop exchanges the top two groups of `i` elements |
| `ScriptStack.Stack.Nip` | script/src/stack.rs:141-146 | removes the second element |
| `ScriptStack.Stack.Tuck` | script/src/stack.rs:148-154 | copies the top below the second element |
| `Signatures.DefinedHashTypes` | script/src/sign.rs:41-93 | the defined numbers are exactly those that survive conversion, and every hash type is the reading of its number |
| `Signatures.ValidEncodings` | script/src/interpreter.rs:59-154 | the strict test accepts exactly the canonical DER signatures of at most 73 bytes |
| `Signatures.ForkIdErrors` | script/src/interpreter.rs:181-213 | the illegal fork id error is unreachable |
| `Signatures.LowSStops` | script/src/interpreter.rs:156-190 | the unimplemented low-S test is reached exactly by a well-formed signature under its flag |
| `MultiSig.MatchSignatures` | script/src/interpreter.rs:1084-1101 | the loop computes `Match` and never indexes past the keys |
| `MultiSig.GreedyIsComplete` | script/src/interpreter.rs:1084-1101 | it succeeds exactly when a strictly increasing assignment of signatures to keys with every pair verifying exists |
| `MultiSigMeaning.CheckMultiSigMeaning` | script/src/interpreter.rs:1053-1120 | from the written stack, the opcode pushes whether the signatures in order can be given increasing keys that verify them |
| `Operations.ExecOpFits` | script/src/interpreter.rs:489-1161 | no opcode makes an element longer than 520 bytes or moves the code start except to the position after a separator |
| `OpcodeMeaning.TruthIsNonZero` | script/src/interpreter.rs:247-259 | the false elements are exactly the spellings of zero |
| `OpcodeMeaning.TruncatedDivision` | script/src/num.rs:253-267 | quotient and remainder recompose the dividend, the remainder is small and has its sign |
| `OpcodeMeaning.OperandRange` | script/src/num.rs:127-160 | four-byte operands are exactly the magnitudes below 2^31 |
| `OpcodeMeaning.BinaryInOrder` | script/src/interpreter.rs:913-987 | `x y OP` pushes the encoding of the result for every two-operand opcode, with division the other way round and by zero refused |
| `OpcodeMeaning.WithinInOrder` | script/src/interpreter.rs:988-997 | `x low high WITHIN` tests low <= x < high |
| `OpcodeMeaning.SplitThenCat` | script/src/interpreter.rs:592-615 | splitting succeeds exactly within the element, and concatenating restores it |
| `OpcodeMeaning.CatThenSplit` | script/src/interpreter.rs:592-615 | splitting a concatenation at the first length restores both |
| `OpcodeMeaning.NumBinRoundTrip` | script/src/interpreter.rs:666-700 | for any spelling of a number `NUM2BIN` succeeds exactly for the widths it fits in, and `BIN2NUM` returns its shortest spelling |
| `OpcodeMeaning.BuilderIsMinimal` | script/src/interpreter.rs:223-245 | a built push is minimal exactly unless the data is a number with its own opcode |
| `OpcodeMeaning.OneElement` | script/src/interpreter.rs:801-839 | before and after of the one-element stack opcodes, and the alternate stack undoing itself |
| `OpcodeMeaning.TwoElements` | script/src/interpreter.rs:807-867 | before and after of the two-element stack opcodes |
| `OpcodeMeaning.ThreeElements` | script/src/interpreter.rs:813-861 | before and after of `3DUP` and `ROT` |
| `OpcodeMeaning.TwoPairs` | script/src/interpreter.rs:816-824 | before and after of `2OVER` and `2SWAP` |
| `OpcodeMeaning.ThreePairs` | script/src/interpreter.rs:819-821 | before and after of `2ROT` |
| `OpcodeMeaning.PickAndRoll` | script/src/interpreter.rs:846-858 | `PICK` copies and `ROLL` moves the element with `n` above it |
| `OpcodeMeaning.ComposedOpcodes` | script/src/interpreter.rs:807-867 | on every stack, with the same failures: `SWAP DROP` is `NIP`, `SWAP OVER` is `TUCK`, `DROP DROP` is `2DROP`, `OVER OVER` is `2DUP` |
| `OpcodeMeaning.SwapsAndRotations` | script/src/interpreter.rs:819-864 | swaps are their own inverse and rotations have order three, for elements and pairs |
| `Interpreter.StepKeepsLimits` | script/src/interpreter.rs:450-1167 | one iteration keeps at most 1000 elements of at most 520 bytes, at most 201 operations, nesting within the operation count and the code start behind the position |
| `Interpreter.RunsStayWithinLimits` | script/src/interpreter.rs:450-1167 | so does every state reached, and the position grows with every iteration |
| `Interpreter.OkImpliesScreened` | script/src/interpreter.rs:461-483 | a script that succeeds has at most 201 counted opcodes and no disabled opcode or oversized push, branches not taken included |
| `Interpreter.RunInstruction` | script/src/interpreter.rs:450-1167 | one pass of the loop body computes `Step`, advances inside the script and keeps the limits |
| `Interpreter.EvalScript` | script/src/interpreter.rs:433-1178 | the loop computes `Eval`, terminates, and from a stack within the limits leaves one within them |
| `Conditionals.FlatMatchesRecursive` | script/src/interpreter.rs:450-487 | on every script that parses into nested blocks, the flat loop equals the evaluator that runs only taken branches and counts and screens the others |
| `Conditionals.BlockAgrees` | script/src/interpreter.rs:450-487 | a block is run when all conditions hold and passed over otherwise, in front of any tail and down to the whole machine, alternate stack included |
| `Conditionals.BranchesAgree` | script/src/interpreter.rs:768-791 | every other branch is run, starting with the first or the second |
| `Conditionals.ParsesIffBalanced` | script/src/interpreter.rs:768-791 | the scripts that parse are exactly those with balanced conditionals |
| `Conditionals.RunsBalance` | script/src/interpreter.rs:768-791 | a run that ends with an empty conditional stack was balanced |
| `Conditionals.OkImpliesBalanced` | script/src/interpreter.rs:1168-1178 | a script that evaluates without error parses, and its blocks evaluate to the same result |
| `VerifyScripts.VerifyScript` | script/src/interpreter.rs:261-362 | the stack-swapping procedure computes `Verified` |
| `PayToScriptHash.PushOnlyRun` | script/src/interpreter.rs:450-591 | a push-only script succeeds exactly when its pushes are allowed and leave room, and appends the pushed values in order |
| `PayToScriptHash.PushOnlyEval` | script/src/interpreter.rs:433-591 | evaluated from nothing it leaves exactly the pushed values |
| `PayToScriptHash.ScriptHashEval` | script/src/script.rs:133-138 | a script-hash output fails exactly on an empty or full stack and otherwise answers whether the top hashes to the embedded bytes |
| `PayToScriptHash.ScriptHashAcceptance` | script/src/interpreter.rs:302-347 | accepted exactly when the signature script is push-only, its last element hashes to the embedded bytes and, run on the rest, gives true, with the witness and clean-stack rules |
| `PayToScriptHash.AssertionsHold` | script/src/interpreter.rs:302-360 | under script-hash rules no assertion can fire |
| `NoStops.VerifyReturns` | script/src/interpreter.rs:261-362 | under script-hash rules and without the low-S flag, verification always returns, whatever the scripts |
| `WitnessPrograms.KeyHashEval` | script/src/interpreter.rs:397-410 | the key-hash script checks the key's hash, the encodings and then the signature |
| `WitnessPrograms.KeyHashAcceptance` | script/src/interpreter.rs:364-429 | a key-hash program is satisfied exactly by a signature and a key with the program's hash that verify |
| `Serialization.CompactReads` | serialization/src/compact_integer.rs:61-106 | the announced size is the written size, and reading before any bytes gives the number back |
| `Serialization.CompactIsShortest` | serialization/src/compact_integer.rs:94-106 | no accepted spelling is shorter than the written one |
| `Serialization.BlobReads` | serialization/src/impls.rs:216-236 | byte strings read back in front of any bytes |
| `Serialization.ListReads` | serialization/src/reader.rs:114-123 | a list of items that read back reads back |
| `Serialization.AppendList` | serialization/src/stream.rs:92-98 | the loop appends the count and the items |
| `Serialization.ReadListLoop` | serialization/src/reader.rs:114-123 | the loop reads the count and the items or the first error |
| `TransactionCodec.SerializeTransaction` | chain/src/transaction.rs:207-230 | writes `TransactionBytes`, with the marker exactly when asked for and there is a witness |
| `TransactionCodec.DeserializeTransaction` | chain/src/transaction.rs:232-261 | the loops compute `ReadTransaction` |
| `TransactionCodec.InputReads` | chain/src/transaction.rs:187-205 | an input reads back with its witness cleared |
| `TransactionCodec.UnflaggedRoundTrip` | chain/src/transaction.rs:207-261 | without the marker a transaction with inputs reads back with witnesses cleared, leaving exactly the trailing bytes |
| `TransactionCodec.FlaggedRoundTrip` | chain/src/transaction.rs:207-261 | with the flag it reads back whole, leaving exactly the trailing bytes |
| `TransactionCodec.RoundTripIffInputs` | chain/src/transaction.rs:207-261 | the round trip holds if and only if there is an input |
| `TransactionCodec.DeserializeExact` | serialization/src/reader.rs:4-13 | a buffer of one transaction gives it back, and anything behind it is unread data |
| `TransactionCodec.PrefixFree` | chain/src/transaction.rs:207-261 | no serialization is the beginning of another one |
| `SignatureHashes.HashBindsCommitment` | script/src/sign.rs:237-312 | two hashes agree exactly when the fields their hash types commit to agree, if the strings hashed for them do not collide |
| `SignatureHashes.EqualCommitments` | script/src/sign.rs:237-312 | agreement on the committed fields forces equal hashes for any hash function |
| `SignatureHashes.PreimageFields` | script/src/sign.rs:237-255 | equal preimages have equal fields |
| `SignatureHashes.ForkIdHashBinds` | script/src/sign.rs:257-268 | within range the fork's hash binds the same fields, and outside it is one constant |
| `OriginalSignatureHashes.WithoutSeparators` | script/src/script.rs:301-322 | the loop drops exactly the separator instructions |
| `OriginalSignatureHashes.OriginalHashBinds` | script/src/sign.rs:171-235 | equal hashes come exactly from equal rewritten transactions and hash types |
| `OriginalSignatureHashes.RewrittenCommits` | script/src/sign.rs:182-229 | rewritten transactions and hash types agree exactly when the committed fields do: prevouts, signed code with its position, sequences, outputs, as each type has it |
| `OriginalSignatureHashes.OriginalHashBindsCommitment` | script/src/sign.rs:171-235 | equal hashes mean exactly equal committed fields, if the two preimages do not collide |
| `Merkle.MerkleRoot` | chain/src/merkle_root.rs:15-39 | the row loop and the recursion compute `Root` and terminate |
| `Merkle.RootIsTree` | chain/src/merkle_root.rs:15-39 | the row-by-row root is the root of the top-down tree with right-edge duplication, of least height |
| `Merkle.RowIsBottom` | chain/src/merkle_root.rs:19-38 | hashing one row takes one level off the bottom of the tree |
| `Merkle.RootBinds` | chain/src/merkle_root.rs:15-44 | lists of one length with one root are equal, if no two pairs hashed for them collide |
| `Merkle.RepeatedTail` | chain/src/merkle_root.rs:26-30 | repeating the last element of an odd list keeps the root, so length is not bound |
| `Merkle.NodeCollision` | chain/src/merkle_root.rs:6-11 | two nodes collide only if two different 64-byte strings do |
| `CompactTarget.ToU256` | primitives/src/compact.rs:45-68 | the target if it is a non-negative 256-bit number, otherwise its low bits as an error |
| `CompactTarget.OverflowTests` | primitives/src/compact.rs:58-61 | the three size tests are exactly the test for more than 256 bits |
| `CompactTarget.FromU256` | primitives/src/compact.rs:70-88 | computes the form with the least size that leaves the sign bit clear, and its assertions hold |
| `CompactTarget.RoundTrip` | primitives/src/compact.rs:45-88 | decoding an encoding succeeds, never exceeds the number and misses it by less than one part in 2^15 |
| `CompactTarget.Monotone` | primitives/src/compact.rs:45-88 | encoding and decoding keeps the order |
| `CompactTarget.FixedPoint` | primitives/src/compact.rs:45-88 | every encoding is the encoding of its own target |

## Left out

- Networking, RPC, the command line, import, logging and configuration: input and output only.
- RocksDB, the cache and auto-flushing layers, locks and failing flushes: the store is a map and writes succeed.
- The configuration column of the store, header fields beyond the parent hash, and the bit padding of transaction records on disk: not read by the operations modelled.
- Block heights and pool counters do not wrap at their machine widths, and pool scores do not overflow.
- `remove_by_parent_hash` with descendants to move out of the way: its re-insertion sort treats incomparable entries as equal, so arrivals are admitted only where nothing in the pool spends from them.
- MemoryPools.Storage.InsertVerified: covers the branch in which the pool has never listed a child of the transaction, because the other branch re-inserts in an order that is not a topological one.
- Heap-size accounting, pool information and the block assembler: the assembler's limits are not the ones its fields suggest, and its size bound is easy.
- `find_and_delete` and `without_separators` are modelled as they are, but not related to instruction boundaries, because they cut across them.
- Signature operation counting, script classification beyond push-only, script-hash and witness templates, and address extraction: easy members.
- Lock time and sequence checks of the transaction checker, and elliptic curve operations: function values.
- Allocation for list counts that exceed the input: reading is modelled as running out of bytes.
- Merkle.MerkleRoot: the empty list is excluded, because the source does not return on it; the parallel map is an ordinary one.
- Script.PushRoundTrip: strings of 2^32 bytes and more are excluded, because building such a push stops the program.
- The 64-bit float of a compact target and the formatting of values.
