# A model of the Cryonero node

This project models the parts of the Cryonero node and wallet where a mistake would lose or create money, and proves what
they are supposed to guarantee.

* **The chain.** `Ledger`, `Execution`, `Overlay`, `Spending`, `DeltaState`, `StateDb`, `Replay`, `BlockTree`, `BlockChain`:
  blocks are executed through nested overlays, applied to the database, undone and executed again on another branch. The
  main theorem is the invariant of the class `BlockChain`: after every `AddBlock`, the database is what replaying the
  main chain from nothing gives. `Sync` is the locator with which nodes find where their chains part.
* **The memory pool** (`Mempool`): three indexes of one set, a size bound and the rules for making way.
* **Money** (`Currency`, `Money`, `Conservation`, `Difficulty`): the penalty for large blocks, the emission, the proof of work
  test, and the conservation of amounts: the outputs in the database are worth what was generated and what was spent.
* **The wallet cache** (`WalletUndo`, `WalletIndex`, `WalletProofs`, `WalletState`, `WalletQuery`, `WalletScan`): an undo log under
  indexes that must agree with each other, with the balances and with what the queries return.
* **Coin selection** (`CoinStacks`, `CoinSelection`): a retrying, backtracking choice of coins.
* **Concurrency and protocols** (`WorkerPool`, `RingChecker`, `WalletPrep`, `Downloader`).
* **Codecs** (`Numerals`, `Base58`, `Varint`, `Address`, `SqliteVarint`).

Objects that the node updates in place are classes with the same fields; each operation is a method whose contract ties the
new state to the old one, and what the program promises is proved about those contracts. Code shared between threads is a
state machine whose steps are the sections that run under the mutex, and the theorems are about every sequence of steps.

Results that a reader may not expect:

* `WalletQueries.BalanceAgreesWithListing`: the balance agrees with the list of spendable outputs except at confirmed height
  2^32 - 1, where the lower bound of a scan wraps to zero, for an address that has unspent outputs.
* `WalletUndo.PoppingWithPendingWrites`: popping a block while writes are pending restores the database only under the
  condition stated there.
* `WalletPreparing.RightIffNothingLeftOver`: a batch always returns the right blocks, and each once, if and only if no prepared
  block was left over when it was started; a cancel before ensures that (`CancelMakesClean`), and without it a block of the
  batch before can be returned (`StaleWithoutCancel`).
* `Addresses.EncodeUndoesDecode`: a text in which no byte ends the tag is accepted and is not the encoding of what it decodes
  to.
* `Overlay.OverlayIsExecutionExactly`: applying an overlay and executing in place give the same ledger if and only if every
  output named by a one-member ring is named by some transaction that finds it there. A block that passes the ring checks
  always meets this (`BlockChains.Accepted`), so the list in `Overlay.OverlayFlagsOwnOutput`, which does not, is never executed.
* `BlockChains.RepeatedKeyImageIsFatal`: on every database, a block that spends what can be spent twice, with one key image, ends
  the process (`Exit`) instead of being refused; `RepeatedKeyImageHappens` gives such a block for every long enough main chain.
* `Moneys.BlockConserves`: the counter of generated coins follows the amounts of a block exactly unless its fees exceed all that
  was generated before together with the miner's reward. Such blocks pass the check of amounts after any number of generated
  coins and at any size above the median (`CounterCanWrap`, `LossAtHeight2`); with sound ring signatures none is ever on the
  main chain (`Conservation.MainChainConserves`).
* `Currencies.SizeCheckBoundsSize`: the header check implies the asserted bound on the size of a block exactly at the heights from
  2 to 921447.

Conventions. Hashes, keys and key images are opaque numbers. Amounts are unbounded unless a 64-bit operation decides
something; then the operation is written out modulo 2^64. The database is a map; a put that must be new and a delete that
must exist say whether they succeed. `assert` in the original is a precondition here, `invariant` is proved not to fire. The
empty address string, which stands for the whole wallet, is the address 0, and a missing key image is the key image 0.

## Model

| member | source | states |
|---|---|---|
| `BlockChains.BlockChain.AddBlock` | src/Core/BlockChain.cpp:147-206 | Whatever happens short of the process ending, the database is again exactly the replay of the main chain from nothing. A known block, an orphan or a block that fails the header checks or the check of its amounts changes nothing; a side block is only stored, with the coins generated up to it; a block on the tip is appended, refused or ends the process exactly as its verdict on the database says; for a heavier branch the answer and the new main chain are exactly those of redoing that branch from the last common block on: the process ends if and only if all its blocks up to some height are applied and the next one is fatal. |
| `BlockChains.BlockChain.StoreBlock` | src/Core/BlockChain.cpp:172-185 | A block whose parent is stored and whose amounts were accepted is stored beside the main chain, and the invariant is kept. |
| `BlockChains.BlockChain.ReorganizeBlocks` | src/Core/BlockChain.cpp:225-292 | From the last common block on, the target's branch is redone as far as it goes: the result is the verdict that stopped it, or success, and unless the process ends the main chain is exactly the part of the branch that was reached. Every undo on the way succeeds, so no invariant of the undo code fires. |
| `BlockChains.BranchEndMeaning` | src/Core/BlockChain.cpp:252-291 | Redoing a branch stops with a verdict if and only if all blocks up to some height are applied, each on the replay of those below, and the block at that height gets the verdict; otherwise the whole branch is applied. |
| `BlockChains.BlockChain.RedoUpTo` | src/Core/BlockChain.cpp:252-290 | The loop over the path, last block first, ends like the specification of the branch and reaches the same height. |
| `BlockChains.BlockChain.UndoDownTo` | src/Core/BlockChain.cpp:235-251 | Undoing down to an ancestor ends at it, with the database again the replay of the main chain. |
| `BlockChains.RepeatedKeyImageIsFatal` | src/Core/BlockChainState.cpp:889-935 | On every database, at every height: two transactions of a block that spend the same spendable input with the same key image are not refused: they end the process. |
| `BlockChains.RepeatedKeyImageHappens` | src/Core/BlockChainState.cpp:889-935 | For instance, on every main chain at whose height the output of the genesis block is unlocked, a block that spends it twice with a new key image. |
| `BlockChains.Accepted` | src/Core/BlockChainState.cpp:923-935 | For a block that passes the ring checks on a replayed database, applying its overlay is executing it in place, spent flags included, and no key image is stored yet. |
| `BlockChains.BlockChain.Advance` | src/Core/BlockChain.cpp:186-193 | A block is appended exactly when the verdict on the current database says so, and a refused block leaves the main chain and the database as they were. |
| `BlockChains.BlockChain.Retreat` | src/Core/BlockChain.cpp:235-251 | Undoing the tip always succeeds and leaves the replay of the main chain without it. |
| `BlockChains.BlockChain.RedoBlock` | src/Core/BlockChain.cpp:470-501 | Key images, output stacks, spent flags, global indices, timestamp and transaction indexes become those of the replay with the block added; a refused block changes none of them; the answer is the verdict. |
| `BlockChains.BlockChain.UndoBlock` | src/Core/BlockChain.cpp:502-518 | The whole database goes back by the undo function of the specification, and fails exactly when that function does. |
| `BlockChains.BlockChain.CollectBlock` | src/Core/BlockChainState.cpp:905-921 | Executing all transactions of a block through nested overlays fails only for a repeated key image; otherwise the overlay holds exactly the block's effect and the indices handed out are those of the specification. |
| `BlockChains.BlockChain.StartWork` | src/Core/RingCheckerMulticore.cpp:73-123 | The checks prepared for a block are one per key input, with the keys that its ring resolves to, or none if some input does not resolve. |
| `BlockChains.BlockChain.constructor` | src/Core/BlockChain.cpp:173-179 | A new chain with its genesis block satisfies the invariant that the database is the replay of the main chain. |
| `BlockTree.GetCommonBlock` | src/Core/BlockChain.cpp:294-331 | The search ends with the last block that both branches share, the two returned paths are exactly the blocks of each branch above it, tip first, and the branches share nothing above it. |
| `BlockTree.WalkTo` | src/Core/BlockChain.cpp:304-318 | Levelling the longer branch stops at the wanted height and returns the blocks passed, in order. |
| `Replaying.UndoingIsReplayingLess` | src/Core/BlockChainState.cpp:957-969 | Undoing any end of any replayed chain block by block gives exactly the replay of what is left. |
| `Replaying.UndoRedo` | src/Core/BlockChainState.cpp:889-969 | Undoing a block just executed gives back the whole database: key images, stacks, spent flags, global indices, timestamps and transaction index. |
| `Replaying.ChecksMakeExecutable` | src/Core/BlockChainState.cpp:923-935 | A block whose signatures are valid and whose key images are distinct can be executed and undone, if a ring of one member determines its key image. |
| `Replaying.BlockArgsMeaning` | src/Core/RingCheckerMulticore.cpp:83-121 | All prepared checks succeed exactly when every key input of the block resolves and is signed. |
| `Replaying.ReplayIndexes` | src/Core/BlockChainState.cpp:935-940 | In a replayed database exactly the blocks of the chain have global indices, and timestamps are filed under heights of the chain. |
| `Replaying.ReplaySpentByOwner` | src/Core/BlockChainState.cpp:1101-1111 | Along every replayed chain an output flagged as spent has been spent by the one key image that can spend it. |
| `Execution.UndoTxsInverse` | src/Core/BlockChainState.cpp:889-903 | Undoing transactions last to first gives back the ledger they were executed on; none of the checks on popped outputs and deleted key images fails. |
| `Execution.TxsStackButSpent` | src/Core/BlockChainState.cpp:905-921 | Executing transactions appends exactly their outputs of an amount, in order, to the stack of that amount, and changes nothing else in it but spent flags. |
| `Overlay.ReadThroughIsReadAfterApply` | src/Core/BlockChainState.cpp:57-112 | Every read through any stack of overlays is the read after applying them all, except for the spent flag. |
| `Overlay.OverlayRefinesExecution` | src/Core/BlockChainState.cpp:100-112 | Although an overlay regroups outputs by amount and spends last, applying it gives the key images and, spent flags aside, the stacks that executing the transactions in place gives. |
| `Overlay.OverlayIsExecutionExactly` | src/Core/BlockChainState.cpp:100-112 | The two give the same ledger, spent flags included, if and only if every output that is named by a one-member ring, and is there in the end, is named by some transaction that finds it there. |
| `Overlay.ExecutedFlag` | src/Core/BlockChainState.cpp:1101-1111 | Executing in place flags exactly what was flagged before and what is named when it is there. |
| `Overlay.OverlayIsExecution` | src/Core/BlockChainState.cpp:100-112 | In particular they agree when every output named by a one-member ring was there before. |
| `Overlay.OverlayFlagsOwnOutput` | src/Core/BlockChainState.cpp:100-112 | A list for which they differ: a one-member ring names the output that its own transaction is about to create. |
| `Overlay.IndicesAreStackPositions` | src/Core/BlockChainState.cpp:65-84 | The global index an overlay hands out is the position that executing in place gives the output. |
| `Spending.ResolvedMember` | src/Core/RingCheckerMulticore.cpp:106-114 | The keys of a resolved ring are those of existing, unlocked outputs, in order. |
| `DeltaStates.RedoTransaction` | src/Core/BlockChainState.cpp:815-887 | A transaction is executed in an overlay of its own: an error leaves the state below unchanged and is the first error in input order, and success merges exactly the transaction's effect. |
| `DeltaStates.DeltaState.ApplyToDelta` | src/Core/BlockChainState.cpp:104-112 | Handing an overlay down merges it: key images united, outputs appended per amount, spends appended; it is refused exactly when a key image is there twice. |
| `StateDbs.StateDb.ApplyDelta` | src/Core/BlockChainState.cpp:104-112 | Applying an overlay to the database changes the mirrored ledger by the specified function and is refused exactly for a known key image. |
| `StateDbs.StateDb.UndoTransaction` | src/Core/BlockChainState.cpp:889-903 | Undoing a transaction follows the specification and fails exactly when it does. |
| `StateDbs.StateDb.PushAmountOutput` | src/Core/BlockChainState.cpp:1056-1063 | An output goes on top of the stack of its amount, whether or not the next index was cached. |
| `StateDbs.StateDb.PopAmountOutput` | src/Core/BlockChainState.cpp:1065-1078 | The top output is removed exactly when there is one and it is the expected one. |
| `StateDbs.StateDb.NextGlobalIndex` | src/Core/BlockChainState.cpp:1080-1089 | The cached or looked-up next index is the height of the stack. |
| `StateDbs.StateDb.SpendOutput` | src/Core/BlockChainState.cpp:1101-1111 | Flags exactly the named output, if it exists. |
| `Syncing.GetSparseChain` | src/Core/BlockChain.cpp:333-348 | The locator lists the blocks 0 to 10, 12, 16, 24 and so on below the tip, and genesis once; the shift that doubles the distance does not overflow. |
| `Syncing.GetSyncHeadersChain` | src/Core/BlockChain.cpp:389-411 | The answer is a contiguous piece of the main chain, of the wanted length if there is enough, from the highest main chain block that the first known hash descends from; without a known hash it is empty. |
| `Syncing.AnswerIsNear` | src/Core/BlockChain.cpp:333-411 | For two nodes with the same genesis, the answer to a locator starts at a block of both chains, not above the fork, and below the requester's tip at most twice as deep as the fork. |
| `Mempools.Mempool.AddTransaction` | src/Core/BlockChainState.cpp:641-749 | The three indexes keep describing one set, the size is its sum, no key image is shared or spent on the chain, and without its lowest transaction the pool stays below its maximum. A transaction reported as broadcast is in the pool and was not dropped by its own insertion; what made way shares a key image with it and is worth less, or is worth less than everything that stays and left the pool at its maximum. |
| `Mempools.Mempool.RemoveFromPool` | src/Core/BlockChainState.cpp:780-812 | Removal takes a transaction out of all indexes; the entries it erases are always there, so its invariant never fires. |
| `Mempools.Mempool.OnReorganization` | src/Core/BlockChainState.cpp:613-632 | Emptying the pool and offering everything again keeps all pool invariants, and the pool then holds only what was in it or was undone. |
| `Mempools.Mempool.StoreKeyImage` | src/Core/BlockChainState.cpp:1033-1040 | A key image stored by a block removes exactly the pool transaction that uses it. |
| `Mempools.Mempool.MinimumFee` | src/Core/BlockChainState.cpp:602-611 | The first transaction of the first fee bucket is the one worth least. |
| `Mempools.NeverDropsItself` | src/Core/BlockChainState.cpp:649-654 | When the new transaction is the lowest of the pool there is nothing to drop, because the others were below the maximum without their own lowest. |
| `Mempools.WithoutIsBounded` | src/Core/BlockChainState.cpp:780-812 | Taking out any transaction keeps the size bound. |
| `Moneys.ChainConserves` | src/Core/BlockChainState.cpp:283-342 | Along every accepted chain, whatever wraps, the coins generated are in 64 bits all outputs less all key inputs, which never exceed the money supply; the two are equal if and only if no more was taken in than put out. |
| `Moneys.BlockConserves` | src/Core/BlockChainState.cpp:319-342 | One accepted block puts out exactly as much more than it takes in as the counter grows, if and only if its fees do not exceed the coins generated before and the miner's outputs together. |
| `Moneys.CounterCanWrap` | src/Core/Currency.cpp:168-190 | After any number of generated coins and at any size above the median, a block with a fee that loses more to the penalty than there is passes the check, and the counter wraps. |
| `Moneys.LossAtHeight2` | src/Core/Currency.cpp:160-202 | Already at height 2, with the largest block and the smallest median, a fee of 2^62 loses that much. |
| `Moneys.BlockConservesModulo` | src/Core/BlockChainState.cpp:319-342 | For every accepted block, with all wraps, the new counter is in 64 bits the old one and what the block puts out beyond what it takes in, and without a wrap that is within the supply. |
| `Conservation.NothingIsCreated` | src/Core/BlockChainState.cpp:283-342 | Along every chain that was accepted and applied, the outputs in the replayed database are worth exactly the generated coins and all that was spent, without any assumption on wraps, if a ring signature is valid only with the key image of one of its members. |
| `Conservation.MainChainConserves` | src/Core/BlockChain.cpp:147-206 | In every reachable state of the node, after any extensions and reorganizations, the outputs in its database are worth exactly the coins that the header of its tip says were generated, and all that was spent. |
| `Conservation.MainChainAccepted` | src/Core/BlockChainState.cpp:283-342 | The amounts of the main chain of the node were accepted one block after the other. |
| `Conservation.ReplayConserves` | src/Core/BlockChainState.cpp:283-342 | Without the assumption on rings, the outputs in the replayed database are worth in 64 bits what was generated and what was spent. |
| `Conservation.InputsWithinOutputs` | src/Core/BlockChainState.cpp:889-935 | All that was spent along an applied chain is worth at most the outputs in its database. |
| `Conservation.SpentAtMostStacked` | src/Core/BlockChainState.cpp:889-935 | No amount is spent more often than there are outputs of it, because each input has a key image of its own that belongs to one of them. |
| `Conservation.ChainSpendsOnce` | src/Core/BlockChainState.cpp:889-935 | Along an applied chain all key images differ, are those stored, and belong to an output of the amount spent. |
| `Moneys.CheckMoney` | src/Core/BlockChainState.cpp:283-350 | The money part of the block check, with all its 64-bit sums, accepts and counts exactly as specified. |
| `Moneys.ValidateSemantic` | src/Core/BlockChainState.cpp:132-188 | A transaction passes exactly when it is valid by itself: good outputs and inputs, distinct key images, sums that fit, outputs not above inputs, one signature list per input; the fee is the exact difference. |
| `Moneys.FeeOfValid` | src/Core/CryptoNoteTools.cpp:108-128 | For a valid transaction the fee taken from wrapping sums is the exact difference. |
| `Moneys.ValidIsAdmissible` | src/Core/BlockChainState.cpp:161-171 | A transaction that is valid by itself names no key image twice, as the pool relies on. |
| `Currencies.GetPenalizedAmount` | src/Core/Currency.cpp:285-312 | Two successive floor divisions give the floor of amount * size * (2 * median - size) / median^2; the result is at most the amount, and strictly smaller above the median. |
| `Currencies.SizeCheckBoundsSize` | src/Core/BlockChainState.cpp:232-252 | The check of the size of a block in its header implies that it is at most twice the median, whatever both are, if and only if the height is from 2 to 921447. |
| `Currencies.PenaltyFits` | src/Core/Currency.cpp:296-311 | Above the median the product of the sizes fits 64 bits, its product with the amount 128 bits, and the result is below the amount, so its high word is zero. |
| `Currencies.PenaltyGrowsWithSize` | src/Core/Currency.cpp:285-312 | A larger block never keeps more of an amount. |
| `Currencies.DivideTwice` | src/Core/Currency.cpp:302-309 | Dividing twice, rounding down each time, is dividing by the square. |
| `Currencies.EmissionIsExact` | src/Core/Currency.cpp:179-190 | The supply is never exceeded, and the emission, computed in 64 bits even when it is negative, is exactly the reward less the fees. |
| `Currencies.GetBlockReward` | src/Core/Currency.cpp:179-190 | The reward and the emission are those of the specification, with fees penalized from version 2 on. |
| `Currencies.DecomposeAmount` | src/Core/CryptoNoteTools.cpp:39-83 | The parts of an amount add up to it, none is zero, and all but at most two leading dust parts within the threshold are one figure followed by zeros. |
| `Currencies.CoinbaseAmounts` | src/Core/Currency.cpp:235-244 | However few outputs are allowed, the merged parts still add up to the reward and none is zero. |
| `Difficulties.CheckHash` | src/Core/Difficulty.cpp:21-39 | A hash passes exactly when its 256-bit little-endian value times the difficulty is below 2^256, although the lowest product word is dropped and only carries are followed. |
| `Difficulties.CarryMeans` | src/Core/Difficulty.cpp:17-19 | The two carry tests report exactly the carry of a 64-bit sum with and without a carry coming in. |
| `WalletUndo.WalletDb.PopChain` | src/Core/WalletStateBasic.cpp:152-158 | With nothing pending, popping a block restores database, undo records, headers, tip and heights as they were one block earlier. |
| `WalletUndo.WalletDb.PushChain` | src/Core/WalletStateBasic.cpp:143-150 | Pushing a block files its header and the undo record, so that the new state follows the previous one in the history. |
| `WalletUndo.WalletDb.PutWithUndo` | src/Core/WalletStateBasic.cpp:205-220 | A logged write changes one key, and rolling back still ends at the state after the last block. |
| `WalletUndo.WalletDb.DelWithUndo` | src/Core/WalletStateBasic.cpp:222-225 | A logged delete removes one key, and rolling back still ends at the state after the last block. |
| `WalletUndo.WalletDb.UndoDbState` | src/Core/WalletStateBasic.cpp:234-248 | Undoing a record puts back exactly the old values, in whatever order its keys are visited. |
| `WalletUndo.RecordedWriteRollsBack` | src/Core/WalletStateBasic.cpp:205-215 | However often a key is rewritten, deleted or created again, keeping only its first old value is enough. |
| `WalletUndo.PoppingWithPendingWrites` | src/Core/WalletStateBasic.cpp:152-158 | Popping while writes are pending restores the database if and only if every pending key outside the popped record has its old value again. |
| `WalletStates.WalletState.AddIncomingOutput` | src/Core/WalletStateBasic.cpp:270-307 | A new output keeps all indexes and balances in agreement, revives no spent key image, and changes the wallet total by exactly the amount reported. |
| `WalletStates.WalletState.AddIncomingKeyImage` | src/Core/WalletStateBasic.cpp:309-345 | After a key image is taken in, no output that carries it is left unspent or locked; the amount reported is exactly what the total loses after unlocking. |
| `WalletStates.WalletState.UnlockDue` | src/Core/WalletStateBasic.cpp:679-688 | All outputs whose moment has come, and only those, leave the lock indexes, by amount and index, and everything still agrees. |
| `WalletStates.WalletState.PopChain` | src/Core/WalletStateBasic.cpp:152-158 | Between blocks, popping takes the wallet back to an earlier state in which all indexes and balances agree. |
| `WalletStates.WalletState.ModifyBalance` | src/Core/WalletStateBasic.cpp:608-629 | The stored balances of the address and of the whole wallet both change by the output. |
| `WalletStates.LockedByIsLockedWith` | src/Core/WalletStateBasic.cpp:312-330 | The key image index over locked outputs leads to every locked output with that key image and to no other. |
| `WalletProofs.ChangeKeepsIndexOk` | src/Core/WalletStateBasic.cpp:633-763 | Any single change of an unspent or locked output keeps both unspent indexes, the lock indexes, the key image index and every balance in agreement. |
| `WalletProofs.AddIncomingKeepsIndexOk` | src/Core/WalletStateBasic.cpp:270-303 | Taking in an output, with a known, spent, unspent or new key image, keeps the agreement, and the total changes by the amount returned. |
| `WalletProofs.ReplaceKeepsIndexOk` | src/Core/WalletStateBasic.cpp:286-302 | Replacing a smaller output with the same key image keeps the agreement and adds the difference. |
| `WalletProofs.UnlockAllKeepsIndexOk` | src/Core/WalletStateBasic.cpp:633-642 | Unlocking any list of locked outputs in any order keeps the agreement and empties the lock indexes of exactly these. |
| `WalletProofs.SpendImageKeepsIndexOk` | src/Core/WalletStateBasic.cpp:331-344 | Spending a key image keeps the agreement and leaves it marked as spent. |
| `WalletProofs.SpentImageIsNotSpendable` | src/Core/WalletStateBasic.cpp:698-763 | No unspent output carries a spent key image, and a key image has at most one unspent output. |
| `WalletQueries.GetBalance` | src/Core/WalletStateBasic.cpp:506-547 | Each unconfirmed, freshly unlocked or pool-spent output is subtracted once; the spendable and dust parts agree with the listing in sum and count if and only if the confirmed height is not the last 32-bit one or the address has nothing unspent. |
| `WalletQueries.AddUnspent` | src/Core/WalletStateBasic.cpp:404-419 | The listing returns each output that may be spent at most once, with the sum of the non-dust ones, and stops early only when it has the amount and 10000 outputs. |
| `WalletQueries.BalanceAgreesWithListing` | src/Core/WalletStateBasic.cpp:404-419 | The exact condition under which balance and listing agree: at height 2^32 - 1 the scan bound wraps to zero. |
| `WalletQueries.EachIsSubtractedOnce` | src/Core/WalletStateBasic.cpp:506-547 | Below that height the balance is the tally of the listed outputs with everything locked, unconfirmed or freshly unlocked in the locked part. |
| `CoinSelection.UnspentSelector.SelectForAmount` | src/Core/TransactionBuilder.cpp:238-286 | The retry loop ends. On success the coins pay for the amount, a change in whole units and a fee that covers the size, within the block; funds are reported missing only when all usable coins are worth less than the amount and a needed fee, that is, the minimum fee or the rounded fee for the size of a selection that was worth the amount and the fee needed before it; and always when they are worth less than the amount and the minimum fee; every coin stays accounted for. |
| `CoinSelection.UnspentSelector.Retry` | src/Core/TransactionBuilder.cpp:252-285 | The loop: each attempt settles the result, or is followed by one with fewer optimizations or with the larger fee that the last selection asked for, and this ends. |
| `CoinSelection.UnspentSelector.Attempt` | src/Core/TransactionBuilder.cpp:255-285 | An attempt settles the result or, having put everything back, lowers the optimizations or else strictly raises the fee below the fee of the largest fitting size. |
| `CoinSelection.UnspentSelector.SelectOptimalOutputs` | src/Core/TransactionBuilder.cpp:413-541 | Selection succeeds if and only if all usable coins are worth the total, and then what was taken is; dust is taken only without anonymity. |
| `CoinSelection.UnspentSelector.CreateHaveCoins` | src/Core/TransactionBuilder.cpp:288-310 | Every eligible output, and nothing else, is on the stack of its amount, oldest on top. |
| `CoinSelection.UnspentSelector.UnoptimizeAmounts` | src/Core/TransactionBuilder.cpp:320-337 | Everything taken is back on its stack; total and count are zero again. |
| `CoinSelection.UnspentSelector.OptimizeFigure` | src/Core/TransactionBuilder.cpp:346-408 | If a pair or a coin completes the missing figure of a place, that figure is cleared. |
| `CoinSelection.UnspentSelector.OptimizeAmounts` | src/Core/TransactionBuilder.cpp:339-411 | Optimization loses no coin, never lowers the total and takes no dust. |
| `CoinSelection.UnspentSelector.SmallestCover` | src/Core/TransactionBuilder.cpp:470-491 | The search by places finds the smallest coin that covers the rest, if there is one. |
| `CoinSelection.UnspentSelector.TakeLargest` | src/Core/TransactionBuilder.cpp:495-538 | Filling up ends with enough, or with nothing usable left. |
| `CoinSelection.BestPair` | src/Core/TransactionBuilder.cpp:350-361 | The pair found has the largest weight of all pairs that complete the figure, and is missing only if there is none. |
| `CoinSelection.BestSingle` | src/Core/TransactionBuilder.cpp:380-393 | The coin found completes the figure exactly if one does, and otherwise is from the largest stack above it. |
| `CoinSelection.BestStack` | src/Core/TransactionBuilder.cpp:446-456 | The stack found is the largest above the threshold, and the first of those. |
| `CoinSelection.CompletingClearsFigure` | src/Core/TransactionBuilder.cpp:346-361 | Coins whose figures complete the missing figure to ten leave nothing missing at that place. |
| `CoinSelection.TakenIsWorth` | src/Core/TransactionBuilder.cpp:495-498 | What was taken is never worth more than all usable coins, and as much when nothing usable is left. |
| `CoinStacks.OrderOfPretty` | src/Core/TransactionBuilder.cpp:299-306 | Ordering coins by digits and leading figure is ordering them by amount. |
| `RingChecking.AnswerIsRight` | src/Core/RingCheckerMulticore.cpp:36-134 | In every interleaving, whenever the answer is returned it is the conjunction of the checks of exactly the current batch, each counted once. |
| `RingChecking.AnswerForBlock` | src/Core/RingCheckerMulticore.cpp:73-134 | For a block: the answer says whether every key input is signed for the keys its ring resolves to. |
| `RingChecking.RunIsValid` | src/Core/RingCheckerMulticore.cpp:36-134 | In every reachable state each input handed over is waiting, being checked, counted or cancelled, in exactly one place. |
| `RingChecking.StaleWorkersDoNotCount` | src/Core/RingCheckerMulticore.cpp:53-64 | Workers that began before the current batch or before a cancel do not interfere: with their reports left out, every run is a run of the machine in which they stop at once, and ends in the same state but for them, with the same answer. |
| `RingChecking.CounterGrows` | src/Core/RingCheckerMulticore.cpp:67-82 | The batch counter never decreases and grows with every batch, so a stale worker never becomes current. |
| `RingChecking.WaitingEnds` | src/Core/RingCheckerMulticore.cpp:31-134 | No wake-up is lost: in every reachable state no worker sleeps while there is an input, nor the client when its answer is ready. While an answer is awaited without a cancel, some worker can take or finish an input, which leaves less to do, and sleeping or waking does not leave more. |
| `RingChecking.AnswerComes` | src/Core/RingCheckerMulticore.cpp:31-134 | From every reachable state in which an answer is awaited without a cancel, steps of the workers alone, no more than there is work left, make it return. |
| `WalletPreparing.RightIffNothingLeftOver` | src/Core/WalletPrepMulticore.cpp:106-127 | For a batch started in any reachable state: in every continuation whatever is returned is the preparation of that batch's block at that height with its key, and returned once, if and only if no prepared block was left over at the start. |
| `WalletPreparing.CancelMakesClean` | src/Core/WalletPrepMulticore.cpp:99-113 | Nothing is left over when there was a cancel, and no other start after it. |
| `WalletPreparing.ReadyIsOfCurrentBatch` | src/Core/WalletPrepMulticore.cpp:65-127 | In every interleaving, in a batch at whose start nothing was left over, what is prepared for a height is the preparation of that batch's block at that height with its key, and was not returned before. |
| `WalletPreparing.WaitingEnds` | src/Core/WalletPrepMulticore.cpp:65-127 | No wake-up is lost: in every reachable state no worker sleeps while there is a block, nor the client when its block is prepared. A block of the current batch that was not returned yet is prepared, or some worker can take or finish a block, which leaves less to do, and sleeping or waking does not leave more. |
| `WalletPreparing.BlockComes` | src/Core/WalletPrepMulticore.cpp:65-127 | From every reachable state, steps of the workers alone, no more than there is work left, prepare any block of the batch that was not returned yet, and a client that waits for it is awake then. |
| `WalletPreparing.StaleWithoutCancel` | src/Core/WalletPrepMulticore.cpp:106-113 | For instance, without the cancel a block of an earlier batch can be returned. |
| `WalletPreparing.RunIsValid` | src/Core/WalletPrepMulticore.cpp:65-113 | In every reachable state the batch's blocks are waiting, in work, prepared or returned. |
| `Downloading.Downloader.AdvanceDownload` | src/Core/NodeDownloader.cpp:386-463 | Filling the window, asking for a chain, handing out cells and dropping a slow client, with every disconnect this causes, end and keep the books: counters are the cells assigned, at most 400 in all, at most 2000 cells with consecutive heights, the chain client known, and nothing in the window while a chain is awaited. Afterwards everything that can be under way is: the window is full or no more of the chain is known, every cell is assigned unless 400 are under way, and with nothing left a chain has been asked of a peer that is ahead, if there is one. |
| `Downloading.Downloader.OnDisconnect` | src/Core/NodeDownloader.cpp:96-119 | A client that goes leaves no cell and no count behind; the total never underflows. |
| `Downloading.Downloader.OnChain` | src/Core/NodeDownloader.cpp:128-158 | An answer that was not asked for changes nothing; an expected one keeps the books. |
| `Downloading.Downloader.OnObjects` | src/Core/NodeDownloader.cpp:237-305 | Received, unparsable and missing blocks keep the books, and the work goes on as after filling the window. |
| `Downloading.Downloader.OnIdle` | src/Core/NodeDownloader.cpp:307-369 | Blocks reach the chain in window order, each one prepared, with consecutive heights. |
| `Downloading.Downloader.StartDownload` | src/Core/NodeDownloader.cpp:200-220 | A cell is assigned and counted, once. |
| `Downloading.Downloader.StopDownload` | src/Core/NodeDownloader.cpp:222-235 | The client of a cell is known and counted, so the invariant never fires. |
| `Downloading.Downloader.TakeBlock` | src/Core/NodeDownloader.cpp:253-279 | Only a cell waiting for that block from that client takes it, and a stray block changes nothing. |
| `Downloading.Downloader.Reassign` | src/Core/NodeDownloader.cpp:289-303 | A missing block goes to the client that sent the chain; if there is none, or it is the one that lacks the block, the window is cut at that cell and the rest of the chain is dropped. |
| `Downloading.PickClient` | src/Core/NodeDownloader.cpp:413-426 | The client chosen is the least busy for its speed among those that have the block, and is missing only if none has it. |
| `Downloading.TotalIsSum` | src/Core/NodeDownloader.cpp:200-235 | The total is the sum of all counters. |
| `Base58.DecodeUndoesEncode` | src/common/Base58.cpp:121-210 | Decoding undoes encoding for every byte string. |
| `Base58.EncodeUndoesDecode` | src/common/Base58.cpp:121-210 | Encoding undoes decoding for every accepted text. |
| `Base58.Encode` | src/common/Base58.cpp:163-182 | The loop over blocks computes the specified text. |
| `Base58.Decode` | src/common/Base58.cpp:184-210 | The loop over blocks accepts and decodes exactly as specified. |
| `Base58.EncodeBlock` | src/common/Base58.cpp:121-133 | A block is written in place; its digits always have room, so nothing outside is touched. |
| `Base58.DecodeBlock` | src/common/Base58.cpp:135-161 | A block is refused exactly for an impossible size, symbol or value; every overflow is noticed. |
| `Addresses.DecodeUndoesEncode` | src/common/Base58.cpp:212-238 | For every hash function, an address decodes to the tag and data it was made of. |
| `Addresses.EncodeUndoesDecode` | src/common/Base58.cpp:221-238 | An accepted address is the encoding of what it decodes to if and only if some byte of its payload is below 128, that is, ends a number. |
| `Addresses.CutOffAddress` | src/common/Varint.hpp:44-49 | An address that ends within its tag and is accepted all the same. |
| `Addresses.EncodeAddr` | src/common/Base58.cpp:212-219 | Writes the tag, the data and the checksum as text. |
| `Addresses.DecodeAddr` | src/common/Base58.cpp:221-238 | Accepts exactly the texts with a right checksum whose tag can be read. |
| `Varints.ReadUndoesWrite` | src/common/Varint.hpp:18-72 | Reading undoes writing for every 64-bit number, whatever follows. |
| `Varints.ReadIsCanonical` | src/common/Varint.hpp:38-66 | What is read without an error is what writing gives if and only if the input does not end within the number. |
| `Varints.AllButLastMarked` | src/common/Varint.hpp:36-66 | Of the bytes read, all but the last say that another one follows. |
| `Varints.WrittenSize` | src/common/Varint.hpp:28-34 | A 64-bit number fits the ten bytes of the buffer. |
| `SqliteVarints.ReadUndoesWrite` | src/common/Varint.cpp:77-155 | Reading undoes writing for every 64-bit number and suffix, and the size is the declared one. |
| `SqliteVarints.PrefixFree` | src/common/Varint.cpp:105-155 | No encoding is the beginning of another. |
| `SqliteVarints.WrittenInOrder` | src/common/Varint.cpp:105-155 | A smaller number has the smaller encoding. |
| `SqliteVarints.KeysSortLikeTuples` | src/Core/WalletStateBasic.cpp:577-597 | Keys of any lengths, put together of numbers, sort byte by byte like the tuples of the numbers, shorter first. |
| `WalletScans.Scan` | src/Core/WalletStateBasic.cpp:577-597 | Seeking with the first height alone and stopping at the first larger height visits exactly the keys with a height in the range, each once and in order; every key parses into its three numbers with nothing left. |
| `WalletScans.Seek` | src/Core/WalletStateBasic.cpp:581-582 | The cursor is placed so that exactly the keys with a smaller height are before it. |
| `WalletScans.ScanUnspent` | src/Core/WalletStateBasic.cpp:698-724 | The scan of an unspent index, of the wallet or of one address, visits exactly the keys the queries are stated with. |
| `WalletScans.ScanUnlocked` | src/Core/WalletStateBasic.cpp:577-597 | So does the scan of the recently unlocked outputs, with its early return and its filter by address. |
| `SqliteVarints.WriteVarint` | src/common/Varint.cpp:105-155 | The encoder computes the specified bytes. |
| `SqliteVarints.ReadVarint` | src/common/Varint.cpp:77-101 | The decoder reads what is specified and refuses a short input. |

## Left out

- HTTP, JSON-RPC and P2P transport, logging, timers, configuration, files and the database back end: input and output. Timeouts in the downloader are arbitrary choices.
- Elliptic curve, hash and cipher functions: opaque. `mul128` and `div128_32` have their exact 128-bit meaning.
- The `seria` library is not part of this model; its binary form is taken to round-trip.
- Standalone consensus checks other than money (timestamps, versions, unlock times, proof of work): `BlockChains.BlockChain.AddBlock` takes their verdict, the block's difficulty and the sizes its reward depends on as a parameter, and the bound on the size that the penalty asserts as a precondition. Checkpoints are taken to be absent, so that signatures are always checked.
- The counters of children and the map of undone transactions that `reorganize_blocks` keeps beside the chain; the offsets of transactions inside blocks.
- BlockChains.BlockChain.AddBlock: when the process ends (`Exit`) nothing is said about the state, because nothing runs any more.
- Mempools.Mempool.AddTransaction: does not say that a transaction reported as `IncreaseFee` leaves the pool unchanged, because it may have displaced another one first.
- CoinSelection.UnspentSelector.SelectForAmount: sums of amounts are unbounded, so a wrap of 64-bit totals is not modelled; the two nested levels of stacks, by digits and by leading figure, are one map by amount, whose order is shown to be the same.
- CoinSelection.UnspentSelector.TakeLargest: says when filling up ends, not which coins are taken, because the program promises nothing about that.
- WalletQueries.AddUnspent: says which outputs are listed, not in what order.
- WalletStates.WalletState.AddIncomingOutput: requires that the same output is not presented twice, as blocks do.
- WalletQueries.GetBalance: requires that the missing key image is not among those used in the pool, as the pool never puts it there; balances are unbounded integers, so the 128-bit type of `Int128.hpp` is not modelled.
- RingChecking.AnswerIsRight: threads are steps on a value, not objects; the wrap of the batch counter and the end of the threads in the destructor are not modelled.
- WalletPreparing.ReadyIsOfCurrentBatch: as for the ring checker; in addition the start height of a batch does not wrap.
- Downloading.Downloader.AdvanceDownload: the iteration order over clients, the random choice among them and the passing of time are arbitrary; preparation by threads is the set of blocks prepared when the handler runs.
- Moneys.ValidateSemantic: only the form for transactions that do not generate coins; outputs of unknown kinds do not exist in the model.
- The mining template, pruning helpers, internal import, `next_difficulty`, amount formatting, `get_random_outputs`, and the wallet's transaction index and memory state: they would add only easy members, or floating point.
