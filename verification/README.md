# A verified model of the iuna node's storage, projections, codecs and wallet arithmetic

The iuna node keeps only genesis and a recent window of blocks in memory. Everything older lives in a
segmented chain database; a second database holds rows derived from the chain for its user interface. Around
the node sit a browser wallet, an address codec, recovery phrases, a packed IP-to-country database and
planners for fees and consolidation. In each of these a fast, incremental or bounded form has to agree with a
simple one, and this project proves that it does. `dafny verify dfyconfig.toml` checks all of it.

## What is modelled

**Blocks and hashes** (`Chain.dfy`). A block hash is a free constructor over height, parent hash and contents,
so that two chains sharing a hash share everything below it is a theorem (`SameHashSamePrefix`), not an
assumption.

**The chain database** (`Segments`, `ChainTables`, `ChainStoreWrites`, `ChainStoreTail`, `ChainStore`,
`ChainReads`, `BoundedLoader`). Tables are maps; every SQL write becomes a map update with its primary- and
unique-key checks. The segment size is a symbolic positive number. The class `ChainStore` carries the stored
chain as a ghost sequence, and its invariant says that segments, index, metadata and verification row are
exactly the functions of that sequence. The full save (which skips segments whose end hash is unchanged), the
resident-tail save and the reset keep it; every read returns what indexing the sequence would. Reopening
replays the stored segments; which blocks must prove again is stated marker by marker, and after each kind of
save.

**The node** (`NodeLifecycle`, `NodeProtocol`, `NodeSystem`). The class `NodeCore` prunes the resident window
to the blocks above the persisted tip, at least 64, and reattaches pruned history. `NodeProtocol` puts node
and store into one step system in which snapshot, commit and mark are separate steps, so are loading a fork
base from the store and importing the fork, and blocks, reorgs and pruning interleave with them. Over every
careful run the store agrees with the live chain below the window and the next resident save is accepted.
Careful is a condition on the state before a step: a prune while a save is in flight needs a resident
persisted tip to be on the chain being saved; an imported fork needs its last block below the window to be the
stored one, and the one of the chain being saved. The source checks neither, and the first is needed:
`UndoneReorgLosesHistory` builds a run, for any window size, in which a reorg away from the persisted tip is
undone and pruned past while the abandoned branch is being committed. `CommitIsSafeIff` gives the exact
condition: the commit is safe if and only if the committed snapshot carries the parent of the live tail. A
second result about the code as it is: history restored from a store that holds genesis alone is accepted
whenever the resident blocks happen to replay on genesis, and the node then takes a chain with a gap for
complete history (`RestoreCompleteChainHistory`, `GapIsNoChain`); any longer stored chain is refused or right.
`NodeSystem` holds a `NodeCore` and a `ChainStore` and proves that each of their operations performs the
protocol's steps, so what holds over careful runs holds of the objects.

**Derived tables** (`Utxo`, `Rewards`, `Balances`, `Metrics`, `MetricsStore`, `MetricsColumns`, `UiRows`,
`WalletHistory`, `Leaderboards`, `UiOutputs`, `UiTables`, `UiDataStore`, `UiDatabase`). The reference for each
table is a from-scratch projection of the whole chain. Appending, rewinding to a fork, streaming missing
blocks from the store and rebuilding all end in it, or fail and change nothing. A pruned projection is proved
beside a store that may hold any chain: its own length, height and parent checks reject every stored block
that is not live, so it succeeds exactly when the projected-block table lists a live block that is in the
window, or any live block over a store that agrees below the window. The metrics rows carry a conservation law
against a replay of the unspent outputs, and the last row's supply is the sum of the UI's unspent-output
table. What the from-scratch tables themselves mean is stated over the chain's blocks and transactions: every
wallet row, leaderboard entry, metrics column and first-seen address (`WalletHistory`, `MetricsColumns`), who
is paid by a block's reward (`Rewards`), and every balance as what an address was paid less what it spent
(`Balances`).

**Codecs** (`Bits`, `Regroup`, `Polymod`, `Bech32m`, `Mnemonic`). Bech32m addresses, BIP 39 phrases and dice
entropy, over bit lists of any length. The checksum state is a natural number below 2^30 with a bitwise
exclusive or; linearity and bijectivity of each step give the error detection.

**Lookup, fees and planning** (`GeoDatabase`, `GeoLookup`, `Fees`, `CoinSelection`, `Consolidation`,
`ConsolidationPlanner`, `Discovery`, `Stratum`). Longest-prefix lookup through the writer, parser and binary
search; the fee fixed point; coin selection, with the wallet's size estimate set against the node's encoded
size; the consolidation planner; gap-limit address discovery; line framing.

Loops and in-place updates in the source are methods here, each proved against a specification function or a
stated property; the properties are proved of those functions.

## Hypotheses that appear in contracts

- `Replays`: every block of the chain applies to the unspent outputs, with attestations in slot order and
  reward ids not yet in use. This is what consensus guarantees of an accepted chain.
- `BlocksNamed`: an outpoint names one output. Transaction ids are signatures or digests over what they
  name, and reward ids contain the block hash.
- `CarefulRun`: the checks described above hold before every pruning and every imported fork of a run.
- `Trusts`: every block of the live chain replays on the blocks before it, as it did when it was accepted.
- `Tame`: up to some fee every fee builds and size is monotone in it; `ConsolidationIsTame` shows which
  consolidations are.
- `IsScheme`: the word list has 2048 distinct words, and the digest's first byte is a byte.

## Model

| member | source | states |
|---|---|---|
| `Chain.SameHashSamePrefix` | src/adapters/chain_store.rs:654-666 | Two linked chains that carry the same hash anywhere carry it at the same height and are equal up to it; this is why one predecessor check suffices. |
| `Segments.QuotientAndRemainder` | src/adapters/chain_store.rs:667-669 | The repeated-addition segment id and offset are the quotient and remainder by the segment size. |
| `ChainTables.SegmentArithmetic` | src/adapters/chain_store.rs:866-887 | The index row of height h names its hash, segment h / N and offset h % N. |
| `ChainTables.IndexSegment` | src/adapters/chain_store.rs:858-887 | Writing a segment's index rows never breaks the height key or the unique hash, whatever rows other segments left, and writes exactly those rows. |
| `ChainTables.CompleteByCount` | src/adapters/chain_store.rs:899-904 | A table of right rows is the complete index exactly when it has as many rows as the chain has blocks. |
| `ChainStoreWrites.SegmentKept` | src/adapters/chain_store.rs:817-830 | A stored segment whose end hash equals the new chunk's is that chunk, rows included, so skipping it is sound. |
| `ChainStoreWrites.WriteSegment` | src/adapters/chain_store.rs:811-888 | One step of the full save: afterwards every segment and row up to its end describes the new chain and the rest is untouched. |
| `ChainStoreWrites.WriteSegments` | src/adapters/chain_store.rs:803-888 | The segment loop, from the first segment the stored tip does not vouch for. |
| `ChainStoreWrites.WriteChain` | src/adapters/chain_store.rs:803-922 | After the full save's writes, trimming and count check, segments and index are exactly those of the new chain. |
| `ChainStoreWrites.RebuildIndex` | src/adapters/chain_store.rs:904-922 | The fallback re-insertion produces exactly the chain's index, with no key conflict. |
| `ChainStoreWrites.IndexFromSegments` | src/adapters/chain_store.rs:1056-1120 | Walking the stored segments rebuilds exactly the index of the stored chain. |
| `ChainStoreTail.FilterIsSlice` | src/adapters/chain_store.rs:691-700 | Filtering consecutive blocks by height is slicing. |
| `ChainStoreTail.WriteTailSegment` | src/adapters/chain_store.rs:688-733 | One step of the resident save: kept prefix plus tail part is the segment of the spliced chain; the plain inserts meet no key. |
| `ChainStoreTail.LoadPrefix` | src/adapters/chain_store.rs:669-681 | The blocks of the tail's first segment that stay, also when the tail starts mid-segment. |
| `ChainStoreTail.WriteTail` | src/adapters/chain_store.rs:667-739 | After the resident save's writes, segments and index are exactly those of stored prefix ++ tail, whether the tail extends, replaces or shortens history. |
| `ChainStore.RefusalIsExact` | src/adapters/chain_store.rs:597-666 | The checks of a resident save pass if and only if the tail is contiguous, the header matches and the stored predecessor is the tail's parent. |
| `ChainStore.ResidentResultLinked` | src/adapters/chain_store.rs:654-666 | What an accepted resident save leaves is a linked chain. |
| `ChainStore.ChainStore.SaveWithVerificationStatus` | src/adapters/chain_store.rs:770-964 | Succeeds exactly for a non-empty chain; then all four tables are those of the new chain, whatever was stored, even over an incomplete index. |
| `ChainStore.ChainStore.SaveVerifiedResident` | src/adapters/chain_store.rs:597-768 | Succeeds exactly when the tail extends its stored predecessor; then the tables are those of stored prefix ++ tail; otherwise nothing changes. |
| `ChainStore.ChainStore.ClearChain` | src/adapters/chain_store.rs:966-994 | Leaves valid empty tables. |
| `ChainStore.ChainStore.EnsureChainBlockIndex` | src/adapters/chain_store.rs:1056-1120 | Backfills a missing or partial index to exactly the stored chain's, changing nothing else. |
| `ChainReads.SaveResidentOrFull` | src/adapters/chain_store.rs:597-768 | Two stores in the same state, one given the resident snapshot and the other the whole spliced chain, end with equal segments, index, metadata and verification row. |
| `ChainReads.BlocksFrom` | src/adapters/chain_store.rs:228-257 | A bounded range read is the slice of the stored chain, and fails exactly on an empty store with a positive limit. |
| `ChainReads.BlocksAtHeights` | src/adapters/chain_store.rs:264-296 | A scattered read returns exactly the requested heights the chain reaches, each with its block. |
| `ChainReads.BlockByHash` | src/adapters/chain_store.rs:311-333 | A block is found exactly when the stored chain carries the hash. |
| `ChainReads.BlocksAfterLocator` | src/adapters/chain_store.rs:335-360 | The first locator hash on the chain decides, and the blocks after it follow; no hash on the chain gives none. |
| `ChainReads.LoadSegmentedSnapshot` | src/adapters/chain_store.rs:1146-1225 | The segments concatenate to exactly the chain saved last, with its header, and no consistency check fails. |
| `BoundedLoader.RetainStep` | src/domain/ledger_queries.rs:76-88 | Pruning after every block keeps the same window as pruning once at the end. |
| `BoundedLoader.ApplyNextReplays` | src/adapters/chain_store.rs:188-206 | Applying the next stored block to the bounded ledger of a prefix succeeds exactly when the block passes, and gives the bounded ledger of the longer prefix. |
| `BoundedLoader.ReplaySegments` | src/adapters/chain_store.rs:184-218 | Streaming segments reaches the target exactly when every non-genesis block up to it passes, with full validation exactly from the revalidation height on. |
| `BoundedLoader.MarkerIsTrustedFor` | src/adapters/chain_store.rs:1400-1415 | What a stored marker is trusted for, by its text: nothing to prove again under the current ruleset, everything from 4,750 on under v2, from 4,500 on under v1 and 0.4.10, and every block if it is missing, for another tip or unknown. |
| `BoundedLoader.LoadBoundedLedgerThrough` | src/adapters/chain_store.rs:141-225 | Nothing exactly for an empty store or a target not indexed at its height; otherwise the replayed state with genesis plus the last k blocks, exactly if every block is accepted and every block from the first untrusted height on proves, said marker by marker. |
| `BoundedLoader.ReopenAfterSave` | src/adapters/chain_store.rs:770-964 | A chain saved as verified loads without any proof; one saved as unverified loads only if every block proves. |
| `BoundedLoader.ReopenAfterResidentSave` | src/adapters/chain_store.rs:597-768 | A chain saved from a resident window loads without any proof, as the spliced chain. |
| `NodeLifecycle.ResidentBlockIsLive` | src/domain/ledger_history_index.rs:431-441 | The window lookup returns the live block at genesis and in the tail, and nothing elsewhere. |
| `NodeLifecycle.RetainIsPrunedStart` | src/domain/ledger_queries.rs:76-88 | Retaining k recent blocks of a window is the window from a later start. |
| `NodeLifecycle.PrunedStartKeeps` | src/app/node_lifecycle.rs:43-64 | Pruning drops blocks only behind a resident persisted tip; then exactly the blocks above that tip stay, or a full window if they are fewer, and never more while pruning is possible. |
| `NodeLifecycle.PruneBehind` | src/app/node_lifecycle.rs:43-64 | One pruning: it happens only while the persisted tip is resident on the live chain, and leaves exactly the blocks above that tip or 64, whichever is more. |
| `NodeLifecycle.NodeCore.PrunePersistedHistory` | src/app/node_lifecycle.rs:43-64 | Keeps the live chain; whatever is dropped, genesis and the larger of 64 and the number of blocks above the persisted tip stay, and no more stay once bounding is on and the tip is resident. |
| `NodeLifecycle.NodeCore.BoundResidentChainHistory` | src/app/node_lifecycle.rs:17-21 | Turns bounding on and prunes to that window. |
| `NodeLifecycle.NodeCore.KeepCompleteChainHistory` | src/app/node_lifecycle.rs:23-25 | Turns bounding off and changes nothing else. |
| `NodeLifecycle.NodeCore.MarkChainPersisted` | src/app/node_lifecycle.rs:32-35 | Records the tip and prunes to that window behind it. |
| `NodeLifecycle.NodeCore.Reorganize` | src/adapters/p2p/fetch.rs:359-367 | A page is refused exactly if no resident block is its parent; otherwise everything above that parent is replaced, and from genesis the window is the complete new chain. |
| `NodeLifecycle.NodeCore.RestoreCompleteChainHistory` | src/domain/ledger_history_index.rs:392-428 | A stored chain that reaches the window is attached exactly when it is a prefix of the live one, and the window then is the complete live chain; a shorter one is refused; genesis alone is refused exactly if a resident block fails to replay on it, and otherwise leaves a window with a gap marked complete. |
| `NodeLifecycle.Reattach` | src/domain/ledger_history_index.rs:392-428 | Stored chain plus newer resident blocks is the live chain; nothing if the two do not meet; for genesis alone the window itself, or an error if it does not replay. |
| `NodeLifecycle.GapIsNoChain` | src/domain/ledger_history_index.rs:404-428 | The window such a restore leaves is never a linked chain, so the gap is always wrong. |
| `NodeProtocol.ParentDecidesAgreement` | src/adapters/chain_store.rs:654-666 | A chain carries the parent of the live tail exactly when it agrees with the live chain at every height below the tail. |
| `NodeProtocol.SaveOfWindow` | src/main.rs:1724-1747 | Saving a window succeeds exactly when the store carries its tail's parent, and then stores the complete chain of the window. |
| `NodeProtocol.NextSaveAccepted` | src/adapters/chain_store.rs:654-666 | In every state of the invariant the next resident save, and the one in flight, pass the predecessor check. |
| `NodeProtocol.StepKeepsInv` | src/app/node_lifecycle.rs:32-64 | Every step that is careful in the state before it keeps the invariant. |
| `NodeProtocol.BenignUnlessPruning` | src/app/node_lifecycle.rs:43-64 | Every step but pruning and importing a fork leaves on the chain being saved whatever is no longer resident. |
| `NodeProtocol.PruneKeepsWindow` | src/app/node_lifecycle.rs:59-63 | A pruning step leaves exactly the blocks above the persisted tip, or a full window if they are fewer, whenever it drops anything. |
| `NodeProtocol.BenignWhileTipCarried` | src/app/node_lifecycle.rs:47-56 | While the chain being saved carries the persisted tip, pruning is harmless. |
| `NodeProtocol.ImportKeepsInv` | src/adapters/p2p/process.rs:284-312 | Importing a fork whose base was loaded earlier keeps the invariant if the base still shares its last block below the window with the store and with the save in flight. |
| `NodeProtocol.StoreAgreesOverEveryRun` | src/main.rs:1724-1753 | Over every careful run, in every state: the store agrees with the live chain below the window, the commit in flight is enabled, and the next save is accepted. |
| `NodeProtocol.CommitIsSafeIff` | src/main.rs:1745-1753 | A commit always goes through; afterwards the next resident save is accepted if and only if the committed snapshot carries the parent of the live tail. |
| `NodeProtocol.UndoneReorgLosesHistory` | src/app/node_lifecycle.rs:47-64 | Without the check the claim is false: a concrete run, for any window size, ends idle with the next resident save refused. |
| `NodeSystem.NodeSystem.constructor` | src/app/node_lifecycle.rs:66-79 | A node over an empty database is in an initial state of the protocol. |
| `NodeSystem.NodeSystem.ApplyBlock` | src/domain/ledger_apply.rs:247-270 | Applying a block to the node object is the protocol's extending step. |
| `NodeSystem.NodeSystem.Reorganize` | src/adapters/p2p/fetch.rs:359-367 | Replacing everything above a resident parent is a resident reorg, or the import of a complete chain from genesis; refused exactly without such a parent. |
| `NodeSystem.NodeSystem.LoadForkBase` | src/adapters/p2p/process.rs:391-452 | Looking an ancestor up in the database and streaming the segments up to it is the loading step; it fails only if the ancestor is not stored or some block up to it is not accepted or does not prove. |
| `NodeSystem.NodeSystem.ImportFork` | src/app/receive.rs:231-258 | Taking over a fork validated on that base is the importing step. |
| `NodeSystem.NodeSystem.BoundHistory` | src/app/node_lifecycle.rs:17-21 | Bounding history is turning it on, then pruning. |
| `NodeSystem.NodeSystem.PruneHistory` | src/app/node_lifecycle.rs:43-64 | Pruning the node object is the pruning step with 64 resident blocks. |
| `NodeSystem.NodeSystem.RestoreHistory` | src/main.rs:1815-1825 | Loading the whole chain and reattaching it is the restoring step when it answers yes, and changes nothing otherwise. |
| `NodeSystem.NodeSystem.TakeSnapshot` | src/main.rs:1724-1736 | The snapshot handed to the database is the window the protocol remembers. |
| `NodeSystem.NodeSystem.Commit` | src/main.rs:1829-1839 | The database stores the snapshot exactly if the protocol allows the commit, and then holds the chain the protocol says; a refusal changes nothing. |
| `NodeSystem.NodeSystem.MarkPersisted` | src/main.rs:1748-1752 | Telling the node what is committed is marking, then pruning. |
| `NodeSystem.NodeSystem.PersistTick` | src/main.rs:1724-1753 | From any state a careful run reaches, snapshot, commit and mark in a row leave the database with the complete live chain, the tip marked, the invariant kept, and a bounded node with at most 64 blocks besides genesis, exactly 64 if anything was dropped. |
| `NodeSystem.CommitOutcome` | src/adapters/chain_store.rs:654-666 | A snapshot is committed exactly if the database carries the parent of its tail. |
| `Maps.SumWithout` | src/adapters/ui_data_store.rs:2110-2121 | A sum over a map does not depend on the order of summation. |
| `Utxo.RewardIsPaidOut` | src/domain/ledger_ops.rs:595-674 | The finalizer's output and the committee's shares add up to exactly the block reward. |
| `Utxo.RewardOutpointsDistinct` | src/domain/ledger_ops.rs:595-674 | Reward outputs have distinct outpoints under the block's id, each with value. |
| `Rewards.RewardsAre` | src/domain/ledger_ops.rs:595-674 | Said of the attestations: the finalizer gets the whole reward, or all but half if anyone shares it; that half is split evenly, to one unit, over exactly the attesting members other than the finalizer, each under its own slot at its payout address. |
| `Utxo.EffectConserves` | src/domain/ledger_apply.rs:518-589 | An applied transaction changes the unspent value by what it mints less fee and burn, and the count by outputs less inputs. |
| `Balances.GenesisHeld` | src/domain/genesis.rs:62-82 | At genesis every address holds what it was allotted. |
| `Balances.EffectFlows` | src/domain/ledger_apply.rs:518-589 | A transaction leaves an address with what it held plus what it is paid less what its own inputs were worth. |
| `Balances.BlockFlow` | src/domain/ledger_apply.rs:518-589 | The same for a whole block, both formats and rewards. |
| `Balances.ChainFlow` | src/domain/ledger_apply.rs:518-589 | And for a chain: holdings at any height are the genesis holdings plus everything paid less everything spent, address by address. |
| `Metrics.CountTxsTracks` | src/adapters/ui_data_store.rs:2570-2612 | On legacy transactions the ledger applies, no checked subtraction fails and supply and count stay those of the unspent outputs. |
| `Metrics.CountTxsV2Tracks` | src/adapters/ui_data_store.rs:2613-2654 | The same for second-format transactions, whose mining form has no fee and is refused by the ledger. |
| `Metrics.IncrementalMetricForBlock` | src/adapters/ui_data_store.rs:2541-2696 | The two transaction loops compute exactly the row function, including which block fails. |
| `Metrics.NextMetricTracks` | src/adapters/ui_data_store.rs:2541-2696 | One row from the previous one: supply and count match the outputs replayed through the block, rewards included. |
| `Metrics.GenesisTracks` | src/adapters/ui_data_store.rs:2546-2569 | The starting supply and count are those of the genesis outputs. |
| `MetricsStore.KnownTruncated` | src/adapters/ui_data_store.rs:1051-1068 | Deleting addresses first seen above a height leaves exactly those known at it. |
| `MetricsStore.CommonHeight` | src/adapters/ui_data_store.rs:1159-1212 | The newest height at which projected rows and snapshot carry the same block, or none. |
| `MetricsStore.Truncate` | src/adapters/ui_data_store.rs:1051-1078 | What truncation keeps is what a from-scratch projection of the new chain has up to the common height. |
| `MetricsStore.AppendRows` | src/adapters/ui_data_store.rs:1090-1128 | Appending from there gives exactly the from-scratch rows and first-seen table, or fails exactly if some row cannot be computed. |
| `MetricsStore.MetricsStore.ProjectMetrics` | src/adapters/ui_data_store.rs:1034-1157 | Projecting a chain over whatever was projected succeeds exactly if it is not empty and every row of it can be computed, and leaves the tables as if computed from scratch; a failure changes nothing. |
| `MetricsStore.MetricsStore.ClearMetrics` | src/adapters/ui_data_store.rs:1321-1338 | Leaves valid empty tables. |
| `MetricsStore.RowsConserve` | src/adapters/ui_data_store.rs:2541-2696 | By induction over heights: the row of each block is computed and tracks the replayed outputs. |
| `MetricsStore.SupplyIsConserved` | src/adapters/ui_data_store.rs:2541-2696 | At every height of a chain that replays, circulating supply is the value and the UTXO count the size of the replayed unspent outputs, and no row fails. |
| `MetricsColumns.RowColumns` | src/adapters/ui_data_store.rs:2541-2696 | Every computed row of a chain: copied fields, burns, fees and numbers by kind as sums over the block's transactions of both formats, total burns as a sum over all blocks so far, block time as the saturating difference of neighbouring timestamps. |
| `MetricsColumns.KindsAddUp` | src/adapters/ui_data_store.rs:2570-2654 | Transfers, burns and mines add up to the number of transactions. |
| `MetricsColumns.RowSupply` | src/adapters/ui_data_store.rs:2541-2696 | For any chain, replayable or not: supply plus everything that left is genesis plus everything minted and rewarded, and the output count plus everything spent is genesis plus everything created; so no failed subtraction is glossed over. |
| `MetricsColumns.KnownExactly` | src/adapters/ui_data_store.rs:2727-2762 | The first-seen table holds exactly the genesis addresses and the finalizers, attesting members, owners, payees and mining recipients of the blocks so far, each at the first height that shows it. |
| `MetricsColumns.TablesAreColumns` | src/adapters/ui_data_store.rs:1034-1157 | All of this holds of the rows and addresses of any valid metrics database. |
| `UiRows.RowsTagged` | src/adapters/ui_data_store.rs:2331-2416 | Every row a block adds to either wallet table carries the block's height; which rows those are, `WalletHistory` says. |
| `UiRows.InsertRows` | src/adapters/ui_data_store.rs:1557-1592 | The insert loop computes row-by-row insertion, refusing a repeated primary key. |
| `UiRows.ScratchAppend` | src/adapters/ui_data_store.rs:1557-1592 | Appending blocks to the from-scratch table of a chain is the from-scratch table of the longer chain, failures included. |
| `UiRows.ScratchRewind` | src/adapters/ui_data_store.rs:2302-2315 | Deleting rows above the fork is an exact left inverse of appending them. |
| `WalletHistory.LegacyKeys` | src/adapters/ui_data_store.rs:2331-2372 | An address has a wallet row for a signature exactly if some block carries a legacy transaction so signed whose sender, first payee or mining recipient it is. |
| `WalletHistory.RewardKeys` | src/adapters/ui_data_store.rs:2331-2372 | And a reward row for an outpoint exactly if a block above genesis pays it that reward output. |
| `WalletHistory.EnvelopeKeys` | src/adapters/ui_data_store.rs:2376-2457 | In the second table, exactly if some block carries an envelope with that id of which it owns an input or is paid an output. |
| `WalletHistory.WalletIsHistory` | src/adapters/ui_data_store.rs:2331-2372 | Each of these rows has its block's height, timestamp and finalizer, its transaction and kind, and its place in the sort order. |
| `WalletHistory.WalletV2IsHistory` | src/adapters/ui_data_store.rs:2384-2416 | The same for the second table. |
| `WalletHistory.BoardsAreTotals` | src/adapters/ui_data_store.rs:2110-2200 | The mine, burn and balance entries of an address are the sums and numbers of what the chain's transactions mint for it and burn from it and of its unspent outputs, absent exactly if there are none. |
| `UiDataStore.UiDataStore.HistoryIsExact` | src/adapters/ui_data_store.rs:3063-3123 | All of this holds of the tables of any valid UI database. |
| `Leaderboards.BoardsUnique` | src/adapters/ui_data_store.rs:2110-2121 | The totals determine the leaderboards. |
| `Leaderboards.AccumulateActivity` | src/adapters/ui_data_store.rs:2187-2200 | Adding the mine and burn postings of new rows keeps every entry equal to the sum and number of its postings. |
| `Leaderboards.AccumulateBalances` | src/adapters/ui_data_store.rs:2175-2185 | The same for balances, in whatever order the outputs are listed. |
| `Leaderboards.RemoveRow` | src/adapters/ui_data_store.rs:2289-2301 | Taking a row's posting back gives the totals without the row, removes an entry exactly when its last posting goes, and neither saturating subtraction clips. |
| `Leaderboards.RewindActivity` | src/adapters/ui_data_store.rs:2267-2301 | Taking back every row above the fork, in any order, gives exactly the totals of the remaining rows. |
| `Leaderboards.ActivityOnly` | src/adapters/ui_data_store.rs:2123-2149 | Reading back everything but balances gives the activity totals alone. |
| `UiOutputs.IndexBlocks` | src/adapters/ui_index.rs:46-85 | Indexing a run of blocks whose outpoints name one output each adds every output they create with its value and keeps what was right. |
| `UiOutputs.ReplayInside` | src/adapters/ui_index.rs:46-85 | Every unspent output of a replayed chain was created by its genesis or one of its blocks, with that value. |
| `UiTables.RecentIsBounded` | src/adapters/ui_data_store.rs:2202-2230 | The projected-block table has at most 256 entries. |
| `UiTables.RecordBlocks` | src/adapters/ui_data_store.rs:2202-2230 | After recording, the table is again a contiguous suffix of the projected chain ending at its tip, and forgets only what lies behind the newest 256 blocks. |
| `UiTables.AppendBlocks` | src/adapters/ui_data_store.rs:514-534 | Appending a run of blocks to the tables of a chain gives the tables of the longer chain, and fails exactly if that chain does not project from scratch. |
| `UiTables.ProjectFromScratch` | src/adapters/ui_data_store.rs:440-452 | The full rebuild gives exactly the tables of the chain. |
| `UiTables.ExtendProjection` | src/adapters/ui_data_store.rs:429-439 | Appending the rest of a complete chain and rebuilding the leaderboards gives its tables. |
| `UiTables.Rewind` | src/adapters/ui_data_store.rs:2267-2316 | Rewinding to a listed fork leaves exactly the tables of the shorter chain, with activity totals only; abandoned outputs may stay indexed. |
| `UiDataStore.LiveHeight` | src/adapters/ui_data_store.rs:590-596 | Beside any store: a height is returned only where memory, or the store below the window, shows the hash, and nothing only if neither does. |
| `UiDataStore.FindFork` | src/adapters/ui_data_store.rs:604-644 | Beside any store: the newest listed block that memory or the store shows as live, or nothing if there is none. |
| `UiDataStore.SeenIsLive` | src/adapters/ui_data_store.rs:616-633 | In the window, and everywhere if the store agrees below it, a block shown as live is live and conversely. |
| `UiDataStore.PrunedProjectionStart` | src/adapters/ui_data_store.rs:568-644 | Whenever the projection can be continued at all, continuing starts right after the last common block; a start in the window is on the live chain whatever the store holds. |
| `UiDataStore.ReadRun` | src/adapters/ui_data_store.rs:538-550 | A streamed run has the asked length and heights or is refused; over a store that agrees it is the live run. |
| `UiDataStore.AppendLinked` | src/adapters/ui_data_store.rs:514-534 | A run of blocks is appended exactly if it links to the projected chain and projects from scratch with it. |
| `UiDataStore.EdgeDecides` | src/adapters/ui_data_store.rs:515-520 | The parent check on the first resident block passes exactly if everything appended below the window is the live chain. |
| `UiDataStore.StreamFromStore` | src/adapters/ui_data_store.rs:535-553 | Streaming up to the window from any store gives the tables of a linked chain ending in the last stored block, or fails; over a store that agrees it fails only if the live chain does not project. |
| `UiDataStore.AppendMissing` | src/adapters/ui_data_store.rs:535-554 | Streaming and then appending the resident blocks succeeds exactly from a live block that lies in the window, or below it over a store that agrees. |
| `UiDataStore.ContinueProjection` | src/adapters/ui_data_store.rs:504-563 | Rewind, stream, append the resident blocks, rebuild balances: exactly the tables of the complete live chain, or a failure exactly if it does not project or the block continued from is not backed. |
| `UiDataStore.UiDataStore.ProjectSnapshot` | src/adapters/ui_data_store.rs:411-458 | The second transaction: succeeds exactly for a non-empty chain that projects from scratch; then every derived table is that of the chain, and of the listed blocks only those behind the newest 256 are forgotten. |
| `UiDataStore.UiDataStore.ProjectPruned` | src/adapters/ui_data_store.rs:465-563 | Beside a store holding any chain: succeeds exactly when the live chain projects and the projected-block table lists a live block in the window, or any live block over a store that agrees below it; then every derived table is that of the complete live chain, with the newest blocks listed, else nothing changes. |
| `UiDatabase.UiDatabase.ProjectSnapshot` | src/adapters/ui_data_store.rs:396-458 | Succeeds exactly for a non-empty chain that projects and whose metrics, if kept, can be computed; a failure leaves the derived tables alone, and the metrics have moved only if their own transaction went through. |
| `UiDatabase.UiDatabase.ProjectLedger` | src/adapters/ui_data_store.rs:465-563 | The same for a live ledger, pruned or not: pruned it needs no metrics kept and a block to continue from, clears the metrics on success and changes nothing on failure. |
| `UiDatabase.UiDatabase.BalancesAreFlows` | src/adapters/ui_data_store.rs:2175-2185 | The balance shown for an address plus all it has spent is what genesis allotted it plus all the projected chain paid it. |
| `UiDatabase.UiDatabase.SupplyIsTheUtxoTable` | src/adapters/ui_data_store.rs:2541-2696 | Once both halves hold the same chain, the last metrics row has the value and the number of the unspent-output table. |
| `UiDataStore.UiDataStore.ClearAll` | src/adapters/ui_data_store.rs:679-691 | Leaves valid empty tables. |
| `UiDataStore.UiDataStore.OutputsIndexed` | src/adapters/ui_data_store.rs:3107-3115 | Every unspent output of the projected chain is in the output index with its value. |
| `UiDataStore.ProjectionsCoincide` | src/adapters/ui_data_store.rs:3063-3123 | Two databases holding the same chain have equal wallet rows, v2 rows, leaderboards, UTXO rows and tip, whatever runs of projections each went through. |
| `Bits.ShrAndLow` | wallet/wallet-core.js:238-252 | Shift and mask are quotient and remainder by a power of two. |
| `Bits.ShlIsProduct` | wallet/wallet-core.js:238-252 | Left shift is multiplication by a power of two. |
| `Regroup.ConvertBits` | wallet/wallet-core.js:238-252 | The masked bit accumulator computes exactly the regrouping of the bit list, for any two widths, padding and both error cases included. |
| `Regroup.RegroupRoundTrip` | wallet/wallet-core.js:238-252 | Wide to narrow with padding and back without gives the numbers back, for lists of any length. |
| `Regroup.RegroupCanonical` | wallet/wallet-core.js:250-251 | Whatever the unpadded direction accepts is exactly what the padded direction produces. |
| `Polymod.Polymod` | wallet/wallet-core.js:222-232 | The two nested loops compute the checksum run. |
| `Polymod.RunXor` | wallet/wallet-core.js:222-232 | The checksum is linear under exclusive or. |
| `Polymod.FeedbackKernel` | wallet/wallet-core.js:223 | The low five bits of the generators are linearly independent. |
| `Polymod.StepInjective` | wallet/wallet-core.js:226-229 | Each step is injective on 30-bit states. |
| `Polymod.StepBound` | wallet/wallet-core.js:226-230 | States stay within 30 bits. |
| `Polymod.ErrorsDetected` | wallet/wallet-core.js:222-232 | Sequences that differ only within six consecutive symbols reach different states. |
| `Polymod.ChecksumValid` | wallet/wallet-core.js:257-259 | Appending the computed six symbols makes the sequence valid. |
| `Polymod.ChecksumUnique` | wallet/wallet-core.js:279 | No other six symbols do. |
| `Bech32m.ExpandHrpExact` | wallet/wallet-core.js:234-236 | High parts of all characters, a zero, then low parts, which together are the characters. |
| `Bech32m.AddressRoundTrip` | wallet/wallet-core.js:254-286 | Every 32-byte key decodes back from its address, as version 0. |
| `Bech32m.AddressCanonical` | wallet/wallet-core.js:254-286 | Every accepted version-0 address re-encodes to its trimmed lower-case self. |
| `Bech32m.DecodesExactly` | wallet/wallet-core.js:266-286 | A text decodes to a version and a key exactly if the version is 0 or 1, the key has 32 bytes, the letters are of one case and the text is, normalized, the assembly of version and key. |
| `Bech32m.AddressSpellings` | wallet/wallet-core.js:266-268 | Every address may be typed in lower or upper case, with white space around it. |
| `Bech32m.DecodedIsAssembled` | wallet/wallet-core.js:269-281 | Whatever decodes is, normalized, the assembly of its own payload, for every version. |
| `Bech32m.AddressErrorsDetected` | wallet/wallet-core.js:279 | Two accepted addresses of equal length that differ only within six consecutive characters of the data part are the same address. |
| `Bech32m.NetworkHrp` | wallet/wallet-core.js:255 | The test prefix is used exactly for network ids that contain one of the two marks; both prefixes are ones the round trip covers. |
| `Mnemonic.PhraseRoundTrip` | wallet/mnemonic.js:6-14 | For every 32-byte entropy the 24 words spell exactly its bits and checksum, and validation recovers it. |
| `Mnemonic.PhraseCanonical` | wallet/mnemonic.js:45-57 | Every phrase that validates is the phrase of the entropy it spells. |
| `Mnemonic.RollNumber` | wallet/mnemonic.js:32 | The fold reads the rolls as a base-six number. |
| `Mnemonic.RollsAreDigits` | wallet/mnemonic.js:32 | The first roll is the most significant base-six digit and a one counts zero. |
| `Mnemonic.RollsOfValue` | wallet/mnemonic.js:32 | Roll sequences of one length and numbers below 6^n correspond one to one. |
| `Mnemonic.FillGroups` | wallet/mnemonic.js:36-41 | The loop writes the number's big-endian bytes in place, for any group width. |
| `Mnemonic.GenerateEntropyFromDice` | wallet/mnemonic.js:21-43 | The conversion computes the specified entropy, with its three refusals. |
| `Mnemonic.DiceUnbiased` | wallet/mnemonic.js:27-35 | For any number of rolls and bytes, every entropy has exactly floor(6^n / 2^(8 bytes)) accepted roll sequences, given as an explicit set. |
| `GeoDatabase.Parse` | src/ip_geolocation.rs:52-84 | Accepts exactly the byte strings whose header counts describe all of their data at 32-bit offsets; the groups then tile the data region. |
| `GeoDatabase.PlaceGroups` | src/ip_geolocation.rs:111-128 | One family's groups are placed one after the other, or refused if one does not fit. |
| `GeoDatabase.ParseWritten` | scripts/update_geoip.py:44-62 | What the writer emits parses whenever it fits 32-bit offsets, with exactly the counts written. |
| `GeoDatabase.RecordWritten` | scripts/update_geoip.py:58-62 | Record m of group k lies at the group's offset plus m records. |
| `GeoLookup.CollectGroups` | scripts/update_geoip.py:45-50 | Grouping succeeds exactly if no prefix has two countries, and then lists exactly the records. |
| `GeoLookup.WriteDatabase` | scripts/update_geoip.py:44-62 | The bytes written are the layout of the sorted groups of exactly these records. |
| `GeoLookup.BinarySearchGroup` | src/ip_geolocation.rs:130-165 | Finds the entry of an address in its group exactly if there is one. |
| `GeoLookup.ContainsIsRange` | src/ip_geolocation.rs:86-109 | A prefix contains exactly the addresses of its range: from the network address on, a multiple of the range's size, as many as the remaining bits can tell apart. |
| `GeoLookup.Lookup` | src/ip_geolocation.rs:86-109 | Returns the match of the longest listed prefix length, or nothing if no length matches. |
| `GeoLookup.LookupWritten` | src/ip_geolocation.rs:86-109 | Writing records, parsing the bytes and looking an address up gives the country of the longest prefix that contains it, or none; it fails exactly on a conflict or a database too large for its offsets. |
| `FeeConvergence.ConvergeFeeByByte` | src/app/helpers.rs:17-83 | Whatever is returned pays at least max(1, rate x its own size); when, up to some fee that pays for its own build, every fee builds and size is monotone with at most 63 values, the least of all exact fees is returned. |
| `FeeConvergence.ExactMeans` | src/app/helpers.rs:17-83 | An exact fee is what its own build demands: the rate times its size, at least one, within 64 bits. |
| `CoinSelection.CompactLength` | wallet/wallet-core.js:331-336 | The loop counts exactly the seven-bit groups of the number. |
| `CoinSelection.SortIsSorted` | wallet/wallet-core.js:349 | Selection considers a permutation of all outputs, largest first. |
| `CoinSelection.SortIsStable` | wallet/wallet-core.js:349 | Outputs of equal amount keep their order. |
| `CoinSelection.SettleFee` | wallet/wallet-core.js:356-363 | The pass loop computes the fee iteration and whether it stopped by equality. |
| `CoinSelection.EstimateExceedsNode` | wallet/wallet-core.js:338-346 | For inputs with hex ids of 32 or 64 bytes the wallet's estimate is the node's encoded size plus two bytes per input, one per output and one more. |
| `CoinSelection.ExactPaysNode` | src/domain/validation.rs:53-69 | So a fee reached by equality at a positive rate pays at least the rate times the node's size. |
| `CoinSelection.SettlesAtFirst` | wallet/wallet-core.js:356-363 | The passes stop at the first fee that reproduces itself. |
| `CoinSelection.SelectInputs` | wallet/wallet-core.js:348-367 | The shortest prefix of the sorted outputs that covers amount plus its own fee, each spent by its owner, or an error exactly if none does; a fee reached by equality is exactly rate x the estimated size of the transfer built, and enough for the node. |
| `CoinSelection.TransferBalances` | wallet/wallet-core.js:375-378 | The recipient is paid the amount first, what is left goes back to the owner if it is positive, and outputs and fee add up to the inputs. |
| `Consolidation.ConsolidationInputs` | src/app/consolidation.rs:190-235 | Passes exactly 2 to 128 distinct spendable outputs of one kind and, unless merging, one root, whose total fits 64 bits; returns that total. |
| `Consolidation.PreviewConsolidation` | src/app/consolidation.rs:237-264 | Accepts exactly the outputs that can be consolidated and quoted within the 1% cap, with exactly that batch. |
| `Consolidation.PreviewAccepts` | src/app/consolidation.rs:237-264 | Exactly the outputs that can be consolidated, whose total fits 64 bits and whose quoted fee is at most a hundredth of it are accepted. |
| `Consolidation.HybridAccepted` | src/app/consolidation.rs:412-431 | Hybrid outputs are accepted exactly when some fee of at most a hundredth pays for their transfer. |
| `Consolidation.PreviewHolds` | src/app/consolidation.rs:344-369 | A previewed batch conserves value, pays at most 1% in fees, leaves a positive amount and pays max(1, rate x size); a legacy batch has exactly the size of its transfer. |
| `Consolidation.EstimateLegacyFee` | src/app/consolidation.rs:371-410 | The estimate loop computes the quote of the recursive fee search, and fails exactly where that has none. |
| `Consolidation.EstimateHybridFee` | src/app/consolidation.rs:412-431 | One size estimate gives the quote, or a failure exactly if the amount does not cover the fee or the size has no fee. |
| `Consolidation.LegacySizeIsNodeSize` | src/domain/validation.rs:124-168 | The size a consolidation is quoted for is the node's size of a transfer with one output. |
| `Consolidation.HybridQuoteIsLeast` | src/app/consolidation.rs:412-431 | The hybrid quote is the least fee that pays for its transfer. |
| `Consolidation.LegacyQuoteCovers` | src/app/consolidation.rs:371-410 | A fee the estimate loop ends with covers the size of the very transfer it pays for, leaves something to pay out and fits a block. |
| `Consolidation.LegacyClimbs` | src/app/consolidation.rs:371-410 | Where sizes are tame the estimate is the least of all exact fees. |
| `Consolidation.BuildLegacyConsolidation` | src/app/consolidation.rs:266-307 | Building pays for its own size; where sizes are tame it pays exactly what the preview quoted. |
| `Consolidation.ConsolidationIsTame` | src/app/consolidation.rs:266-307 | A consolidation is tame up to any fee it can pay at which the amount keeps its number of bytes. |
| `Consolidation.CapCheckIs` | src/app/consolidation.rs:452-462 | The quick check asks whether a hundredth of the value pays for the minimum size. |
| `Consolidation.FeeCapCheckIsSound` | src/app/consolidation.rs:452-462 | The quick fee check turns away no outputs whose legacy batch would be accepted, and no hybrid ones if their transfer has at least the minimum size. |
| `Consolidation.MinimumIsBelow` | src/domain/validation.rs:110-122 | The minimum transfer size bounds the size of every transfer with as many inputs. |
| `Consolidation.MinimumIsAttained` | src/domain/validation.rs:110-122 | Short ids and small numbers attain it. |
| `ConsolidationPlanner.ReserveLargest` | src/app/consolidation.rs:74-83 | Removing the last candidate of a kind removes a largest one. |
| `ConsolidationPlanner.GroupCandidates` | src/app/consolidation.rs:84-96 | Every candidate lands in the one group of its kind and root, each group in the order of the candidates. |
| `ConsolidationPlanner.SameGroup` | src/app/consolidation.rs:84-96 | Candidates share a group exactly if they are of one kind and, unless roots are merged, one root. |
| `ConsolidationPlanner.TriedIsHalving` | src/app/consolidation.rs:107-132 | The numbers of outputs tried are those of at least two that the first gives when divided by a power of two. |
| `ConsolidationPlanner.TryBatch` | src/app/consolidation.rs:107-132 | Ends with the largest halving that is accepted, and passes over one output exactly if every halving is refused. |
| `ConsolidationPlanner.BarrenMeans` | src/app/consolidation.rs:107-132 | An output is passed over exactly if at most 128 outputs from it on, and every halving of their number, are refused. |
| `ConsolidationPlanner.PlanGroup` | src/app/consolidation.rs:104-146 | A group is cut until 32 batches are planned or every output is spent or passed over for good reason. |
| `ConsolidationPlanner.CountCannotUnderflow` | src/app/consolidation.rs:135 | The outputs saved never exceed the outputs there are. |
| `ConsolidationPlanner.ConsolidationPlan` | src/app/consolidation.rs:59-148 | Ends with at most 32 pairwise disjoint batches that hold, before minus after equal to the sum of (size - 1), fees summed, and a largest spendable output of each kind unspent; with fewer than 32, every other spendable output is spent or stands where every halving is refused. |
| `Discovery.NextRecoveryScanCounts` | wallet/wallet-core.js:84-111 | Unresolved recovery addresses widen each scan to the least count that adds a gap, at least one address, and doubles it, or to the cap; nothing else changes a count. |
| `Discovery.HighestUsed` | wallet/app.js:267-269 | One past the highest used index of a branch. |
| `Discovery.Widen` | wallet/app.js:253-276 | Otherwise each branch is scanned to the least count that leaves a full gap after its last used address, or to the cap; unchanged counts mean every recovery address is derived and each branch ends in a full unused gap or is at the cap. |
| `Discovery.WalletScanner.Discover` | wallet/app.js:225-284 | For any gap limit and any server replies the loop ends; on success every recovery address is derived, both branches have a full gap or are at the cap, and the next receiving address follows the last used one; it fails only at the cap. |
| `Stratum.LineReader.ReadLine` | src/adapters/stratum.rs:224-256 | The next frame is a function of the bytes not yet returned, not of the chunks they arrive in. |
| `Stratum.ReadAll` | src/adapters/stratum.rs:195-210 | All lines up to the first error or end, and which it is. |
| `Stratum.ChunkingDoesNotMatter` | src/adapters/stratum.rs:216-257 | Two chunkings of one byte stream give the same lines and the same end. |
| `Stratum.FramesOfWritten` | src/adapters/stratum.rs:216-257 | Lines written out with newlines come back with one trailing return removed, and what follows is framed on its own. |
| `Stratum.LinesComeBack` | src/adapters/stratum.rs:238-246 | The same lines come back whether they end in a newline alone or in a return and a newline. |
| `Stratum.LongLineStops` | src/adapters/stratum.rs:234-251 | A line over the limit stops the session, whether or not its newline arrives. |

## Left out

- SQLite, connections, pragmas and archive file moves: a transaction is one atomic update of in-memory tables.
- The compact block codec, SHA-256, signatures and VDF: blocks and envelopes are values, hashes a free constructor, proofs a predicate of the loader's rules.
- The monolithic snapshot row and the pending-transaction journal of the chain database.
- Fork choice: whether a validated fork replaces the live chain is the caller's decision in `NodeSystem`.
- NodeSystem.NodeSystem.LoadForkBase: looking the ancestor up and loading it are one step; a save between the two is not modelled.
- NodeSystem.NodeSystem.RestoreHistory: a database of genesis alone is excluded here; `RestoreCompleteChainHistory` says what happens then.
- A reset of the store: `NodeProtocol` has no clear step.
- NodeProtocol.ImportKeepsInv: the source also compares the live tip before the load and at the import; the model imports without that check, so it covers more runs than the source has.
- Consensus rules beyond what applying a transaction does to the unspent outputs.
- 64-bit overflow of sums in the metrics rows and leaderboards: numbers there are unbounded, and the overflow errors of those sums do not occur. The subtractions are checked.
- Burn-leader ranks and block storage sizes in the UI database, and the mining-difficulty, VDF and hybrid-exposure columns of the metrics rows.
- NodeLifecycle.NodeCore.RestoreCompleteChainHistory: whether a block replays is a parameter; restoring from a ledger that is itself pruned is not modelled.
- UiRows.RowsTagged: reward rows carry a structured id in place of the text built from the outpoint, and sort keys stop at the 64-bit maximum as in the source.
- ConsolidationPlanner.ConsolidationPlan: ties between equal amounts are broken in any order where the source orders by outpoint, and groups are visited in any order; no stated property depends on either.
- Consolidation.PreviewConsolidation: the encoded size of hybrid transfers and the block budget are parameters.
- Consolidation.BuildLegacyConsolidation: signing and the other checks on a new transaction are not modelled; the order of inputs does not change the size.
- Bech32m.AddressCanonical: case mapping covers ASCII letters and trimming covers space, tab, newline and return; other Unicode cases and white space are not modelled.
- Mnemonic.GenerateEntropyFromDice: takes the rolls as numbers; stripping separators from the typed text, and splitting and joining words at spaces, are not modelled.
- GeoLookup.WriteDatabase: packed addresses of one length are sorted as numbers, which is their byte order; reading and checking the CSV files is not modelled.
- The tests for private, reserved and IPv4-mapped addresses in front of the lookup are not modelled.
- CoinSelection.SelectInputs: the sort is a stable insertion sort in place of the library's; signing and the JSON body limit are not modelled.
- Stratum.LineReader.ReadLine: cancellation by the idle timeout is not modelled.
- P2P networking, HTTP handlers, mining and finalizing loops, configuration, encryption and rendering.
