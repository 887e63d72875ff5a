/** What the metrics rows mean: every column as a sum or count over the chain's blocks and transactions,
    and which addresses are known at a height. */
module MetricsColumns {
  import opened Results
  import opened Maps
  import opened Transactions
  import opened Chain
  import opened Metrics
  import opened MetricsStore
  import opened Utxo

  // ----- what one transaction counts for

  ghost function One(b: bool): nat { if b then 1 else 0 }

  ghost function Burned(tx: Transaction): nat { if tx.Burn? then tx.amount else 0 }

  ghost function BurnedV2(tx: TransactionV2): nat { if tx.BurnV2? then tx.amount else 0 }

  ghost function Fee(tx: Transaction): nat { if tx.Mine? then MINE_FINALIZER_FEE else tx.fee }

  ghost function FeeV2(tx: TransactionV2): nat { if tx.MineV2? then 0 else tx.fee }

  ghost function IsTransfer(tx: Transaction): nat { One(tx.Transfer?) }
  ghost function IsBurn(tx: Transaction): nat { One(tx.Burn?) }
  ghost function IsMine(tx: Transaction): nat { One(tx.Mine?) }

  /** Migrations count as transfers. */
  ghost function IsTransferV2(tx: TransactionV2): nat { One(tx.TransferV2? || tx.MigrationV2?) }
  ghost function IsBurnV2(tx: TransactionV2): nat { One(tx.BurnV2?) }
  ghost function IsMineV2(tx: TransactionV2): nat { One(tx.MineV2?) }

  /** Both formats of a block. */
  ghost function InBlock(body: Body, weight: Transaction -> nat, weightV2: TransactionV2 -> nat): nat {
    Total(body.transactions, weight) + Total(body.transactionsV2, weightV2)
  }

  ghost function BurnedIn(block: Block): nat { InBlock(block.body, Burned, BurnedV2) }

  // ----- the columns of one row

  lemma {:induction false} LegacyColumns(t: Tally, txs: seq<Transaction>)
    requires CountTxs(t, txs).Ok?
    ensures var r := CountTxs(t, txs).value;
            && r.burned == t.burned + Total(txs, Burned) && r.fees == t.fees + Total(txs, Fee)
            && r.transfers == t.transfers + Total(txs, IsTransfer) && r.burns == t.burns + Total(txs, IsBurn)
            && r.mines == t.mines + Total(txs, IsMine)
  {
    if txs != [] {
      LegacyColumns(t, txs[..|txs| - 1]);
    }
  }

  lemma {:induction false} EnvelopeColumns(t: Tally, txs: seq<TransactionV2>)
    requires CountTxsV2(t, txs).Ok?
    ensures var r := CountTxsV2(t, txs).value;
            && r.burned == t.burned + Total(txs, BurnedV2) && r.fees == t.fees + Total(txs, FeeV2)
            && r.transfers == t.transfers + Total(txs, IsTransferV2) && r.burns == t.burns + Total(txs, IsBurnV2)
            && r.mines == t.mines + Total(txs, IsMineV2)
  {
    if txs != [] {
      EnvelopeColumns(t, txs[..|txs| - 1]);
    }
  }

  /** The row's own columns are those of its block: copied fields, sums of burns and fees, numbers by kind. */
  ghost predicate OwnColumns(row: Metric, block: Block) {
    && row.height == block.height && row.hash == block.hash && row.timestamp == block.body.timestamp
    && row.reward == block.body.reward
    && row.transactionCount == |block.body.transactions| + |block.body.transactionsV2|
    && row.tally.burned == InBlock(block.body, Burned, BurnedV2)
    && row.tally.fees == InBlock(block.body, Fee, FeeV2)
    && row.tally.transfers == InBlock(block.body, IsTransfer, IsTransferV2)
    && row.tally.burns == InBlock(block.body, IsBurn, IsBurnV2)
    && row.tally.mines == InBlock(block.body, IsMine, IsMineV2)
  }

  /** The columns that look back: time since the block before, and all burns so far. */
  ghost predicate ChainColumns(row: Metric, chain: seq<Block>, h: nat)
    requires h < |chain|
  {
    && row.totalBurned == Total(chain[..h + 1], BurnedIn)
    && row.blockTime == (if h == 0 then None
                         else Some(SaturatingSub(chain[h].body.timestamp, chain[h - 1].body.timestamp)))
  }

  lemma {:induction false} EveryLegacyKind(txs: seq<Transaction>)
    ensures Total(txs, IsTransfer) + Total(txs, IsBurn) + Total(txs, IsMine) == |txs|
  {
    if txs != [] {
      EveryLegacyKind(txs[..|txs| - 1]);
    }
  }

  lemma {:induction false} EveryEnvelopeKind(txs: seq<TransactionV2>)
    ensures Total(txs, IsTransferV2) + Total(txs, IsBurnV2) + Total(txs, IsMineV2) == |txs|
  {
    if txs != [] {
      EveryEnvelopeKind(txs[..|txs| - 1]);
    }
  }

  /** Every transaction is counted under exactly one kind. */
  lemma KindsAddUp(row: Metric, block: Block)
    requires OwnColumns(row, block)
    ensures row.tally.transfers + row.tally.burns + row.tally.mines == row.transactionCount
  {
    EveryLegacyKind(block.body.transactions);
    EveryEnvelopeKind(block.body.transactionsV2);
  }

  lemma NextMetricColumns(allocations: seq<Allocation>, block: Block, previous: Option<Metric>, known: nat)
    requires NextMetric(allocations, block, previous, known).Ok?
    ensures var row := NextMetric(allocations, block, previous, known).value;
            && OwnColumns(row, block) && row.knownAddresses == known
            && row.totalBurned == (if previous.Some? then previous.value.totalBurned else 0) + BurnedIn(block)
            && row.blockTime == if previous.Some?
                                then Some(SaturatingSub(block.body.timestamp, previous.value.timestamp)) else None
  {
    var start := match previous
                 case Some(p) => Tally(p.tally.supply, p.tally.utxoCount, 0, 0, 0, 0, 0)
                 case None => Tally(GenesisSupply(allocations), GenesisCount(allocations), 0, 0, 0, 0, 0);
    LegacyColumns(start, block.body.transactions);
    EnvelopeColumns(CountTxs(start, block.body.transactions).value, block.body.transactionsV2);
  }

  // ----- over a chain

  lemma {:induction false} RowColumns(allocations: seq<Allocation>, chain: seq<Block>, counts: seq<nat>, h: nat)
    requires h < |chain| == |counts| && RowsWith(ProjectionOf(allocations), chain, counts, h + 1)[h].Ok?
    ensures var row := RowsWith(ProjectionOf(allocations), chain, counts, h + 1)[h].value;
            OwnColumns(row, chain[h]) && ChainColumns(row, chain, h) && row.knownAddresses == counts[h]
  {
    var p := ProjectionOf(allocations);
    var before := RowsWith(p, chain, counts, h);
    assert chain[..h + 1][..h] == chain[..h];
    if h == 0 {
      NextMetricColumns(allocations, chain[0], None, counts[0]);
      assert RowsWith(p, chain, counts, 1)[0] == NextMetric(allocations, chain[0], None, counts[0]);
    } else {
      RowColumns(allocations, chain, counts, h - 1);
      var previous := Some(before[h - 1].value);
      NextMetricColumns(allocations, chain[h], previous, counts[h]);
      assert RowsWith(p, chain, counts, h + 1)[h] == NextMetric(allocations, chain[h], previous, counts[h]);
    }
  }

  // ----- supply and output count

  /** What a legacy transaction takes out of circulation, and what it mints. */
  ghost function Leaving(tx: Transaction): nat {
    if tx.Transfer? then tx.fee else if tx.Burn? then tx.amount + tx.fee else 0
  }

  ghost function Minted(tx: Transaction): nat { if tx.Mine? then 1_000_000 else 0 }

  /** Mining envelopes neither mint nor pay a fee. */
  ghost function LeavingV2(tx: TransactionV2): nat {
    if tx.BurnV2? then tx.amount + tx.fee else if tx.MineV2? then 0 else tx.fee
  }

  ghost function Spends(tx: Transaction): nat { if tx.Mine? then 0 else |tx.inputs| }

  ghost function SpendsV2(tx: TransactionV2): nat { if tx.MineV2? then 0 else |tx.inputs| }

  ghost function Creates(tx: Transaction): nat {
    if tx.Transfer? then |tx.outputs| else if tx.Burn? then |tx.change| else 1
  }

  ghost function CreatesV2(tx: TransactionV2): nat {
    if tx.BurnV2? then |tx.change| else if tx.MineV2? then 0 else |tx.outputs|
  }

  ghost function LeavesIn(block: Block): nat { InBlock(block.body, Leaving, LeavingV2) }

  ghost function EntersIn(block: Block): nat { Total(block.body.transactions, Minted) + block.body.reward }

  ghost function SpentIn(block: Block): nat { InBlock(block.body, Spends, SpendsV2) }

  ghost function CreatedIn(block: Block): nat {
    InBlock(block.body, Creates, CreatesV2) + |RewardOutputs(block.body)|
  }

  lemma {:induction false} LegacySupply(t: Tally, txs: seq<Transaction>)
    requires CountTxs(t, txs).Ok?
    ensures var r := CountTxs(t, txs).value;
            && r.supply + Total(txs, Leaving) == t.supply + Total(txs, Minted)
            && r.utxoCount + Total(txs, Spends) == t.utxoCount + Total(txs, Creates)
  {
    if txs != [] {
      LegacySupply(t, txs[..|txs| - 1]);
    }
  }

  lemma {:induction false} EnvelopeSupply(t: Tally, txs: seq<TransactionV2>)
    requires CountTxsV2(t, txs).Ok?
    ensures var r := CountTxsV2(t, txs).value;
            && r.supply + Total(txs, LeavingV2) == t.supply
            && r.utxoCount + Total(txs, SpendsV2) == t.utxoCount + Total(txs, CreatesV2)
  {
    if txs != [] {
      EnvelopeSupply(t, txs[..|txs| - 1]);
    }
  }

  lemma NextMetricSupply(allocations: seq<Allocation>, block: Block, previous: Option<Metric>, known: nat)
    requires NextMetric(allocations, block, previous, known).Ok?
    ensures var row := NextMetric(allocations, block, previous, known).value.tally;
            var supply := if previous.Some? then previous.value.tally.supply else GenesisSupply(allocations);
            var count := if previous.Some? then previous.value.tally.utxoCount else GenesisCount(allocations);
            && row.supply + LeavesIn(block) == supply + EntersIn(block)
            && row.utxoCount + SpentIn(block) == count + CreatedIn(block)
  {
    var start := match previous
                 case Some(p) => Tally(p.tally.supply, p.tally.utxoCount, 0, 0, 0, 0, 0)
                 case None => Tally(GenesisSupply(allocations), GenesisCount(allocations), 0, 0, 0, 0, 0);
    LegacySupply(start, block.body.transactions);
    EnvelopeSupply(CountTxs(start, block.body.transactions).value, block.body.transactionsV2);
  }

  /** Supply and output count at a height: the genesis ones, plus everything that came in, less everything
      that went out, whether or not the ledger would apply the blocks. */
  ghost predicate SupplyColumns(row: Metric, allocations: seq<Allocation>, chain: seq<Block>, h: nat)
    requires h < |chain|
  {
    && row.tally.supply + Total(chain[..h + 1], LeavesIn) ==
       GenesisSupply(allocations) + Total(chain[..h + 1], EntersIn)
    && row.tally.utxoCount + Total(chain[..h + 1], SpentIn) ==
       GenesisCount(allocations) + Total(chain[..h + 1], CreatedIn)
  }

  lemma {:induction false} RowSupply(allocations: seq<Allocation>, chain: seq<Block>, counts: seq<nat>, h: nat)
    requires h < |chain| == |counts| && RowsWith(ProjectionOf(allocations), chain, counts, h + 1)[h].Ok?
    ensures SupplyColumns(RowsWith(ProjectionOf(allocations), chain, counts, h + 1)[h].value, allocations, chain, h)
  {
    var p := ProjectionOf(allocations);
    var before := RowsWith(p, chain, counts, h);
    assert chain[..h + 1][..h] == chain[..h];
    if h == 0 {
      NextMetricSupply(allocations, chain[0], None, counts[0]);
      assert RowsWith(p, chain, counts, 1)[0] == NextMetric(allocations, chain[0], None, counts[0]);
    } else {
      RowSupply(allocations, chain, counts, h - 1);
      var previous := Some(before[h - 1].value);
      NextMetricSupply(allocations, chain[h], previous, counts[h]);
      assert RowsWith(p, chain, counts, h + 1)[h] == NextMetric(allocations, chain[h], previous, counts[h]);
    }
  }

  // ----- addresses

  /** The address appears in a legacy transaction. */
  ghost predicate TxShows(tx: Transaction, a: string) {
    match tx
    case Transfer(inputs, outputs, _, _) =>
      || (exists i :: 0 <= i < |inputs| && inputs[i].owner == a)
      || (exists i :: 0 <= i < |outputs| && outputs[i].address == a)
    case Burn(inputs, change, _, _, _) =>
      || (exists i :: 0 <= i < |inputs| && inputs[i].owner == a)
      || (exists i :: 0 <= i < |change| && change[i].address == a)
    case Mine(recipient, _) => a == recipient
  }

  /** The address finalized the block, attested in it, or appears in one of its legacy transactions. */
  ghost predicate BlockShows(body: Body, a: string) {
    || a == body.miner
    || (exists i :: 0 <= i < |body.attestations| && body.attestations[i].member == a)
    || (exists i :: 0 <= i < |body.transactions| && TxShows(body.transactions[i], a))
  }

  lemma AddressesShown(body: Body, a: string)
    ensures a in BlockAddresses(body) <==> BlockShows(body, a)
  {
    forall i | 0 <= i < |body.transactions|
      ensures a in TransactionAddresses(body.transactions[i]) <==> TxShows(body.transactions[i], a)
    {
    }
  }

  ghost predicate InGenesis(allocations: seq<Allocation>, a: string) {
    exists i :: 0 <= i < |allocations| && allocations[i].address == a
  }

  /** First shown by block `h`, and by no block before. */
  ghost predicate FirstShown(chain: seq<Block>, a: string, h: nat) {
    h < |chain| && BlockShows(chain[h].body, a) && forall k :: 0 <= k < h ==> !BlockShows(chain[k].body, a)
  }

  ghost predicate ShownBelow(chain: seq<Block>, end: nat, a: string)
    requires end <= |chain|
  {
    exists h :: 0 <= h < end && BlockShows(chain[h].body, a)
  }

  lemma ShownOneMore(chain: seq<Block>, end: nat, a: string)
    requires end < |chain|
    ensures ShownBelow(chain, end + 1, a) <==> ShownBelow(chain, end, a) || BlockShows(chain[end].body, a)
    ensures BlockShows(chain[end].body, a) && !ShownBelow(chain, end, a) ==> FirstShown(chain, a, end)
  {
  }

  /** Known are exactly the genesis addresses, at height zero, and those a block has shown, at the height
      of the first that did. */
  ghost predicate KnownIs(known: FirstSeen, allocations: seq<Allocation>, chain: seq<Block>, end: nat, a: string)
    requires end <= |chain|
  {
    && (a in known <==> InGenesis(allocations, a) || ShownBelow(chain, end, a))
    && (a in known && InGenesis(allocations, a) ==> known[a] == 0)
    && (a in known && !InGenesis(allocations, a) ==> known[a] < end && FirstShown(chain, a, known[a]))
  }

  /** The first-seen table after the first `end` blocks. */
  ghost function SeenBy(allocations: seq<Allocation>, chain: seq<Block>, end: nat): FirstSeen
    requires end <= |chain|
  {
    Known(ProjectionOf(allocations), chain, end)
  }

  lemma SeenStep(allocations: seq<Allocation>, chain: seq<Block>, end: nat, before: FirstSeen, after: FirstSeen)
    requires Linked(chain) && end < |chain|
    requires before == SeenBy(allocations, chain, end) && after == SeenBy(allocations, chain, end + 1)
    ensures after == Note(before, BlockAddresses(chain[end].body), end)
  {
    var p := ProjectionOf(allocations);
    assert LinkedAt(chain, end);
    assert NotesAt(p, before, chain[end]);
    assert p.addresses(chain[end]) == BlockAddresses(chain[end].body);
  }

  lemma SeenAtGenesis(allocations: seq<Allocation>, chain: seq<Block>)
    ensures SeenBy(allocations, chain, 0) == GenesisKnown(allocations)
  {
  }

  lemma KnownAtGenesis(allocations: seq<Allocation>, chain: seq<Block>, a: string)
    ensures KnownIs(GenesisKnown(allocations), allocations, chain, 0, a)
  {
  }

  lemma KnownOneMore(before: FirstSeen, after: FirstSeen, allocations: seq<Allocation>, chain: seq<Block>, end: nat,
                     a: string)
    requires end < |chain| && KnownIs(before, allocations, chain, end, a)
    requires after == Note(before, BlockAddresses(chain[end].body), end)
    ensures KnownIs(after, allocations, chain, end + 1, a)
  {
    AddressesShown(chain[end].body, a);
    ShownOneMore(chain, end, a);
  }

  /** First-seen tables, each the one before with the addresses of the next block noted. */
  ghost predicate Noted(seen: seq<FirstSeen>, allocations: seq<Allocation>, chain: seq<Block>) {
    && |seen| == |chain| + 1 && seen[0] == GenesisKnown(allocations)
    && forall k :: 0 <= k < |chain| ==> NotedAt(seen, chain, k)
  }

  ghost predicate NotedAt(seen: seq<FirstSeen>, chain: seq<Block>, k: nat)
    requires k < |chain| < |seen|
  {
    seen[k + 1] == Note(seen[k], BlockAddresses(chain[k].body), k)
  }

  lemma {:induction false} NotedIsKnown(seen: seq<FirstSeen>, allocations: seq<Allocation>, chain: seq<Block>,
                                        end: nat, a: string)
    requires Noted(seen, allocations, chain) && end <= |chain|
    ensures KnownIs(seen[end], allocations, chain, end, a)
    decreases end
  {
    if end == 0 {
      KnownAtGenesis(allocations, chain, a);
    } else {
      var last := end - 1;
      NotedIsKnown(seen, allocations, chain, last, a);
      assert NotedAt(seen, chain, last);
      KnownOneMore(seen[last], seen[end], allocations, chain, last, a);
    }
  }

  lemma TablesSeen(allocations: seq<Allocation>, chain: seq<Block>) returns (seen: seq<FirstSeen>)
    requires Linked(chain)
    ensures Noted(seen, allocations, chain)
    ensures forall k: nat :: k <= |chain| ==> seen[k] == SeenBy(allocations, chain, k)
  {
    seen := seq(|chain| + 1, k requires 0 <= k <= |chain| => SeenBy(allocations, chain, k));
    SeenAtGenesis(allocations, chain);
    forall k: nat | k < |chain|
      ensures NotedAt(seen, chain, k)
    {
      SeenStep(allocations, chain, k, seen[k], seen[k + 1]);
    }
  }

  /** At every height of a chain the first-seen table is what the chain says of each address. */
  lemma KnownExactly(allocations: seq<Allocation>, chain: seq<Block>)
    requires Linked(chain)
    ensures forall end: nat, a :: end <= |chain| ==>
              KnownIs(SeenBy(allocations, chain, end), allocations, chain, end, a)
  {
    var seen := TablesSeen(allocations, chain);
    forall end: nat, a | end <= |chain|
      ensures KnownIs(SeenBy(allocations, chain, end), allocations, chain, end, a)
    {
      NotedIsKnown(seen, allocations, chain, end, a);
    }
  }

  // ----- the tables

  /** The metrics row of height `h` of a projected chain. */
  ghost predicate RowIs(row: Metric, allocations: seq<Allocation>, chain: seq<Block>, h: nat)
    requires h < |chain|
  {
    && OwnColumns(row, chain[h]) && ChainColumns(row, chain, h) && SupplyColumns(row, allocations, chain, h)
    && row.tally.transfers + row.tally.burns + row.tally.mines == row.transactionCount
    && row.knownAddresses == |SeenBy(allocations, chain, h + 1)|
  }

  lemma RowOfPrefix(p: Projection, chain: seq<Block>, counts: seq<nat>, h: nat, row: Metric)
    requires |counts| == |chain| && h < |chain| && RowsWith(p, chain, counts, |chain|)[h] == Ok(row)
    ensures RowsWith(p, chain, counts, h + 1)[h] == Ok(row)
  {
    RowsPrefix(p, chain, counts, h + 1, |chain|);
    assert RowsWith(p, chain, counts, |chain|)[..h + 1][h] == Ok(row);
  }

  lemma CountIsSeen(allocations: seq<Allocation>, chain: seq<Block>, counts: seq<nat>, h: nat)
    requires counts == Counts(ProjectionOf(allocations), chain) && h < |chain|
    ensures counts[h] == |SeenBy(allocations, chain, h + 1)|
  {
    assert CountAt(counts, ProjectionOf(allocations), chain, h);
  }

  lemma TableRow(row: Metric, allocations: seq<Allocation>, chain: seq<Block>, counts: seq<nat>, h: nat)
    requires counts == Counts(ProjectionOf(allocations), chain) && h < |chain|
    requires RowsWith(ProjectionOf(allocations), chain, counts, |chain|)[h] == Ok(row)
    ensures RowIs(row, allocations, chain, h)
  {
    RowOfPrefix(ProjectionOf(allocations), chain, counts, h, row);
    RowColumns(allocations, chain, counts, h);
    RowSupply(allocations, chain, counts, h);
    KindsAddUp(row, chain[h]);
    CountIsSeen(allocations, chain, counts, h);
  }

  /** Every row and every first-seen address of the tables is what the projected chain says. */
  lemma TablesAreColumns(store: MetricsStore, allocations: seq<Allocation>)
    requires store.Valid() && store.p == ProjectionOf(allocations) && store.projected != []
    ensures forall h: nat :: h in store.rows <==> h < |store.projected|
    ensures forall h: nat :: h in store.rows ==> RowIs(store.rows[h], allocations, store.projected, h)
    ensures forall a :: KnownIs(store.known, allocations, store.projected, |store.projected|, a)
  {
    var rows, chain := store.rows, store.projected;
    forall h: nat | h in rows
      ensures RowIs(rows[h], allocations, chain, h)
    {
      TableRow(rows[h], allocations, chain, Counts(store.p, chain), h);
    }
    KnownExactly(allocations, chain);
    assert store.known == SeenBy(allocations, chain, |chain|);
  }
}
