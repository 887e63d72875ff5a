/** The UI database as one value per transaction: appending blocks, rewinding to a fork, and what the
    tables must hold for a projected chain. */
module UiTables {
  import opened Results
  import opened Maps
  import opened Transactions
  import opened Chain
  import opened Utxo
  import opened Metrics
  import opened UiRows
  import opened Leaderboards
  import opened UiOutputs

  const UI_PROJECTED_BLOCKS_RETAINED: nat := 256

  type RecentTable = map<nat, Hash>

  datatype Tables = Tables(wallet: Table, walletV2: Table, boards: Boards, outputs: Utxos, recent: RecentTable)

  /** Which rows a block adds to the two wallet tables, which outputs it and genesis create, and the
      unspent outputs of the ledger of a chain. */
  datatype Source = Source(
    rows: Block -> seq<Row>,
    rowsV2: Block -> seq<Row>,
    created: Creation,
    genesis: Utxos,
    ledger: seq<Block> -> Result<Utxos>)

  /** The source a network's genesis allocations determine. */
  function SourceOf(allocations: seq<Allocation>): (src: Source)
    ensures Tagged(src.rows) && Tagged(src.rowsV2)
  {
    RowsTagged();
    var genesis := PutAll(map[], GenesisCreated(allocations));
    Source(WalletRows, WalletRowsV2, CreatedBy, genesis, (chain: seq<Block>) => Replay(genesis, chain, |chain|))
  }

  // ----- the projected-block table

  /** The table lists exactly the blocks from `oldest` to the tip, at most 256 of them. */
  ghost predicate RecentFrom(recent: RecentTable, chain: seq<Block>, oldest: nat) {
    && (forall h: nat :: h in recent <==> oldest <= h < |chain|)
    && (forall h: nat :: h in recent ==> recent[h] == chain[h].hash)
    && (if chain == [] then oldest == 0 else oldest < |chain| <= oldest + UI_PROJECTED_BLOCKS_RETAINED)
  }

  lemma RecentIsBounded(recent: RecentTable, chain: seq<Block>, oldest: nat)
    requires RecentFrom(recent, chain, oldest)
    ensures |recent| <= UI_PROJECTED_BLOCKS_RETAINED
  {
    assert |recent| == |recent.Keys|;
    SizeWithin(recent.Keys, oldest, |chain|);
  }

  function Oldest(newest: nat): nat { SaturatingSub(newest, UI_PROJECTED_BLOCKS_RETAINED - 1) }

  /** What lay from height `first` on is forgotten only behind the newest 256 of `length` blocks. */
  predicate Keeps(oldest: nat, first: nat, length: nat) { oldest <= Max(first, SaturatingSub(length, 256)) }

  /** Record appended blocks, then trim to the newest 256. */
  method RecordBlocks(recent: RecentTable, blocks: seq<Block>, ghost chain: seq<Block>, ghost oldest: nat)
    returns (r: RecentTable, ghost oldest': nat)
    requires RecentFrom(recent, chain, oldest) && Linked(chain + blocks)
    ensures RecentFrom(r, chain + blocks, oldest') && Keeps(oldest', oldest, |chain + blocks|)
  {
    if blocks == [] {
      assert chain + blocks == chain;
      return recent, oldest;
    }
    assert LinkedAt(chain + blocks, |chain + blocks| - 1);
    var newest := blocks[|blocks| - 1].height;
    var kept := InsertRecent(recent, blocks, Oldest(newest), chain, oldest);
    r := map h: nat | h in kept && Oldest(newest) <= h <= newest :: kept[h];
    oldest' := Max(oldest, Oldest(newest));
  }

  method InsertRecent(recent: RecentTable, blocks: seq<Block>, from: nat, ghost chain: seq<Block>, ghost oldest: nat)
    returns (r: RecentTable)
    requires RecentFrom(recent, chain, oldest) && Linked(chain + blocks)
    ensures forall h: nat :: h in r <==> oldest <= h < |chain| || (from <= h && |chain| <= h < |chain| + |blocks|)
    ensures forall h: nat :: h in r ==> r[h] == (chain + blocks)[h].hash
  {
    r := recent;
    for k := 0 to |blocks|
      invariant forall h: nat :: h in r <==> oldest <= h < |chain| || (from <= h && |chain| <= h < |chain| + k)
      invariant forall h: nat :: h in r ==> r[h] == (chain + blocks)[h].hash
    {
      assert LinkedAt(chain + blocks, |chain| + k);
      if from <= blocks[k].height {
        r := r[blocks[k].height := blocks[k].hash];
      }
    }
  }

  method ForgetRecent(recent: RecentTable, fork: nat, ghost chain: seq<Block>, ghost oldest: nat)
    returns (r: RecentTable)
    requires RecentFrom(recent, chain, oldest) && oldest <= fork < |chain|
    ensures RecentFrom(r, chain[..fork + 1], oldest)
  {
    r := map h: nat | h in recent && h <= fork :: recent[h];
  }

  // ----- all tables

  /** Both wallet tables project from scratch without a key conflict. */
  ghost predicate Projectable(chain: seq<Block>, src: Source) {
    Scratch(src.rows, chain).Ok? && Scratch(src.rowsV2, chain).Ok?
  }

  ghost predicate OutputsHold(outputs: Utxos, chain: seq<Block>, src: Source, named: Naming) {
    && Inside(outputs, outputs.Keys, named)
    && BlocksInside(chain, src.created, outputs.Keys, named)
    && (chain != [] ==> Inside(src.genesis, outputs.Keys, named))
  }

  /** If every outpoint of the chain names one output, the index holds them all. */
  ghost predicate OutputsRight(outputs: Utxos, chain: seq<Block>, src: Source, named: Naming) {
    BlocksNamed(chain, src.created, named) ==> OutputsHold(outputs, chain, src, named)
  }

  /** Everything but the leaderboards is that of `chain`. */
  ghost predicate RowsHold(t: Tables, chain: seq<Block>, src: Source, named: Naming, oldest: nat) {
    && Scratch(src.rows, chain) == Ok(t.wallet)
    && Scratch(src.rowsV2, chain) == Ok(t.walletV2)
    && OutputsRight(t.outputs, chain, src, named)
    && RecentFrom(t.recent, chain, oldest)
  }

  /** The tables of `chain`, with balances for `utxos`. */
  ghost predicate Holds(t: Tables, chain: seq<Block>, utxos: Utxos, src: Source, named: Naming, oldest: nat) {
    RowsHold(t, chain, src, named, oldest) && BoardsMatch(t.boards, t.wallet, utxos)
  }

  method CollectRows(rowsOf: Block -> seq<Row>, blocks: seq<Block>) returns (rows: seq<Row>)
    ensures rows == RowsOf(rowsOf, blocks)
  {
    rows := [];
    for k := 0 to |blocks|
      invariant rows == RowsOf(rowsOf, blocks[..k])
    {
      assert blocks[..k + 1][..k] == blocks[..k];
      rows := rows + rowsOf(blocks[k]);
    }
    assert blocks[..|blocks|] == blocks;
  }

  /** Append the rows of `blocks` to the table of `chain`. */
  method AppendRows(table: Table, rowsOf: Block -> seq<Row>, blocks: seq<Block>, ghost chain: seq<Block>)
    returns (r: Result<Table>, rows: seq<Row>)
    requires Scratch(rowsOf, chain) == Ok(table)
    ensures r == Scratch(rowsOf, chain + blocks)
    ensures r == InsertAll(table, rows)
  {
    rows := CollectRows(rowsOf, blocks);
    ScratchAppend(rowsOf, chain, blocks);
    r := InsertRows(table, rows);
  }

  lemma OutputsExtended(before: Utxos, outputs: Utxos, chain: seq<Block>, blocks: seq<Block>, src: Source,
                        named: Naming)
    requires Indexed(before, outputs, blocks, src.created, named)
    requires BlocksInside(chain, src.created, before.Keys, named) && Inside(src.genesis, before.Keys, named)
    ensures OutputsHold(outputs, chain + blocks, src, named)
  {
    InsideMore(chain, src.created, before.Keys, outputs.Keys, named);
  }

  lemma NamedParts(chain: seq<Block>, blocks: seq<Block>, created: Creation, named: Naming)
    requires BlocksNamed(chain + blocks, created, named)
    ensures BlocksNamed(chain, created, named) && BlocksNamed(blocks, created, named)
  {
    var longer := chain + blocks;
    assert forall i :: 0 <= i < |chain| ==> chain[i] == longer[i];
    assert forall i :: 0 <= i < |blocks| ==> blocks[i] == longer[|chain| + i];
  }

  lemma OutputsStayRight(before: Utxos, outputs: Utxos, chain: seq<Block>, blocks: seq<Block>, src: Source,
                         named: Naming)
    requires chain != [] && OutputsRight(before, chain, src, named)
    requires Inside(before, before.Keys, named) && BlocksNamed(blocks, src.created, named) ==>
               Indexed(before, outputs, blocks, src.created, named)
    ensures OutputsRight(outputs, chain + blocks, src, named)
  {
    if BlocksNamed(chain + blocks, src.created, named) {
      NamedParts(chain, blocks, src.created, named);
      OutputsExtended(before, outputs, chain, blocks, src, named);
    }
  }

  /** Append one run of blocks to every table but the leaderboards. */
  method AppendTables(t: Tables, blocks: seq<Block>, src: Source,
                      ghost chain: seq<Block>, ghost longer: seq<Block>, ghost named: Naming, ghost oldest: nat)
    returns (r: Result<Tables>, rows: seq<Row>, ghost oldest': nat)
    requires RowsHold(t, chain, src, named, oldest) && chain != []
    requires Linked(longer) && longer == chain + blocks
    ensures r.Ok? <==> Projectable(longer, src)
    ensures r.Ok? ==> RowsHold(r.value, longer, src, named, oldest') && r.value.boards == t.boards
    ensures r.Ok? ==> Keeps(oldest', oldest, |longer|)
    ensures r.Ok? ==> InsertAll(t.wallet, rows) == Ok(r.value.wallet)
  {
    oldest' := oldest;
    var wallet;
    wallet, rows := AppendRows(t.wallet, src.rows, blocks, chain);
    var walletV2, _ := AppendRows(t.walletV2, src.rowsV2, blocks, chain);
    if wallet.Err? || walletV2.Err? {
      r := Err("failed to append UI wallet transaction");
      return;
    }
    var outputs := IndexBlocks(t.outputs, blocks, src.created, named);
    OutputsStayRight(t.outputs, outputs, chain, blocks, src, named);
    var recent;
    recent, oldest' := RecordBlocks(t.recent, blocks, chain, oldest);
    r := Ok(Tables(wallet.value, walletV2.value, t.boards, outputs, recent));
  }

  /** Append one run of blocks to every table, adding to the activity totals. */
  method AppendBlocks(t: Tables, blocks: seq<Block>, src: Source,
                      ghost chain: seq<Block>, ghost longer: seq<Block>, ghost named: Naming, ghost oldest: nat)
    returns (r: Result<Tables>, ghost oldest': nat)
    requires Holds(t, chain, map[], src, named, oldest) && chain != []
    requires Linked(longer) && longer == chain + blocks
    ensures r.Ok? <==> Projectable(longer, src)
    ensures r.Ok? ==> Holds(r.value, longer, map[], src, named, oldest') && Keeps(oldest', oldest, |longer|)
  {
    var rows;
    r, rows, oldest' := AppendTables(t, blocks, src, chain, longer, named, oldest);
    if r.Ok? {
      var boards := AccumulateActivity(t.boards, rows, t.wallet, map[]);
      r := Ok(r.value.(boards := boards));
    }
  }

  /** Leaderboards computed from the whole chain and the unspent outputs. */
  method BuildLeaderboards(blocks: seq<Block>, utxos: Utxos, src: Source, ghost wallet: Table) returns (boards: Boards)
    requires Scratch(src.rows, blocks) == Ok(wallet)
    ensures BoardsMatch(boards, wallet, utxos)
  {
    var rows := CollectRows(src.rows, blocks);
    EmptyBoards();
    boards := AccumulateBalances(map[], utxos, map[]);
    boards := AccumulateActivity(boards, rows, map[], utxos);
  }

  /** Append the rest of a complete chain whose prefix `chain` is projected; leaderboards are rebuilt. */
  method ExtendProjection(t: Tables, blocks: seq<Block>, start: nat, utxos: Utxos, src: Source,
                          ghost chain: seq<Block>, ghost named: Naming, ghost oldest: nat)
    returns (r: Result<Tables>, ghost oldest': nat)
    requires start <= |blocks| && chain == blocks[..start] && chain != [] && RowsHold(t, chain, src, named, oldest)
    requires Linked(blocks)
    ensures r.Ok? <==> Projectable(blocks, src)
    ensures r.Ok? ==> Holds(r.value, blocks, utxos, src, named, oldest') && Keeps(oldest', oldest, |blocks|)
  {
    assert blocks == chain + blocks[start..];
    var rows;
    r, rows, oldest' := AppendTables(t, blocks[start..], src, chain, blocks, named, oldest);
    if r.Ok? {
      var boards := BuildLeaderboards(blocks, utxos, src, r.value.wallet);
      r := Ok(r.value.(boards := boards));
    }
  }

  /** Project a complete chain into empty tables. */
  method ProjectFromScratch(blocks: seq<Block>, utxos: Utxos, src: Source, ghost named: Naming)
    returns (r: Result<Tables>, ghost oldest: nat)
    requires blocks != [] && Linked(blocks) && BlocksNamed(blocks, src.created, named)
    requires Inside(src.genesis, src.genesis.Keys, named)
    ensures r.Ok? <==> Projectable(blocks, src)
    ensures r.Ok? ==> Holds(r.value, blocks, utxos, src, named, oldest) && Keeps(oldest, 0, |blocks|)
  {
    oldest := 0;
    assert [] + blocks == blocks;
    var wallet, _ := AppendRows(map[], src.rows, blocks, []);
    var walletV2, _ := AppendRows(map[], src.rowsV2, blocks, []);
    if wallet.Err? || walletV2.Err? {
      return Err("failed to persist UI wallet transaction"), 0;
    }
    var boards := BuildLeaderboards(blocks, utxos, src, wallet.value);
    var outputs := IndexBlocks(src.genesis, blocks, src.created, named);
    OutputsExtended(src.genesis, outputs, [], blocks, src, named);
    var recent;
    recent, oldest := RecordBlocks(map[], blocks, [], 0);
    return Ok(Tables(wallet.value, walletV2.value, boards, outputs, recent)), oldest;
  }

  lemma RowsRewound(chain: seq<Block>, fork: nat, src: Source)
    requires Tagged(src.rows) && Tagged(src.rowsV2) && Linked(chain) && fork < |chain| && Projectable(chain, src)
    ensures Scratch(src.rows, chain[..fork + 1]) == Ok(Until(Scratch(src.rows, chain).value, fork))
    ensures Scratch(src.rowsV2, chain[..fork + 1]) == Ok(Until(Scratch(src.rowsV2, chain).value, fork))
  {
    ScratchRewind(src.rows, chain, fork);
    ScratchRewind(src.rowsV2, chain, fork);
  }

  /** Outputs of abandoned blocks stay indexed; those of the kept blocks are still right. */
  lemma OutputsRewound(outputs: Utxos, chain: seq<Block>, fork: nat, src: Source, named: Naming)
    requires fork < |chain| && OutputsHold(outputs, chain, src, named)
    ensures OutputsHold(outputs, chain[..fork + 1], src, named)
  {
  }

  /** Rewind to a fork: exactly the tables of the shorter chain remain, with activity totals only. */
  method Rewind(t: Tables, fork: nat, ghost chain: seq<Block>, ghost kept: seq<Block>,
                ghost src: Source, ghost named: Naming, ghost oldest: nat)
    returns (r: Tables)
    requires Linked(chain) && oldest <= fork < |chain| && kept == chain[..fork + 1] && Tagged(src.rows)
    requires Tagged(src.rowsV2)
    requires Holds(t, chain, map[], src, named, oldest) && BlocksNamed(chain, src.created, named)
    ensures Holds(r, kept, map[], src, named, oldest)
  {
    RowsRewound(chain, fork, src);
    OutputsRewound(t.outputs, chain, fork, src, named);
    var boards := RewindActivity(t.boards, t.wallet, fork, map[]);
    var recent := ForgetRecent(t.recent, fork, chain, oldest);
    r := Tables(Until(t.wallet, fork), Until(t.walletV2, fork), boards, t.outputs, recent);
  }
}
