/** The wallet-history tables of the UI database: which rows a block adds, and what deleting the rows
    above a height leaves. */
module UiRows {
  import opened Results
  import opened Transactions
  import opened Chain
  import opened Utxo

  const U64_MAX: nat := U64_RANGE - 1

  /** Reward rows carry a made-up id naming their outpoint; it never collides with a transaction's. */
  datatype RowId = TxId(id: string) | RewardId(outpoint: OutPoint)

  datatype RowKey = RowKey(address: string, id: RowId)

  datatype Content = Legacy(tx: Transaction) | Envelope(tx2: TransactionV2) | Reward(outputs: seq<TxOutput>)

  datatype Row = Row(
    key: RowKey,
    sortKey: nat,
    kind: string,
    height: nat,
    timestamp: nat,
    finalizer: string,
    content: Content)

  type Table = map<RowKey, Row>

  function Capped(sortKey: nat): nat { if sortKey < U64_MAX then sortKey else U64_MAX }

  // ----- the rows of one block

  function Sender(inputs: seq<TxInput>): string { if inputs == [] then "" else inputs[0].owner }

  function WalletAddresses(tx: Transaction): seq<string> {
    match tx
    case Transfer(inputs, outputs, _, _) =>
      if outputs == [] || outputs[0].address == Sender(inputs) then [Sender(inputs)]
      else [Sender(inputs), outputs[0].address]
    case Burn(inputs, _, _, _, _) => [Sender(inputs)]
    case Mine(recipient, _) => [recipient]
  }

  function Kind(tx: Transaction): string {
    match tx
    case Transfer(_, _, _, _) => "transfer"
    case Burn(_, _, _, _, _) => "burn"
    case Mine(_, _) => "mine"
  }

  /** One row per address of a transaction. */
  function TxRows(block: Block, addresses: seq<string>, sortKey: nat, kind: string, id: string,
                  content: Content): seq<Row> {
    seq(|addresses|, i requires 0 <= i < |addresses| =>
      Row(RowKey(addresses[i], TxId(id)), Capped(sortKey), kind, block.height, block.body.timestamp,
          block.body.miner, content))
  }

  /** The rows of a block's transactions, newest first; `index` counts from the end. */
  function LegacyRows(block: Block, txs: seq<Transaction>, index: nat): seq<Row> {
    if txs == [] then []
    else
      var tx := txs[|txs| - 1];
      TxRows(block, WalletAddresses(tx), block.height * 10_000 + index, Kind(tx), tx.signature, Legacy(tx))
      + LegacyRows(block, txs[..|txs| - 1], index + 1)
  }

  function RewardRows(block: Block): seq<Row> {
    var created := RewardOutputs(block.body);
    var outputs := seq(|created|, i requires 0 <= i < |created| => created[i].output);
    seq(|created|, i requires 0 <= i < |created| =>
      Row(RowKey(created[i].output.address, RewardId(created[i].outpoint)),
          Capped(SaturatingSub(block.height * 10_000 + 9_999, i)), "reward",
          block.height, block.body.timestamp, block.body.miner, Reward(outputs)))
  }

  function WalletRows(block: Block): seq<Row> {
    LegacyRows(block, block.body.transactions, 0) + (if block.height > 0 then RewardRows(block) else [])
  }

  /** The addresses without repetition; their order does not matter to a keyed table. */
  function Distinct(addresses: seq<string>): seq<string> {
    if addresses == [] then []
    else if addresses[0] in addresses[1..] then Distinct(addresses[1..])
    else [addresses[0]] + Distinct(addresses[1..])
  }

  function Owners(inputs: seq<TxInput>): seq<string> {
    seq(|inputs|, i requires 0 <= i < |inputs| => inputs[i].owner)
  }

  function Payees(outputs: seq<TxOutput>): seq<string> {
    seq(|outputs|, i requires 0 <= i < |outputs| => outputs[i].address)
  }

  function AddressesV2(tx: TransactionV2): seq<string> {
    match tx
    case MigrationV2(inputs, outputs, _, _) => Distinct(Owners(inputs) + Payees(outputs))
    case TransferV2(inputs, outputs, _, _) => Distinct(Owners(inputs) + Payees(outputs))
    case BurnV2(inputs, change, _, _, _) => Distinct(Owners(inputs) + Payees(change))
    case MineV2(recipient, _) => [recipient]
  }

  function KindV2(tx: TransactionV2): string {
    match tx
    case MigrationV2(_, _, _, _) => "transfer"
    case TransferV2(_, _, _, _) => "transfer"
    case BurnV2(_, _, _, _, _) => "burn"
    case MineV2(_, _) => "mine"
  }

  function EnvelopeRows(block: Block, txs: seq<TransactionV2>, index: nat): seq<Row> {
    if txs == [] then []
    else
      var tx := txs[|txs| - 1];
      TxRows(block, AddressesV2(tx), block.height * 10_000 + 5_000 + index, KindV2(tx), tx.id, Envelope(tx))
      + EnvelopeRows(block, txs[..|txs| - 1], index + 1)
  }

  function WalletRowsV2(block: Block): seq<Row> {
    EnvelopeRows(block, block.body.transactionsV2, 0)
  }

  ghost predicate AllAt(rows: seq<Row>, height: nat) {
    forall i :: 0 <= i < |rows| ==> rows[i].height == height
  }

  /** Every row a block adds carries the block's height. */
  ghost predicate Tagged(rowsOf: Block -> seq<Row>) {
    forall block {:trigger TaggedAt(rowsOf, block)} :: TaggedAt(rowsOf, block)
  }

  ghost predicate TaggedAt(rowsOf: Block -> seq<Row>, block: Block) {
    AllAt(rowsOf(block), block.height)
  }

  lemma {:induction false} LegacyTagged(block: Block, txs: seq<Transaction>, index: nat)
    ensures AllAt(LegacyRows(block, txs, index), block.height)
  {
    if txs != [] {
      LegacyTagged(block, txs[..|txs| - 1], index + 1);
    }
  }

  lemma {:induction false} EnvelopesTagged(block: Block, txs: seq<TransactionV2>, index: nat)
    ensures AllAt(EnvelopeRows(block, txs, index), block.height)
  {
    if txs != [] {
      EnvelopesTagged(block, txs[..|txs| - 1], index + 1);
    }
  }

  lemma RowsTagged()
    ensures Tagged(WalletRows) && Tagged(WalletRowsV2)
  {
    forall block: Block
      ensures TaggedAt(WalletRows, block) && TaggedAt(WalletRowsV2, block)
    {
      LegacyTagged(block, block.body.transactions, 0);
      EnvelopesTagged(block, block.body.transactionsV2, 0);
    }
  }

  // ----- tables

  /** The rows of a run of blocks, in order. */
  function RowsOf(rowsOf: Block -> seq<Row>, blocks: seq<Block>): seq<Row> {
    if blocks == [] then [] else RowsOf(rowsOf, blocks[..|blocks| - 1]) + rowsOf(blocks[|blocks| - 1])
  }

  /** Plain INSERT, row by row: a repeated primary key fails. */
  function InsertAll(table: Table, rows: seq<Row>): Result<Table> {
    if rows == [] then Ok(table)
    else
      var before := InsertAll(table, rows[..|rows| - 1]);
      var row := rows[|rows| - 1];
      if before.Err? then before
      else if row.key in before.value then Err("UNIQUE constraint failed")
      else Ok(before.value[row.key := row])
  }

  /** The table of a chain, projected from scratch. */
  function Scratch(rowsOf: Block -> seq<Row>, chain: seq<Block>): Result<Table> {
    InsertAll(map[], RowsOf(rowsOf, chain))
  }

  /** The insert loop. */
  method InsertRows(table: Table, rows: seq<Row>) returns (r: Result<Table>)
    ensures r == InsertAll(table, rows)
  {
    var t := table;
    for k := 0 to |rows|
      invariant InsertAll(table, rows[..k]) == Ok(t)
    {
      assert rows[..k + 1][..k] == rows[..k];
      if rows[k].key in t {
        InsertFails(table, rows, k + 1);
        return Err("UNIQUE constraint failed");
      }
      t := t[rows[k].key := rows[k]];
    }
    assert rows[..|rows|] == rows;
    return Ok(t);
  }

  lemma {:induction false} InsertFails(table: Table, rows: seq<Row>, k: nat)
    requires k <= |rows| && InsertAll(table, rows[..k]).Err?
    ensures InsertAll(table, rows) == InsertAll(table, rows[..k])
  {
    if k < |rows| {
      assert rows[..|rows| - 1][..k] == rows[..k];
      InsertFails(table, rows[..|rows| - 1], k);
    } else {
      assert rows[..k] == rows;
    }
  }

  lemma {:induction false} InsertConcat(table: Table, a: seq<Row>, b: seq<Row>)
    ensures InsertAll(table, a).Ok? ==> InsertAll(table, a + b) == InsertAll(InsertAll(table, a).value, b)
    ensures InsertAll(table, a + b).Ok? ==> InsertAll(table, a).Ok?
  {
    if b == [] {
      assert a + b == a;
    } else {
      assert (a + b)[..|a + b| - 1] == a + b[..|b| - 1];
      InsertConcat(table, a, b[..|b| - 1]);
    }
  }

  lemma {:induction false} RowsConcat(rowsOf: Block -> seq<Row>, a: seq<Block>, b: seq<Block>)
    ensures RowsOf(rowsOf, a + b) == RowsOf(rowsOf, a) + RowsOf(rowsOf, b)
  {
    if b == [] {
      assert a + b == a;
    } else {
      assert (a + b)[..|a + b| - 1] == a + b[..|b| - 1];
      RowsConcat(rowsOf, a, b[..|b| - 1]);
    }
  }

  /** Appending to a from-scratch table gives the from-scratch table of the longer chain. */
  lemma ScratchAppend(rowsOf: Block -> seq<Row>, chain: seq<Block>, blocks: seq<Block>)
    ensures Scratch(rowsOf, chain + blocks).Ok? ==> Scratch(rowsOf, chain).Ok?
    ensures Scratch(rowsOf, chain).Ok? ==>
              Scratch(rowsOf, chain + blocks) == InsertAll(Scratch(rowsOf, chain).value, RowsOf(rowsOf, blocks))
  {
    RowsConcat(rowsOf, chain, blocks);
    InsertConcat(map[], RowsOf(rowsOf, chain), RowsOf(rowsOf, blocks));
  }

  // ----- rewinding

  function Until(table: Table, height: nat): Table {
    map k | k in table && table[k].height <= height :: table[k]
  }

  ghost predicate RowsWithin(rows: seq<Row>, lo: nat, hi: nat) {
    forall i :: 0 <= i < |rows| ==> lo <= rows[i].height < hi
  }

  lemma {:induction false} RowHeights(rowsOf: Block -> seq<Row>, blocks: seq<Block>, lo: nat)
    requires Tagged(rowsOf) && forall i :: 0 <= i < |blocks| ==> blocks[i].height == lo + i
    ensures RowsWithin(RowsOf(rowsOf, blocks), lo, lo + |blocks|)
  {
    if blocks != [] {
      RowHeights(rowsOf, blocks[..|blocks| - 1], lo);
      assert TaggedAt(rowsOf, blocks[|blocks| - 1]);
    }
  }

  lemma {:induction false} InsertedWithin(rows: seq<Row>, lo: nat, hi: nat)
    requires InsertAll(map[], rows).Ok? && RowsWithin(rows, lo, hi)
    ensures forall k :: k in InsertAll(map[], rows).value ==> InsertAll(map[], rows).value[k].height < hi
  {
    if rows != [] {
      InsertedWithin(rows[..|rows| - 1], lo, hi);
    }
  }

  /** Deleting the rows above a height undoes inserting rows above it. */
  lemma {:induction false} DeleteUndoesInsert(table: Table, rows: seq<Row>, height: nat, hi: nat)
    requires InsertAll(table, rows).Ok? && RowsWithin(rows, height + 1, hi)
    requires forall k :: k in table ==> table[k].height <= height
    ensures Until(InsertAll(table, rows).value, height) == table
  {
    if rows != [] {
      DeleteUndoesInsert(table, rows[..|rows| - 1], height, hi);
      var before := InsertAll(table, rows[..|rows| - 1]).value;
      var row := rows[|rows| - 1];
      assert Until(before[row.key := row], height) == Until(before, height);
    }
  }

  /** Rewinding is an exact left inverse of appending: what stays is the from-scratch table of the
      shorter chain. */
  lemma ScratchRewind(rowsOf: Block -> seq<Row>, chain: seq<Block>, fork: nat)
    requires Tagged(rowsOf) && Linked(chain) && fork < |chain| && Scratch(rowsOf, chain).Ok?
    ensures Scratch(rowsOf, chain[..fork + 1]) == Ok(Until(Scratch(rowsOf, chain).value, fork))
  {
    var kept, gone := chain[..fork + 1], chain[fork + 1..];
    assert chain == kept + gone;
    ScratchAppend(rowsOf, kept, gone);
    forall i | 0 <= i < |chain|
      ensures chain[i].height == i
    {
      assert LinkedAt(chain, i);
    }
    RowHeights(rowsOf, kept, 0);
    RowHeights(rowsOf, gone, fork + 1);
    InsertedWithin(RowsOf(rowsOf, kept), 0, fork + 1);
    DeleteUndoesInsert(Scratch(rowsOf, kept).value, RowsOf(rowsOf, gone), fork, |chain|);
  }
}
