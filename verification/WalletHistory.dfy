/** What the wallet tables and leaderboards mean, said of the chain's own transactions. */
module WalletHistory {
  import opened Results
  import opened Maps
  import opened Transactions
  import opened Chain
  import opened Utxo
  import opened UiRows
  import opened Leaderboards
  import opened Balances

  // ----- who a transaction concerns

  /** The address is that of the first input, or the empty string if there is none. */
  ghost predicate IsSender(inputs: seq<TxInput>, a: string) {
    if inputs == [] then a == "" else a == inputs[0].owner
  }

  /** Sender and first payee of a transfer, sender of a burn, recipient of a mining reward. */
  ghost predicate Concerns(tx: Transaction, a: string) {
    match tx
    case Transfer(inputs, outputs, _, _) => IsSender(inputs, a) || (outputs != [] && a == outputs[0].address)
    case Burn(inputs, _, _, _, _) => IsSender(inputs, a)
    case Mine(recipient, _) => a == recipient
  }

  ghost predicate Owns(inputs: seq<TxInput>, a: string) {
    exists i :: 0 <= i < |inputs| && inputs[i].owner == a
  }

  ghost predicate Paid(outputs: seq<TxOutput>, a: string) {
    exists i :: 0 <= i < |outputs| && outputs[i].address == a
  }

  /** Every owner and every payee of a second-format transaction. */
  ghost predicate ConcernsV2(tx: TransactionV2, a: string) {
    match tx
    case MigrationV2(inputs, outputs, _, _) => Owns(inputs, a) || Paid(outputs, a)
    case TransferV2(inputs, outputs, _, _) => Owns(inputs, a) || Paid(outputs, a)
    case BurnV2(inputs, change, _, _, _) => Owns(inputs, a) || Paid(change, a)
    case MineV2(recipient, _) => a == recipient
  }

  ghost predicate NamesKind(tx: Transaction, kind: string) {
    && (tx.Transfer? ==> kind == "transfer") && (tx.Burn? ==> kind == "burn") && (tx.Mine? ==> kind == "mine")
  }

  ghost predicate NamesKindV2(tx: TransactionV2, kind: string) {
    && (tx.MigrationV2? || tx.TransferV2? ==> kind == "transfer")
    && (tx.BurnV2? ==> kind == "burn") && (tx.MineV2? ==> kind == "mine")
  }

  // ----- where a row comes from

  /** Transaction `j` of block `h` is signed `s` and concerns the address. */
  ghost predicate LegacyAt(chain: seq<Block>, h: nat, j: nat, a: string, s: string) {
    && h < |chain| && j < |chain[h].body.transactions|
    && chain[h].body.transactions[j].signature == s && Concerns(chain[h].body.transactions[j], a)
  }

  ghost predicate EnvelopeAt(chain: seq<Block>, h: nat, j: nat, a: string, s: string) {
    && h < |chain| && j < |chain[h].body.transactionsV2|
    && chain[h].body.transactionsV2[j].id == s && ConcernsV2(chain[h].body.transactionsV2[j], a)
  }

  /** Reward output `i` of block `h`, which is not genesis, pays the address at the outpoint. */
  ghost predicate RewardAt(chain: seq<Block>, h: nat, i: nat, a: string, p: OutPoint) {
    && h < |chain| && 0 < chain[h].height && i < |RewardOutputs(chain[h].body)|
    && RewardOutputs(chain[h].body)[i].output.address == a && RewardOutputs(chain[h].body)[i].outpoint == p
  }

  /** The row carries its block's height, time and finalizer, and sorts at `position` within the block. */
  ghost predicate FromBlock(row: Row, block: Block, position: nat) {
    && row.height == block.height && row.timestamp == block.body.timestamp && row.finalizer == block.body.miner
    && row.sortKey == Min(block.height * 10_000 + position, U64_RANGE - 1)
  }

  /** The row of transaction `j` of a block; the newest transaction sorts first. */
  ghost predicate LegacyRow(row: Row, block: Block, j: nat)
    requires j < |block.body.transactions|
  {
    var txs := block.body.transactions;
    row.content == Legacy(txs[j]) && NamesKind(txs[j], row.kind) && FromBlock(row, block, |txs| - 1 - j)
  }

  ghost predicate EnvelopeRow(row: Row, block: Block, j: nat)
    requires j < |block.body.transactionsV2|
  {
    var txs := block.body.transactionsV2;
    row.content == Envelope(txs[j]) && NamesKindV2(txs[j], row.kind) && FromBlock(row, block, 5_000 + |txs| - 1 - j)
  }

  /** The row of reward output `i`: it lists all outputs of the reward, and the first output sorts last. */
  ghost predicate RewardRow(row: Row, block: Block, i: nat) {
    && row.content.Reward? && |row.content.outputs| == |RewardOutputs(block.body)|
    && (forall k :: 0 <= k < |row.content.outputs| ==> row.content.outputs[k] == RewardOutputs(block.body)[k].output)
    && row.kind == "reward"
    && row.height == block.height && row.timestamp == block.body.timestamp && row.finalizer == block.body.miner
    && row.sortKey == Min(SaturatingSub(block.height * 10_000 + 9_999, i), U64_RANGE - 1)
  }

  // ----- the rows of one block

  lemma {:induction false} DistinctKeeps(addresses: seq<string>)
    ensures forall a :: a in Distinct(addresses) <==> a in addresses
  {
    if addresses != [] {
      DistinctKeeps(addresses[1..]);
    }
  }

  lemma LegacyAddresses(tx: Transaction, a: string)
    ensures a in WalletAddresses(tx) <==> Concerns(tx, a)
  {
  }

  lemma JoinedAddresses(inputs: seq<TxInput>, outputs: seq<TxOutput>, a: string)
    ensures a in Distinct(Owners(inputs) + Payees(outputs)) <==> Owns(inputs, a) || Paid(outputs, a)
  {
    DistinctKeeps(Owners(inputs) + Payees(outputs));
    if Owns(inputs, a) {
      var i :| 0 <= i < |inputs| && inputs[i].owner == a;
      assert Owners(inputs)[i] == a;
    }
    if Paid(outputs, a) {
      var i :| 0 <= i < |outputs| && outputs[i].address == a;
      assert Payees(outputs)[i] == a;
    }
  }

  lemma EnvelopeAddresses(tx: TransactionV2, a: string)
    ensures a in AddressesV2(tx) <==> ConcernsV2(tx, a)
  {
    match tx
    case MigrationV2(inputs, outputs, _, _) => JoinedAddresses(inputs, outputs, a);
    case TransferV2(inputs, outputs, _, _) => JoinedAddresses(inputs, outputs, a);
    case BurnV2(inputs, change, _, _, _) => JoinedAddresses(inputs, change, a);
    case MineV2(_, _) =>
  }

  /** The row is that of transaction `j` for an address it concerns; `index` counts from the end. */
  ghost predicate LegacyOrigin(row: Row, block: Block, txs: seq<Transaction>, index: nat, j: nat)
    requires j < |txs|
  {
    && row.key.id == TxId(txs[j].signature) && Concerns(txs[j], row.key.address)
    && row.content == Legacy(txs[j]) && NamesKind(txs[j], row.kind) && FromBlock(row, block, index + |txs| - 1 - j)
  }

  ghost predicate EnvelopeOrigin(row: Row, block: Block, txs: seq<TransactionV2>, index: nat, j: nat)
    requires j < |txs|
  {
    && row.key.id == TxId(txs[j].id) && ConcernsV2(txs[j], row.key.address)
    && row.content == Envelope(txs[j]) && NamesKindV2(txs[j], row.kind)
    && FromBlock(row, block, 5_000 + index + |txs| - 1 - j)
  }

  /** The rows of the last transaction. */
  ghost function LastRows(block: Block, tx: Transaction, index: nat): seq<Row> {
    TxRows(block, WalletAddresses(tx), block.height * 10_000 + index, Kind(tx), tx.signature, Legacy(tx))
  }

  ghost function LastRowsV2(block: Block, tx: TransactionV2, index: nat): seq<Row> {
    TxRows(block, AddressesV2(tx), block.height * 10_000 + 5_000 + index, KindV2(tx), tx.id, Envelope(tx))
  }

  lemma SortsAt(height: nat, position: nat)
    ensures Capped(height * 10_000 + position) == Min(height * 10_000 + position, U64_RANGE - 1)
  {
  }

  lemma LastRowFrom(block: Block, txs: seq<Transaction>, index: nat, i: nat)
    requires txs != [] && i < |LastRows(block, txs[|txs| - 1], index)|
    ensures LegacyOrigin(LastRows(block, txs[|txs| - 1], index)[i], block, txs, index, |txs| - 1)
  {
    var tx := txs[|txs| - 1];
    LegacyAddresses(tx, WalletAddresses(tx)[i]);
    SortsAt(block.height, index);
  }

  lemma LastRowV2From(block: Block, txs: seq<TransactionV2>, index: nat, i: nat)
    requires txs != [] && i < |LastRowsV2(block, txs[|txs| - 1], index)|
    ensures EnvelopeOrigin(LastRowsV2(block, txs[|txs| - 1], index)[i], block, txs, index, |txs| - 1)
  {
    var tx := txs[|txs| - 1];
    EnvelopeAddresses(tx, AddressesV2(tx)[i]);
    SortsAt(block.height, 5_000 + index);
  }

  /** A row's place counted in a prefix, one further from the end. */
  lemma LegacyShift(row: Row, block: Block, txs: seq<Transaction>, init: seq<Transaction>, index: nat, j: nat)
    requires txs != [] && init == txs[..|txs| - 1] && j < |init| && LegacyOrigin(row, block, init, index + 1, j)
    ensures LegacyOrigin(row, block, txs, index, j)
  {
  }

  lemma EnvelopeShift(row: Row, block: Block, txs: seq<TransactionV2>, init: seq<TransactionV2>, index: nat, j: nat)
    requires txs != [] && init == txs[..|txs| - 1] && j < |init| && EnvelopeOrigin(row, block, init, index + 1, j)
    ensures EnvelopeOrigin(row, block, txs, index, j)
  {
  }

  lemma {:induction false} LegacyRowFrom(block: Block, txs: seq<Transaction>, index: nat, rows: seq<Row>, i: nat)
    returns (j: nat)
    requires rows == LegacyRows(block, txs, index) && i < |rows|
    ensures j < |txs| && LegacyOrigin(rows[i], block, txs, index, j)
    decreases |txs|
  {
    var init, last := txs[..|txs| - 1], LastRows(block, txs[|txs| - 1], index);
    var rest := LegacyRows(block, init, index + 1);
    assert rows == last + rest;
    if i < |last| {
      j := |txs| - 1;
      LastRowFrom(block, txs, index, i);
    } else {
      j := LegacyRowFrom(block, init, index + 1, rest, i - |last|);
      LegacyShift(rows[i], block, txs, init, index, j);
    }
  }

  lemma {:induction false} EnvelopeRowFrom(block: Block, txs: seq<TransactionV2>, index: nat, rows: seq<Row>, i: nat)
    returns (j: nat)
    requires rows == EnvelopeRows(block, txs, index) && i < |rows|
    ensures j < |txs| && EnvelopeOrigin(rows[i], block, txs, index, j)
    decreases |txs|
  {
    var init, last := txs[..|txs| - 1], LastRowsV2(block, txs[|txs| - 1], index);
    var rest := EnvelopeRows(block, init, index + 1);
    assert rows == last + rest;
    if i < |last| {
      j := |txs| - 1;
      LastRowV2From(block, txs, index, i);
    } else {
      j := EnvelopeRowFrom(block, init, index + 1, rest, i - |last|);
      EnvelopeShift(rows[i], block, txs, init, index, j);
    }
  }

  lemma {:induction false} LegacyRowTo(block: Block, txs: seq<Transaction>, index: nat, j: nat, a: string)
    returns (i: nat)
    requires j < |txs| && Concerns(txs[j], a)
    ensures i < |LegacyRows(block, txs, index)|
    ensures LegacyRows(block, txs, index)[i].key == RowKey(a, TxId(txs[j].signature))
    ensures LegacyOrigin(LegacyRows(block, txs, index)[i], block, txs, index, j)
    decreases |txs|
  {
    var init, last := txs[..|txs| - 1], LastRows(block, txs[|txs| - 1], index);
    if j == |txs| - 1 {
      LegacyAddresses(txs[j], a);
      i :| 0 <= i < |WalletAddresses(txs[j])| && WalletAddresses(txs[j])[i] == a;
      LastRowFrom(block, txs, index, i);
    } else {
      i := LegacyRowTo(block, init, index + 1, j, a);
      LegacyShift(LegacyRows(block, init, index + 1)[i], block, txs, init, index, j);
      i := |last| + i;
    }
  }

  lemma {:induction false} EnvelopeRowTo(block: Block, txs: seq<TransactionV2>, index: nat, j: nat, a: string)
    returns (i: nat)
    requires j < |txs| && ConcernsV2(txs[j], a)
    ensures i < |EnvelopeRows(block, txs, index)|
    ensures EnvelopeRows(block, txs, index)[i].key == RowKey(a, TxId(txs[j].id))
    ensures EnvelopeOrigin(EnvelopeRows(block, txs, index)[i], block, txs, index, j)
    decreases |txs|
  {
    var init, last := txs[..|txs| - 1], LastRowsV2(block, txs[|txs| - 1], index);
    if j == |txs| - 1 {
      EnvelopeAddresses(txs[j], a);
      i :| 0 <= i < |AddressesV2(txs[j])| && AddressesV2(txs[j])[i] == a;
      LastRowV2From(block, txs, index, i);
    } else {
      i := EnvelopeRowTo(block, init, index + 1, j, a);
      EnvelopeShift(EnvelopeRows(block, init, index + 1)[i], block, txs, init, index, j);
      i := |last| + i;
    }
  }

  lemma RewardRowFrom(block: Block, i: nat)
    requires i < |RewardRows(block)|
    ensures |RewardRows(block)| == |RewardOutputs(block.body)| && RewardRow(RewardRows(block)[i], block, i)
    ensures var c := RewardOutputs(block.body)[i];
            RewardRows(block)[i].key == RowKey(c.output.address, RewardId(c.outpoint))
  {
  }

  // ----- the rows of a table

  lemma {:induction false} RowFrom(rowsOf: Block -> seq<Row>, chain: seq<Block>, i: nat) returns (h: nat, k: nat)
    requires i < |RowsOf(rowsOf, chain)|
    ensures h < |chain| && k < |rowsOf(chain[h])| && rowsOf(chain[h])[k] == RowsOf(rowsOf, chain)[i]
  {
    var before := RowsOf(rowsOf, chain[..|chain| - 1]);
    if i < |before| {
      h, k := RowFrom(rowsOf, chain[..|chain| - 1], i);
    } else {
      h, k := |chain| - 1, i - |before|;
    }
  }

  lemma {:induction false} RowTo(rowsOf: Block -> seq<Row>, chain: seq<Block>, h: nat, k: nat) returns (i: nat)
    requires h < |chain| && k < |rowsOf(chain[h])|
    ensures i < |RowsOf(rowsOf, chain)| && rowsOf(chain[h])[k] == RowsOf(rowsOf, chain)[i]
  {
    if h < |chain| - 1 {
      i := RowTo(rowsOf, chain[..|chain| - 1], h, k);
    } else {
      i := |RowsOf(rowsOf, chain[..|chain| - 1])| + k;
    }
  }

  /** Every inserted row is in the table under its own key. */
  lemma {:induction false} InsertedRow(rows: seq<Row>, table: Table, i: nat)
    requires InsertAll(map[], rows) == Ok(table) && i < |rows|
    ensures rows[i].key in table && table[rows[i].key] == rows[i]
  {
    var init, last := rows[..|rows| - 1], rows[|rows| - 1];
    if i < |init| {
      InsertedRow(init, InsertAll(map[], init).value, i);
    }
  }

  /** And nothing else is. */
  lemma {:induction false} InsertedKey(rows: seq<Row>, table: Table, key: RowKey) returns (i: nat)
    requires InsertAll(map[], rows) == Ok(table) && key in table
    ensures i < |rows| && rows[i].key == key
  {
    var init, last := rows[..|rows| - 1], rows[|rows| - 1];
    i := |init|;
    if key != last.key {
      i := InsertedKey(init, InsertAll(map[], init).value, key);
    }
  }

  lemma TableRow(rowsOf: Block -> seq<Row>, chain: seq<Block>, table: Table, h: nat, k: nat)
    requires Scratch(rowsOf, chain) == Ok(table) && h < |chain| && k < |rowsOf(chain[h])|
    ensures var row := rowsOf(chain[h])[k]; row.key in table && table[row.key] == row
  {
    var i := RowTo(rowsOf, chain, h, k);
    InsertedRow(RowsOf(rowsOf, chain), table, i);
  }

  lemma TableKey(rowsOf: Block -> seq<Row>, chain: seq<Block>, table: Table, key: RowKey) returns (h: nat, k: nat)
    requires Scratch(rowsOf, chain) == Ok(table) && key in table
    ensures h < |chain| && k < |rowsOf(chain[h])| && rowsOf(chain[h])[k].key == key
  {
    var i := InsertedKey(RowsOf(rowsOf, chain), table, key);
    h, k := RowFrom(rowsOf, chain, i);
  }

  // ----- the wallet tables

  /** The key is in the table exactly when some block carries a legacy transaction signed so that concerns
      the address. */
  ghost predicate LegacyKey(table: Table, chain: seq<Block>, a: string, s: string) {
    RowKey(a, TxId(s)) in table <==> exists h: nat, j: nat :: LegacyAt(chain, h, j, a, s)
  }

  ghost predicate RewardKey(table: Table, chain: seq<Block>, a: string, p: OutPoint) {
    RowKey(a, RewardId(p)) in table <==> exists h: nat, i: nat :: RewardAt(chain, h, i, a, p)
  }

  ghost predicate EnvelopeKey(table: Table, chain: seq<Block>, a: string, s: string) {
    RowKey(a, TxId(s)) in table <==> exists h: nat, j: nat :: EnvelopeAt(chain, h, j, a, s)
  }

  lemma LegacyHistory(chain: seq<Block>, table: Table, h: nat, j: nat, a: string, s: string)
    requires Scratch(WalletRows, chain) == Ok(table) && LegacyAt(chain, h, j, a, s)
    ensures RowKey(a, TxId(s)) in table && LegacyRow(table[RowKey(a, TxId(s))], chain[h], j)
  {
    var block := chain[h];
    var i := LegacyRowTo(block, block.body.transactions, 0, j, a);
    assert WalletRows(block)[i] == LegacyRows(block, block.body.transactions, 0)[i];
    TableRow(WalletRows, chain, table, h, i);
  }

  lemma RewardHistory(chain: seq<Block>, table: Table, h: nat, i: nat, a: string, p: OutPoint)
    requires Scratch(WalletRows, chain) == Ok(table) && RewardAt(chain, h, i, a, p)
    ensures RowKey(a, RewardId(p)) in table && RewardRow(table[RowKey(a, RewardId(p))], chain[h], i)
  {
    var block := chain[h];
    RewardRowFrom(block, i);
    var k := |LegacyRows(block, block.body.transactions, 0)| + i;
    assert WalletRows(block)[k] == RewardRows(block)[i];
    TableRow(WalletRows, chain, table, h, k);
  }

  lemma EnvelopeHistory(chain: seq<Block>, table: Table, h: nat, j: nat, a: string, s: string)
    requires Scratch(WalletRowsV2, chain) == Ok(table) && EnvelopeAt(chain, h, j, a, s)
    ensures RowKey(a, TxId(s)) in table && EnvelopeRow(table[RowKey(a, TxId(s))], chain[h], j)
  {
    var block := chain[h];
    var i := EnvelopeRowTo(block, block.body.transactionsV2, 0, j, a);
    TableRow(WalletRowsV2, chain, table, h, i);
  }

  /** Where a row of a block comes from. */
  lemma WalletRowFrom(block: Block, k: nat) returns (legacy: bool, j: nat)
    requires k < |WalletRows(block)|
    ensures legacy ==>
              && j < |block.body.transactions|
              && WalletRows(block)[k].key.id == TxId(block.body.transactions[j].signature)
    ensures legacy ==> Concerns(block.body.transactions[j], WalletRows(block)[k].key.address)
    ensures !legacy ==> block.height > 0 && j < |RewardOutputs(block.body)|
    ensures !legacy ==> var c := RewardOutputs(block.body)[j];
                        WalletRows(block)[k].key == RowKey(c.output.address, RewardId(c.outpoint))
  {
    var rows := LegacyRows(block, block.body.transactions, 0);
    legacy := k < |rows|;
    if legacy {
      j := LegacyRowFrom(block, block.body.transactions, 0, rows, k);
    } else {
      j := k - |rows|;
      RewardRowFrom(block, j);
    }
  }

  lemma LegacyKeys(chain: seq<Block>, table: Table, a: string, s: string)
    requires Scratch(WalletRows, chain) == Ok(table)
    ensures LegacyKey(table, chain, a, s)
  {
    if RowKey(a, TxId(s)) in table {
      var h, k := TableKey(WalletRows, chain, table, RowKey(a, TxId(s)));
      var _, j := WalletRowFrom(chain[h], k);
      assert LegacyAt(chain, h, j, a, s);
    }
    if h: nat, j: nat :| LegacyAt(chain, h, j, a, s) {
      LegacyHistory(chain, table, h, j, a, s);
    }
  }

  lemma RewardKeys(chain: seq<Block>, table: Table, a: string, p: OutPoint)
    requires Scratch(WalletRows, chain) == Ok(table)
    ensures RewardKey(table, chain, a, p)
  {
    if RowKey(a, RewardId(p)) in table {
      var h, k := TableKey(WalletRows, chain, table, RowKey(a, RewardId(p)));
      var _, i := WalletRowFrom(chain[h], k);
      assert RewardAt(chain, h, i, a, p);
    }
    if h: nat, i: nat :| RewardAt(chain, h, i, a, p) {
      RewardHistory(chain, table, h, i, a, p);
    }
  }

  lemma EnvelopeKeys(chain: seq<Block>, table: Table, a: string, s: string)
    requires Scratch(WalletRowsV2, chain) == Ok(table)
    ensures EnvelopeKey(table, chain, a, s)
  {
    if RowKey(a, TxId(s)) in table {
      var h, k := TableKey(WalletRowsV2, chain, table, RowKey(a, TxId(s)));
      var j := EnvelopeRowFrom(chain[h], chain[h].body.transactionsV2, 0, WalletRowsV2(chain[h]), k);
      assert EnvelopeAt(chain, h, j, a, s);
    }
    if h: nat, j: nat :| EnvelopeAt(chain, h, j, a, s) {
      EnvelopeHistory(chain, table, h, j, a, s);
    }
  }

  /** Every key of the wallet table, and the row under it, comes from a transaction or reward of the chain. */
  lemma WalletIsHistory(chain: seq<Block>, table: Table)
    requires Scratch(WalletRows, chain) == Ok(table)
    ensures forall a, s :: LegacyKey(table, chain, a, s)
    ensures forall a, p :: RewardKey(table, chain, a, p)
    ensures forall h: nat, j: nat, a, s :: LegacyAt(chain, h, j, a, s) ==>
              RowKey(a, TxId(s)) in table && LegacyRow(table[RowKey(a, TxId(s))], chain[h], j)
    ensures forall h: nat, i: nat, a, p :: RewardAt(chain, h, i, a, p) ==>
              RowKey(a, RewardId(p)) in table && RewardRow(table[RowKey(a, RewardId(p))], chain[h], i)
  {
    forall a, s ensures LegacyKey(table, chain, a, s) {
      LegacyKeys(chain, table, a, s);
    }
    forall a, p ensures RewardKey(table, chain, a, p) {
      RewardKeys(chain, table, a, p);
    }
    forall h: nat, j: nat, a, s | LegacyAt(chain, h, j, a, s)
      ensures RowKey(a, TxId(s)) in table && LegacyRow(table[RowKey(a, TxId(s))], chain[h], j)
    {
      LegacyHistory(chain, table, h, j, a, s);
    }
    forall h: nat, i: nat, a, p | RewardAt(chain, h, i, a, p)
      ensures RowKey(a, RewardId(p)) in table && RewardRow(table[RowKey(a, RewardId(p))], chain[h], i)
    {
      RewardHistory(chain, table, h, i, a, p);
    }
  }

  /** The same for the second-format table. */
  lemma WalletV2IsHistory(chain: seq<Block>, table: Table)
    requires Scratch(WalletRowsV2, chain) == Ok(table)
    ensures forall a, s :: EnvelopeKey(table, chain, a, s)
    ensures forall h: nat, j: nat, a, s :: EnvelopeAt(chain, h, j, a, s) ==>
              RowKey(a, TxId(s)) in table && EnvelopeRow(table[RowKey(a, TxId(s))], chain[h], j)
  {
    forall a, s ensures EnvelopeKey(table, chain, a, s) {
      EnvelopeKeys(chain, table, a, s);
    }
    forall h: nat, j: nat, a, s | EnvelopeAt(chain, h, j, a, s)
      ensures RowKey(a, TxId(s)) in table && EnvelopeRow(table[RowKey(a, TxId(s))], chain[h], j)
    {
      EnvelopeHistory(chain, table, h, j, a, s);
    }
  }

  // ----- the leaderboards

  ghost function MinedBy(a: string): Transaction -> nat {
    (tx: Transaction) => if tx.Mine? && tx.recipient == a then MINE_REWARD else 0
  }

  ghost function MinesOf(a: string): Transaction -> nat {
    (tx: Transaction) => if tx.Mine? && tx.recipient == a then 1 else 0
  }

  ghost function BurnedBy(a: string): Transaction -> nat {
    (tx: Transaction) => if tx.Burn? && IsSender(tx.inputs, a) then tx.amount else 0
  }

  ghost function BurnsOf(a: string): Transaction -> nat {
    (tx: Transaction) => if tx.Burn? && IsSender(tx.inputs, a) then 1 else 0
  }

  ghost function HoldingsOf(a: string): TxOutput -> nat {
    (output: TxOutput) => if output.address == a && output.amount > 0 then 1 else 0
  }

  ghost function PerBlock(weight: Transaction -> nat): Block -> nat {
    (block: Block) => Total(block.body.transactions, weight)
  }

  /** A sum over all legacy transactions of a chain. */
  ghost function InChain(chain: seq<Block>, weight: Transaction -> nat): nat {
    Total(chain, PerBlock(weight))
  }

  /** The rows of a transaction weigh what the transaction does. */
  ghost predicate WeighsAt(rowWeight: Row -> nat, weight: Transaction -> nat, block: Block, tx: Transaction,
                           index: nat) {
    Total(LastRows(block, tx, index), rowWeight) == weight(tx)
  }

  ghost predicate Weighs(rowWeight: Row -> nat, weight: Transaction -> nat) {
    && (forall block, tx, index: nat {:trigger WeighsAt(rowWeight, weight, block, tx, index)} ::
          WeighsAt(rowWeight, weight, block, tx, index))
    && forall row: Row {:trigger rowWeight(row)} :: row.content.Reward? ==> rowWeight(row) == 0
  }

  lemma {:induction false} LegacyWeighs(rowWeight: Row -> nat, weight: Transaction -> nat, block: Block,
                                        txs: seq<Transaction>, index: nat)
    requires Weighs(rowWeight, weight)
    ensures Total(LegacyRows(block, txs, index), rowWeight) == Total(txs, weight)
    decreases |txs|
  {
    if txs != [] {
      var init, tx := txs[..|txs| - 1], txs[|txs| - 1];
      LegacyWeighs(rowWeight, weight, block, init, index + 1);
      assert WeighsAt(rowWeight, weight, block, tx, index);
      TotalConcat(LastRows(block, tx, index), LegacyRows(block, init, index + 1), rowWeight);
    }
  }

  lemma BlockWeighs(rowWeight: Row -> nat, weight: Transaction -> nat, block: Block)
    requires Weighs(rowWeight, weight)
    ensures Total(WalletRows(block), rowWeight) == Total(block.body.transactions, weight)
  {
    LegacyWeighs(rowWeight, weight, block, block.body.transactions, 0);
    TotalZero(RewardRows(block), rowWeight);
    TotalConcat(LegacyRows(block, block.body.transactions, 0), RewardRows(block), rowWeight);
    assert LegacyRows(block, block.body.transactions, 0) + [] == LegacyRows(block, block.body.transactions, 0);
  }

  lemma {:induction false} ChainWeighs(rowWeight: Row -> nat, weight: Transaction -> nat, chain: seq<Block>)
    requires Weighs(rowWeight, weight)
    ensures Total(RowsOf(WalletRows, chain), rowWeight) == InChain(chain, weight)
  {
    if chain != [] {
      var init, last := chain[..|chain| - 1], chain[|chain| - 1];
      ChainWeighs(rowWeight, weight, init);
      BlockWeighs(rowWeight, weight, last);
      TotalConcat(RowsOf(WalletRows, init), WalletRows(last), rowWeight);
    }
  }

  lemma {:induction false} SumInserted(rows: seq<Row>, table: Table, rowWeight: Row -> nat)
    requires InsertAll(map[], rows) == Ok(table)
    ensures Sum(table, rowWeight) == Total(rows, rowWeight)
  {
    if rows != [] {
      var init, last := rows[..|rows| - 1], rows[|rows| - 1];
      SumInserted(init, InsertAll(map[], init).value, rowWeight);
      SumPut(InsertAll(map[], init).value, rowWeight, last.key, last);
    }
  }

  lemma TableWeighs(rowWeight: Row -> nat, weight: Transaction -> nat, chain: seq<Block>, table: Table)
    requires Weighs(rowWeight, weight) && Scratch(WalletRows, chain) == Ok(table)
    ensures Sum(table, rowWeight) == InChain(chain, weight)
  {
    SumInserted(RowsOf(WalletRows, chain), table, rowWeight);
    ChainWeighs(rowWeight, weight, chain);
  }

  lemma OneRow(row: Row, rowWeight: Row -> nat)
    ensures Total([row], rowWeight) == rowWeight(row)
  {
    assert [row][..0] == [];
  }

  lemma PostingsWeigh(a: string, block: Block, tx: Transaction, index: nat)
    ensures WeighsAt(RowAmount(Board("mine", a)), MinedBy(a), block, tx, index)
    ensures WeighsAt(RowCount(Board("mine", a)), MinesOf(a), block, tx, index)
    ensures WeighsAt(RowAmount(Board("burn", a)), BurnedBy(a), block, tx, index)
    ensures WeighsAt(RowCount(Board("burn", a)), BurnsOf(a), block, tx, index)
  {
    var rows := LastRows(block, tx, index);
    if tx.Transfer? {
      TotalZero(rows, RowAmount(Board("mine", a)));
      TotalZero(rows, RowCount(Board("mine", a)));
      TotalZero(rows, RowAmount(Board("burn", a)));
      TotalZero(rows, RowCount(Board("burn", a)));
    } else {
      assert rows == [rows[0]];
      OneRow(rows[0], RowAmount(Board("mine", a)));
      OneRow(rows[0], RowCount(Board("mine", a)));
      OneRow(rows[0], RowAmount(Board("burn", a)));
      OneRow(rows[0], RowCount(Board("burn", a)));
    }
  }

  lemma BoardsWeigh(a: string)
    ensures Weighs(RowAmount(Board("mine", a)), MinedBy(a)) && Weighs(RowCount(Board("mine", a)), MinesOf(a))
    ensures Weighs(RowAmount(Board("burn", a)), BurnedBy(a)) && Weighs(RowCount(Board("burn", a)), BurnsOf(a))
  {
    forall block: Block, tx: Transaction, index: nat
      ensures WeighsAt(RowAmount(Board("mine", a)), MinedBy(a), block, tx, index)
      ensures WeighsAt(RowCount(Board("mine", a)), MinesOf(a), block, tx, index)
      ensures WeighsAt(RowAmount(Board("burn", a)), BurnedBy(a), block, tx, index)
      ensures WeighsAt(RowCount(Board("burn", a)), BurnsOf(a), block, tx, index)
    {
      PostingsWeigh(a, block, tx, index);
    }
  }

  /** The board lists the address exactly when something counts for it, with that amount and number. */
  ghost predicate EntryIs(boards: Boards, board: Board, amount: nat, count: nat) {
    && (board in boards <==> count > 0)
    && (board in boards ==> boards[board] == Entry(amount, count))
  }

  /** The three entries of an address: what it mined, burned and holds. */
  ghost predicate EntriesAre(boards: Boards, chain: seq<Block>, utxos: Utxos, a: string) {
    && EntryIs(boards, Board("mine", a), InChain(chain, MinedBy(a)), InChain(chain, MinesOf(a)))
    && EntryIs(boards, Board("burn", a), InChain(chain, BurnedBy(a)), InChain(chain, BurnsOf(a)))
    && EntryIs(boards, Board("balances", a), Held(utxos, a), Sum(utxos, HoldingsOf(a)))
  }

  lemma ActivityEntry(boards: Boards, chain: seq<Block>, wallet: Table, utxos: Utxos, board: Board,
                      amount: Transaction -> nat, count: Transaction -> nat)
    requires BoardsMatch(boards, wallet, utxos) && Scratch(WalletRows, chain) == Ok(wallet)
    requires Weighs(RowAmount(board), amount) && Weighs(RowCount(board), count) && board.kind != "balances"
    ensures EntryIs(boards, board, InChain(chain, amount), InChain(chain, count))
  {
    TableWeighs(RowAmount(board), amount, chain, wallet);
    TableWeighs(RowCount(board), count, chain, wallet);
    SumZero(utxos, OutputAmount(board));
    SumZero(utxos, OutputCount(board));
    assert ShowsAt(boards, wallet, utxos, board);
  }

  lemma ActivityEntries(boards: Boards, chain: seq<Block>, wallet: Table, utxos: Utxos, a: string)
    requires BoardsMatch(boards, wallet, utxos) && Scratch(WalletRows, chain) == Ok(wallet)
    ensures EntryIs(boards, Board("mine", a), InChain(chain, MinedBy(a)), InChain(chain, MinesOf(a)))
    ensures EntryIs(boards, Board("burn", a), InChain(chain, BurnedBy(a)), InChain(chain, BurnsOf(a)))
  {
    BoardsWeigh(a);
    ActivityEntry(boards, chain, wallet, utxos, Board("mine", a), MinedBy(a), MinesOf(a));
    ActivityEntry(boards, chain, wallet, utxos, Board("burn", a), BurnedBy(a), BurnsOf(a));
  }

  lemma BalanceEntry(boards: Boards, wallet: Table, utxos: Utxos, a: string)
    requires BoardsMatch(boards, wallet, utxos)
    ensures EntryIs(boards, Board("balances", a), Held(utxos, a), Sum(utxos, HoldingsOf(a)))
  {
    var board := Board("balances", a);
    SumZero(wallet, RowAmount(board));
    SumZero(wallet, RowCount(board));
    SumSame(utxos, OutputAmount(board), HeldBy(a));
    SumSame(utxos, OutputCount(board), HoldingsOf(a));
    assert ShowsAt(boards, wallet, utxos, board);
  }

  /** The balance shown for an address; none is shown for one that holds nothing. */
  ghost function ShownBalance(boards: Boards, a: string): nat {
    if Board("balances", a) in boards then boards[Board("balances", a)].amount else 0
  }

  lemma BalanceShown(boards: Boards, wallet: Table, utxos: Utxos, a: string)
    requires BoardsMatch(boards, wallet, utxos)
    ensures ShownBalance(boards, a) == Held(utxos, a)
  {
    BalanceEntry(boards, wallet, utxos, a);
    if Sum(utxos, HoldingsOf(a)) == 0 {
      SumVanishes(utxos, HeldBy(a), HoldingsOf(a));
    }
  }

  lemma OtherBoards(boards: Boards, wallet: Table, utxos: Utxos, board: Board)
    requires BoardsMatch(boards, wallet, utxos) && board in boards
    ensures board.kind == "mine" || board.kind == "burn" || board.kind == "balances"
  {
    assert ShowsAt(boards, wallet, utxos, board);
    if board.kind != "mine" && board.kind != "burn" && board.kind != "balances" {
      SumZero(wallet, RowCount(board));
      SumZero(utxos, OutputCount(board));
    }
  }

  /** The leaderboards list exactly what each address mined, burned and holds. */
  lemma BoardsAreTotals(boards: Boards, chain: seq<Block>, wallet: Table, utxos: Utxos)
    requires BoardsMatch(boards, wallet, utxos) && Scratch(WalletRows, chain) == Ok(wallet)
    ensures forall a :: EntriesAre(boards, chain, utxos, a)
    ensures forall board :: board in boards ==> board.kind == "mine" || board.kind == "burn" || board.kind == "balances"
  {
    forall a
      ensures EntriesAre(boards, chain, utxos, a)
    {
      ActivityEntries(boards, chain, wallet, utxos, a);
      BalanceEntry(boards, wallet, utxos, a);
    }
    forall board | board in boards
      ensures board.kind == "mine" || board.kind == "burn" || board.kind == "balances"
    {
      OtherBoards(boards, wallet, utxos, board);
    }
  }
}
