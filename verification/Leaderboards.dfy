/** The leaderboards: running totals added to and taken from in place, against sums over the tables. */
module Leaderboards {
  import opened Results
  import opened Transactions
  import opened Utxo
  import opened UiRows
  import opened Maps

  datatype Board = Board(kind: string, address: string)

  datatype Entry = Entry(amount: nat, count: nat)

  datatype Posting = Posting(board: Board, amount: nat)

  type Boards = map<Board, Entry>

  /** What a wallet row contributes: mined and burned amounts, not transfers or rewards. */
  function RowPosting(row: Row): Option<Posting> {
    match row.content
    case Legacy(tx) =>
      (match tx
       case Mine(_, _) => Some(Posting(Board("mine", row.key.address), MINE_REWARD))
       case Burn(_, _, amount, _, _) => Some(Posting(Board("burn", row.key.address), amount))
       case Transfer(_, _, _, _) => None)
    case _ => None
  }

  function OutputPosting(output: TxOutput): Option<Posting> {
    if output.amount == 0 then None else Some(Posting(Board("balances", output.address), output.amount))
  }

  // ----- the reference: sums over the tables

  function AmountOn(posting: Option<Posting>, board: Board): nat {
    if posting.Some? && posting.value.board == board then posting.value.amount else 0
  }

  function CountOn(posting: Option<Posting>, board: Board): nat {
    if posting.Some? && posting.value.board == board then 1 else 0
  }

  function RowAmount(board: Board): Row -> nat { row => AmountOn(RowPosting(row), board) }
  function RowCount(board: Board): Row -> nat { row => CountOn(RowPosting(row), board) }
  function OutputAmount(board: Board): TxOutput -> nat { output => AmountOn(OutputPosting(output), board) }
  function OutputCount(board: Board): TxOutput -> nat { output => CountOn(OutputPosting(output), board) }

  /** The number of postings on a board, over both tables. */
  ghost function Count(wallet: Table, utxos: Utxos, board: Board): nat {
    Sum(wallet, RowCount(board)) + Sum(utxos, OutputCount(board))
  }

  ghost function Amount(wallet: Table, utxos: Utxos, board: Board): nat {
    Sum(wallet, RowAmount(board)) + Sum(utxos, OutputAmount(board))
  }

  /** The board lists an address exactly when it has a posting, with its total. */
  ghost predicate Shows(boards: Boards, board: Board, amount: nat, count: nat) {
    && (board in boards <==> count > 0)
    && (board in boards ==> boards[board].amount == amount && boards[board].count == count)
    && (count == 0 ==> amount == 0)
  }

  ghost predicate ShowsAt(boards: Boards, wallet: Table, utxos: Utxos, board: Board) {
    Shows(boards, board, Amount(wallet, utxos, board), Count(wallet, utxos, board))
  }

  ghost predicate BoardsMatch(boards: Boards, wallet: Table, utxos: Utxos) {
    forall board {:trigger ShowsAt(boards, wallet, utxos, board)} :: ShowsAt(boards, wallet, utxos, board)
  }

  /** The totals determine the boards. */
  lemma BoardsUnique(a: Boards, b: Boards, wallet: Table, utxos: Utxos)
    requires BoardsMatch(a, wallet, utxos) && BoardsMatch(b, wallet, utxos)
    ensures a == b
  {
    forall board
      ensures board in a <==> board in b
      ensures board in a ==> a[board] == b[board]
    {
      assert ShowsAt(a, wallet, utxos, board) && ShowsAt(b, wallet, utxos, board);
    }
  }

  lemma EmptyBoards()
    ensures BoardsMatch(map[], map[], map[])
  {
  }

  // ----- adding

  function Add(boards: Boards, posting: Option<Posting>): Boards {
    if posting.None? then boards
    else
      var entry := if posting.value.board in boards then boards[posting.value.board] else Entry(0, 0);
      boards[posting.value.board := Entry(entry.amount + posting.value.amount, entry.count + 1)]
  }

  lemma AddShows(boards: Boards, board: Board, amount: nat, count: nat, posting: Option<Posting>)
    requires Shows(boards, board, amount, count)
    ensures Shows(Add(boards, posting), board, AmountOn(posting, board) + amount, CountOn(posting, board) + count)
  {
  }

  lemma AddRow(boards: Boards, wallet: Table, utxos: Utxos, row: Row)
    requires BoardsMatch(boards, wallet, utxos) && row.key !in wallet
    ensures BoardsMatch(Add(boards, RowPosting(row)), wallet[row.key := row], utxos)
  {
    var after, longer := Add(boards, RowPosting(row)), wallet[row.key := row];
    forall board
      ensures ShowsAt(after, longer, utxos, board)
    {
      assert ShowsAt(boards, wallet, utxos, board);
      SumPut(wallet, RowAmount(board), row.key, row);
      SumPut(wallet, RowCount(board), row.key, row);
      AddShows(boards, board, Amount(wallet, utxos, board), Count(wallet, utxos, board), RowPosting(row));
    }
  }

  lemma AddOutput(boards: Boards, wallet: Table, utxos: Utxos, p: OutPoint, output: TxOutput)
    requires BoardsMatch(boards, wallet, utxos) && p !in utxos
    ensures BoardsMatch(Add(boards, OutputPosting(output)), wallet, utxos[p := output])
  {
    var after, larger := Add(boards, OutputPosting(output)), utxos[p := output];
    forall board
      ensures ShowsAt(after, wallet, larger, board)
    {
      assert ShowsAt(boards, wallet, utxos, board);
      SumPut(utxos, OutputAmount(board), p, output);
      SumPut(utxos, OutputCount(board), p, output);
      AddShows(boards, board, Amount(wallet, utxos, board), Count(wallet, utxos, board), OutputPosting(output));
    }
  }

  /** Inserting row `k` after those before it, when all of them go in. */
  lemma InsertNext(wallet: Table, rows: seq<Row>, k: nat, t: Table)
    requires k < |rows| && InsertAll(wallet, rows).Ok? && InsertAll(wallet, rows[..k]) == Ok(t)
    ensures rows[k].key !in t && InsertAll(wallet, rows[..k + 1]) == Ok(t[rows[k].key := rows[k]])
  {
    assert rows == rows[..k + 1] + rows[k + 1..];
    InsertConcat(wallet, rows[..k + 1], rows[k + 1..]);
    assert rows[..k + 1][..k] == rows[..k];
  }

  /** Accumulate the activity of rows that are about to be inserted. */
  method AccumulateActivity(boards: Boards, rows: seq<Row>, ghost wallet: Table, ghost utxos: Utxos) returns (r: Boards)
    requires BoardsMatch(boards, wallet, utxos) && InsertAll(wallet, rows).Ok?
    ensures BoardsMatch(r, InsertAll(wallet, rows).value, utxos)
  {
    r := boards;
    ghost var t := wallet;
    for k := 0 to |rows|
      invariant InsertAll(wallet, rows[..k]) == Ok(t) && BoardsMatch(r, t, utxos)
    {
      InsertNext(wallet, rows, k, t);
      AddRow(r, t, utxos, rows[k]);
      r, t := Add(r, RowPosting(rows[k])), t[rows[k].key := rows[k]];
    }
    assert rows[..|rows|] == rows;
  }

  /** Accumulate the balances of the unspent outputs, in whatever order they are listed. */
  method AccumulateBalances(boards: Boards, utxos: Utxos, ghost wallet: Table) returns (r: Boards)
    requires BoardsMatch(boards, wallet, map[])
    ensures BoardsMatch(r, wallet, utxos)
  {
    r := boards;
    var pending := utxos.Keys;
    ghost var done: Utxos := map[];
    while pending != {}
      invariant pending <= utxos.Keys && done == utxos - pending
      invariant BoardsMatch(r, wallet, done)
    {
      var p :| p in pending;
      AddOutput(r, wallet, done, p, utxos[p]);
      r := Add(r, OutputPosting(utxos[p]));
      pending, done := pending - {p}, done[p := utxos[p]];
    }
    assert utxos - {} == utxos;
  }

  // ----- taking back

  function Remove(boards: Boards, posting: Option<Posting>): Boards {
    if posting.None? || posting.value.board !in boards then boards
    else
      var board := posting.value.board;
      var entry := Entry(SaturatingSub(boards[board].amount, posting.value.amount),
          SaturatingSub(boards[board].count, 1));
      if entry.count == 0 then boards - {board} else boards[board := entry]
  }

  /** Neither saturating subtraction clips. */
  predicate Covered(boards: Boards, posting: Option<Posting>) {
    posting.Some? ==>
      && posting.value.board in boards
      && posting.value.amount <= boards[posting.value.board].amount
      && 1 <= boards[posting.value.board].count
  }

  lemma RemoveShows(boards: Boards, board: Board, amount: nat, count: nat, posting: Option<Posting>)
    requires Shows(boards, board, AmountOn(posting, board) + amount, CountOn(posting, board) + count)
    requires count == 0 ==> amount == 0
    ensures Shows(Remove(boards, posting), board, amount, count)
    ensures posting.Some? && posting.value.board == board ==> Covered(boards, posting)
  {
  }

  lemma NoCountNoAmount(wallet: Table, utxos: Utxos, board: Board)
    ensures Count(wallet, utxos, board) == 0 ==> Amount(wallet, utxos, board) == 0
  {
    if Count(wallet, utxos, board) == 0 {
      SumVanishes(wallet, RowAmount(board), RowCount(board));
      SumVanishes(utxos, OutputAmount(board), OutputCount(board));
    }
  }

  /** Taking a row's posting back gives the totals of the table without the row, and never clips. */
  lemma RemoveRow(boards: Boards, wallet: Table, utxos: Utxos, k: RowKey)
    requires BoardsMatch(boards, wallet, utxos) && k in wallet
    ensures BoardsMatch(Remove(boards, RowPosting(wallet[k])), wallet - {k}, utxos)
    ensures Covered(boards, RowPosting(wallet[k]))
  {
    var posting := RowPosting(wallet[k]);
    var after, shorter := Remove(boards, posting), wallet - {k};
    forall board
      ensures ShowsAt(after, shorter, utxos, board)
      ensures posting.Some? && posting.value.board == board ==> Covered(boards, posting)
    {
      assert ShowsAt(boards, wallet, utxos, board);
      SumWithout(wallet, RowAmount(board), k);
      SumWithout(wallet, RowCount(board), k);
      NoCountNoAmount(shorter, utxos, board);
      RemoveShows(boards, board, Amount(shorter, utxos, board), Count(shorter, utxos, board), posting);
    }
    assert posting.Some? ==> ShowsAt(after, shorter, utxos, posting.value.board);
  }

  /** Take back the activity of every row above the fork, in whatever order the rows are listed. */
  method RewindActivity(boards: Boards, wallet: Table, fork: nat, ghost utxos: Utxos) returns (r: Boards)
    requires BoardsMatch(boards, wallet, utxos)
    ensures BoardsMatch(r, Until(wallet, fork), utxos)
  {
    r := boards;
    var abandoned := set k | k in wallet && wallet[k].height > fork;
    ghost var rest := wallet;
    while abandoned != {}
      invariant abandoned <= rest.Keys && BoardsMatch(r, rest, utxos)
      invariant Until(wallet, fork) == rest - abandoned
      invariant forall k :: k in rest ==> k in wallet && rest[k] == wallet[k]
    {
      var k :| k in abandoned;
      RemoveRow(r, rest, utxos, k);
      assert Covered(r, RowPosting(wallet[k]));
      r := Remove(r, RowPosting(wallet[k]));
      assert rest - abandoned == (rest - {k}) - (abandoned - {k});
      abandoned, rest := abandoned - {k}, rest - {k};
    }
    assert rest - {} == rest;
  }

  // ----- what is kept between projections

  function Activity(boards: Boards): Boards {
    map b | b in boards && b.kind != "balances" :: boards[b]
  }

  /** Reading back everything but the balances gives the activity totals alone. */
  lemma ActivityOnly(boards: Boards, wallet: Table, utxos: Utxos)
    requires BoardsMatch(boards, wallet, utxos)
    ensures BoardsMatch(Activity(boards), wallet, map[])
  {
    forall board
      ensures ShowsAt(Activity(boards), wallet, map[], board)
    {
      assert ShowsAt(boards, wallet, utxos, board);
      if board.kind == "balances" {
        SumZero(wallet, RowAmount(board));
        SumZero(wallet, RowCount(board));
      } else {
        SumZero(utxos, OutputAmount(board));
        SumZero(utxos, OutputCount(board));
      }
    }
  }
}
