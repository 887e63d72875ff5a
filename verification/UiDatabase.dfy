/** The UI database as a whole: the derived tables and the metrics tables, projected in two transactions. */
module UiDatabase {
  import opened Results
  import opened Chain
  import opened Utxo
  import opened UiOutputs
  import opened UiTables
  import opened UiDataStore
  import opened NodeLifecycle
  import Balances
  import Maps
  import Metrics
  import MetricsStore
  import WalletHistory
  import Store = ChainStore

  /** Crediting outputs that meet no others is putting them in. */
  lemma {:induction false} CreditIsPutAll(utxos: Utxos, created: seq<Created>)
    requires Credit(utxos, created).Ok?
    ensures Credit(utxos, created).value == PutAll(utxos, created)
    decreases |created|
  {
    if created != [] {
      CreditIsPutAll(utxos[created[0].outpoint := created[0].output], created[1..]);
      PutFirst(utxos, created);
    }
  }

  lemma {:induction false} PutFirst(utxos: Utxos, created: seq<Created>)
    requires created != []
    ensures PutAll(utxos, created) == PutAll(utxos[created[0].outpoint := created[0].output], created[1..])
  {
    var init := created[..|created| - 1];
    if init != [] {
      PutFirst(utxos, init);
      assert created[1..][..|created| - 2] == init[1..];
    }
  }

  lemma LedgerFlows(allocations: seq<Metrics.Allocation>, genesis: Utxos, chain: seq<Block>, utxos: Utxos, a: string)
    requires Credit(map[], Metrics.GenesisCreated(allocations)) == Ok(genesis) && Metrics.Replays(genesis, chain)
    requires SourceOf(allocations).ledger(chain) == Ok(utxos)
    ensures Balances.Held(utxos, a) + Balances.SpentInChain(genesis, chain, |chain|, a)
            == Maps.Total(allocations, Balances.Allotted(a)) + Maps.Total(chain, Balances.PaidByBlock(a))
  {
    CreditIsPutAll(map[], Metrics.GenesisCreated(allocations));
    Balances.GenesisHeld(allocations, genesis, a);
    Balances.ChainFlow(genesis, chain, |chain|, a);
    assert chain[..|chain|] == chain;
  }

  class UiDatabase {
    const tables: UiDataStore
    const metrics: MetricsStore.MetricsStore

    ghost predicate Valid()
      reads tables, metrics
    {
      tables.Valid() && metrics.Valid()
    }

    constructor (allocations: seq<Metrics.Allocation>, ghost named: Naming)
      requires NamedBy(Metrics.GenesisCreated(allocations), named)
      ensures Valid() && tables.projected == [] && metrics.projected == [] && tables.named == named
      ensures tables.src == SourceOf(allocations) && metrics.p == MetricsStore.ProjectionOf(allocations)
      ensures fresh(tables) && fresh(metrics)
    {
      tables := new UiDataStore(allocations, named);
      metrics := new MetricsStore.MetricsStore(allocations);
    }

    method ClearAll()
      requires Valid()
      modifies tables, metrics
      ensures Valid() && tables.projected == [] && metrics.projected == []
    {
      tables.ClearAll();
      metrics.ClearMetrics();
    }

    /** The metrics tables can be brought to the chain, or none are wanted. */
    ghost predicate MetricsGo(blocks: seq<Block>, keepMetrics: bool) {
      keepMetrics ==> MetricsStore.AllOk(MetricsStore.Rows(metrics.p, blocks))
    }

    /** Project a complete chain, its metrics first. A failure leaves the derived tables alone, but the
        metrics have already moved if only the second transaction failed. */
    method ProjectSnapshot(blocks: seq<Block>, ledgerUtxos: Utxos, keepMetrics: bool) returns (r: Outcome)
      requires Valid() && Linked(blocks) && BlocksNamed(blocks, tables.src.created, tables.named)
      requires tables.src.ledger(blocks) == Ok(ledgerUtxos)
      modifies tables, metrics
      ensures Valid()
      ensures r.Pass? <==> blocks != [] && MetricsGo(blocks, keepMetrics) && Projectable(blocks, tables.src)
      ensures r.Pass? ==> tables.projected == blocks && tables.utxos == ledgerUtxos
      ensures r.Fail? ==> unchanged(tables)
      ensures if blocks != [] && MetricsGo(blocks, keepMetrics)
              then metrics.projected == (if keepMetrics then blocks else [])
              else unchanged(metrics)
    {
      if blocks == [] {
        return Fail("chain snapshot is empty");
      }
      if keepMetrics {
        r := metrics.ProjectMetrics(blocks);
        if r.Fail? {
          return;
        }
      } else {
        metrics.ClearMetrics();
      }
      r := tables.ProjectSnapshot(blocks, ledgerUtxos);
    }

    /** Project a live ledger. Pruned, it clears the metrics in the same transaction. */
    method ProjectLedger(window: seq<Block>, pruned: bool, ledgerUtxos: Utxos, keepMetrics: bool,
                         store: Store.ChainStore, ghost live: seq<Block>, ghost tailStart: nat)
      returns (r: Outcome)
      requires Valid() && store.Valid() && Linked(live) && BlocksNamed(live, tables.src.created, tables.named)
      requires WindowFits(live, tailStart) && window == Window(live, tailStart) && (pruned <==> tailStart > 1)
      requires tables.src.ledger(live) == Ok(ledgerUtxos)
      modifies tables, metrics
      ensures Valid()
      ensures r.Pass? <==>
                && Projectable(live, tables.src)
                && if pruned then
                     !keepMetrics
                     && Continues(old(tables.projected), old(tables.oldest), store.contents, live, tailStart)
                   else MetricsGo(live, keepMetrics)
      ensures r.Pass? ==> tables.projected == live && tables.utxos == ledgerUtxos
      ensures r.Pass? ==> metrics.projected == if keepMetrics then live else []
      ensures r.Fail? ==> unchanged(tables) && (pruned ==> unchanged(metrics))
    {
      if !pruned {
        WholeWindow(live);
        r := ProjectSnapshot(window, ledgerUtxos, keepMetrics);
        return;
      }
      if keepMetrics {
        return Fail("metrics projection requires complete resident chain history");
      }
      r := tables.ProjectPruned(window, ledgerUtxos, store, live, tailStart);
      if r.Pass? {
        metrics.ClearMetrics();
      }
    }

    /** The balance the leaderboards show for an address is what genesis and the projected chain paid it
        less what it has spent; none is shown exactly if nothing is left. */
    lemma BalancesAreFlows(allocations: seq<Metrics.Allocation>, genesis: Utxos, a: string)
      requires Valid() && tables.projected != [] && tables.src == SourceOf(allocations)
      requires Credit(map[], Metrics.GenesisCreated(allocations)) == Ok(genesis)
      requires Metrics.Replays(genesis, tables.projected)
      ensures var chain := tables.projected;
              WalletHistory.ShownBalance(tables.tables.boards, a) + Balances.SpentInChain(genesis, chain, |chain|, a)
              == Maps.Total(allocations, Balances.Allotted(a)) + Maps.Total(chain, Balances.PaidByBlock(a))
    {
      LedgerFlows(allocations, genesis, tables.projected, tables.utxos, a);
      WalletHistory.BalanceShown(tables.tables.boards, tables.tables.wallet, tables.utxos, a);
    }

    /** The two halves agree: once both hold the same chain, the last metrics row's circulating supply is
        the value, and its output count the number, of the rows of the unspent-output table. */
    lemma SupplyIsTheUtxoTable(allocations: seq<Metrics.Allocation>, genesis: Utxos)
      requires Valid() && tables.projected == metrics.projected != []
      requires tables.src == SourceOf(allocations) && metrics.p == MetricsStore.ProjectionOf(allocations)
      requires Credit(map[], Metrics.GenesisCreated(allocations)) == Ok(genesis)
      requires Metrics.Replays(genesis, tables.projected)
      ensures var tip := |tables.projected| - 1;
              && tip in metrics.rows && metrics.rows[tip].tally.supply == Value(tables.utxos)
              && metrics.rows[tip].tally.utxoCount == |tables.utxos|
    {
      var chain := tables.projected;
      CreditIsPutAll(map[], Metrics.GenesisCreated(allocations));
      MetricsStore.SupplyIsConserved(allocations, genesis, chain);
      assert MetricsStore.ConservedAt(allocations, genesis, chain, |chain| - 1);
    }
  }
}
