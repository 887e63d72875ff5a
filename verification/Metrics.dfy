/** The metrics rows: per-block totals kept incrementally, truncated to the common ancestor on a reorg. */
module Metrics {
  import opened Results
  import opened Transactions
  import opened Chain
  import opened Utxo

  datatype Tally = Tally(supply: nat, utxoCount: nat, transfers: nat, burns: nat, mines: nat, burned: nat, fees: nat)

  datatype Metric = Metric(height: nat, hash: Hash, timestamp: nat, blockTime: Option<nat>, tally: Tally,
                           knownAddresses: nat, transactionCount: nat, totalBurned: nat, reward: nat)

  function CheckedSub(a: nat, b: nat): Result<nat> {
    if b <= a then Ok(a - b) else Err("underflow")
  }

  /** One input/output exchange: value leaves first, then the counters move; every subtraction is checked. */
  function Exchange(t: Tally, spent: nat, created: nat, amount: nat, fee: nat): Result<Tally> {
    var count := CheckedSub(t.utxoCount, spent);
    if count.Err? then Err(count.reason) else
    var kept := CheckedSub(t.supply, amount);
    if kept.Err? then Err(kept.reason) else
    var supply := CheckedSub(kept.value, fee);
    if supply.Err? then Err(supply.reason) else
    Ok(t.(utxoCount := count.value + created, supply := supply.value, burned := t.burned + amount))
  }

  function CountTx(t: Tally, tx: Transaction): Result<Tally> {
    match tx
    case Transfer(inputs, outputs, fee, _) =>
      Exchange(t.(transfers := t.transfers + 1, fees := t.fees + fee), |inputs|, |outputs|, 0, fee)
    case Burn(inputs, change, amount, fee, _) =>
      Exchange(t.(burns := t.burns + 1, fees := t.fees + fee), |inputs|, |change|, amount, fee)
    case Mine(_, _) =>
      Ok(t.(mines := t.mines + 1, fees := t.fees + MINE_FINALIZER_FEE,
            utxoCount := t.utxoCount + 1, supply := t.supply + MINE_REWARD))
  }

  function CountTxV2(t: Tally, tx: TransactionV2): Result<Tally> {
    match tx
    case MigrationV2(inputs, outputs, fee, _) =>
      Exchange(t.(transfers := t.transfers + 1, fees := t.fees + fee), |inputs|, |outputs|, 0, fee)
    case TransferV2(inputs, outputs, fee, _) =>
      Exchange(t.(transfers := t.transfers + 1, fees := t.fees + fee), |inputs|, |outputs|, 0, fee)
    case BurnV2(inputs, change, amount, fee, _) =>
      Exchange(t.(burns := t.burns + 1, fees := t.fees + fee), |inputs|, |change|, amount, fee)
    case MineV2(_, _) => Ok(t.(mines := t.mines + 1))
  }

  function CountTxs(t: Tally, txs: seq<Transaction>): Result<Tally> {
    if txs == [] then Ok(t)
    else
      var before := CountTxs(t, txs[..|txs| - 1]);
      if before.Err? then before else CountTx(before.value, txs[|txs| - 1])
  }

  function CountTxsV2(t: Tally, txs: seq<TransactionV2>): Result<Tally> {
    if txs == [] then Ok(t)
    else
      var before := CountTxsV2(t, txs[..|txs| - 1]);
      if before.Err? then before else CountTxV2(before.value, txs[|txs| - 1])
  }

  /** The tally matches the replayed set of unspent outputs. */
  ghost predicate Tracks(t: Tally, utxos: Utxos) {
    t.supply == Value(utxos) && t.utxoCount == |utxos|
  }

  lemma ExchangeTracks(t: Tally, utxos: Utxos, e: Effect, amount: nat, fee: nat)
    requires Tracks(t, utxos) && ApplyEffect(utxos, e).Ok? && e.leaving == amount + fee && e.minted == 0
    ensures Exchange(t, |e.inputs|, |e.outputs|, amount, fee).Ok?
    ensures Tracks(Exchange(t, |e.inputs|, |e.outputs|, amount, fee).value, ApplyEffect(utxos, e).value)
  {
    EffectConserves(utxos, e);
  }

  /** On transactions the ledger applies, no checked subtraction fails and the tally keeps matching. */
  lemma {:induction false} CountTxsTracks(t: Tally, utxos: Utxos, txs: seq<Transaction>)
    requires Tracks(t, utxos) && ReplayTxs(utxos, txs).Ok?
    ensures CountTxs(t, txs).Ok? && Tracks(CountTxs(t, txs).value, ReplayTxs(utxos, txs).value)
  {
    if txs != [] {
      var init, tx := txs[..|txs| - 1], txs[|txs| - 1];
      CountTxsTracks(t, utxos, init);
      var mid, at := ReplayTxs(utxos, init).value, CountTxs(t, init).value;
      match tx
      case Transfer(_, _, fee, _) =>
        ExchangeTracks(at.(transfers := at.transfers + 1, fees := at.fees + fee), mid, EffectOf(tx), 0, fee);
      case Burn(_, _, amount, fee, _) =>
        ExchangeTracks(at.(burns := at.burns + 1, fees := at.fees + fee), mid, EffectOf(tx), amount, fee);
      case Mine(_, _) =>
        EffectConserves(mid, EffectOf(tx));
    }
  }

  lemma {:induction false} CountTxsV2Tracks(t: Tally, utxos: Utxos, txs: seq<TransactionV2>)
    requires Tracks(t, utxos) && ReplayV2(utxos, txs).Ok?
    ensures CountTxsV2(t, txs).Ok? && Tracks(CountTxsV2(t, txs).value, ReplayV2(utxos, txs).value)
  {
    if txs != [] {
      var init, tx := txs[..|txs| - 1], txs[|txs| - 1];
      CountTxsV2Tracks(t, utxos, init);
      var mid, at := ReplayV2(utxos, init).value, CountTxsV2(t, init).value;
      match tx
      case MigrationV2(_, _, fee, _) =>
        ExchangeTracks(at.(transfers := at.transfers + 1, fees := at.fees + fee), mid, EffectOfV2(tx).value, 0, fee);
      case TransferV2(_, _, fee, _) =>
        ExchangeTracks(at.(transfers := at.transfers + 1, fees := at.fees + fee), mid, EffectOfV2(tx).value, 0, fee);
      case BurnV2(_, _, amount, fee, _) =>
        ExchangeTracks(at.(burns := at.burns + 1, fees := at.fees + fee), mid, EffectOfV2(tx).value, amount, fee);
    }
  }

  // ----- one row from the previous one

  datatype Allocation = Allocation(address: string, amount: nat)

  function GenesisCreated(allocations: seq<Allocation>): seq<Created> {
    if allocations == [] then []
    else
      (if allocations[0].amount == 0 then []
       else [Created(GenesisOutpoint(allocations[0].address), TxOutput(allocations[0].address, allocations[0].amount))])
      + GenesisCreated(allocations[1..])
  }

  function GenesisSupply(allocations: seq<Allocation>): nat {
    if allocations == [] then 0 else allocations[0].amount + GenesisSupply(allocations[1..])
  }

  function GenesisCount(allocations: seq<Allocation>): nat {
    if allocations == [] then 0 else (if allocations[0].amount > 0 then 1 else 0) + GenesisCount(allocations[1..])
  }

  /** The metrics row of `block`, from the row before it; `known` is the address count so far. */
  function NextMetric(allocations: seq<Allocation>, block: Block, previous: Option<Metric>,
                      known: nat): Result<Metric> {
    var start := match previous
                 case Some(p) => Tally(p.tally.supply, p.tally.utxoCount, 0, 0, 0, 0, 0)
                 case None => Tally(GenesisSupply(allocations), GenesisCount(allocations), 0, 0, 0, 0, 0);
    var legacy := CountTxs(start, block.body.transactions);
    if legacy.Err? then Err(legacy.reason) else
    var both := CountTxsV2(legacy.value, block.body.transactionsV2);
    if both.Err? then Err(both.reason) else
    Ok(FinishMetric(both.value, block, previous, known))
  }

  function FinishMetric(t: Tally, block: Block, previous: Option<Metric>, known: nat): Metric {
    Metric(block.height, block.hash, block.body.timestamp,
           if previous.Some? then Some(SaturatingSub(block.body.timestamp, previous.value.timestamp)) else None,
           t.(supply := t.supply + block.body.reward, utxoCount := t.utxoCount + |RewardOutputs(block.body)|),
           known,
           |block.body.transactions| + |block.body.transactionsV2|,
           (if previous.Some? then previous.value.totalBurned else 0) + t.burned,
           block.body.reward)
  }

  method CountLegacy(start: Tally, txs: seq<Transaction>) returns (r: Result<Tally>)
    ensures r == CountTxs(start, txs)
  {
    var t := start;
    for k := 0 to |txs|
      invariant CountTxs(start, txs[..k]) == Ok(t)
    {
      assert txs[..k + 1][..k] == txs[..k];
      r := CountTx(t, txs[k]);
      if r.Err? {
        CountTxsFails(start, txs, k + 1);
        return;
      }
      t := r.value;
    }
    assert txs[..|txs|] == txs;
    return Ok(t);
  }

  method CountEnvelopes(start: Tally, txs: seq<TransactionV2>) returns (r: Result<Tally>)
    ensures r == CountTxsV2(start, txs)
  {
    var t := start;
    for k := 0 to |txs|
      invariant CountTxsV2(start, txs[..k]) == Ok(t)
    {
      assert txs[..k + 1][..k] == txs[..k];
      r := CountTxV2(t, txs[k]);
      if r.Err? {
        CountTxsV2Fails(start, txs, k + 1);
        return;
      }
      t := r.value;
    }
    assert txs[..|txs|] == txs;
    return Ok(t);
  }

  /** The loops over a block's transactions compute exactly that row. */
  method IncrementalMetricForBlock(allocations: seq<Allocation>, block: Block, previous: Option<Metric>, known: nat)
    returns (r: Result<Metric>)
    ensures r == NextMetric(allocations, block, previous, known)
  {
    var start := Tally(GenesisSupply(allocations), GenesisCount(allocations), 0, 0, 0, 0, 0);
    if previous.Some? {
      start := start.(supply := previous.value.tally.supply, utxoCount := previous.value.tally.utxoCount);
    }
    var legacy := CountLegacy(start, block.body.transactions);
    if legacy.Err? {
      return Err(legacy.reason);
    }
    var both := CountEnvelopes(legacy.value, block.body.transactionsV2);
    if both.Err? {
      return Err(both.reason);
    }
    return Ok(FinishMetric(both.value, block, previous, known));
  }

  lemma {:induction false} CountTxsFails(t: Tally, txs: seq<Transaction>, k: nat)
    requires k <= |txs| && CountTxs(t, txs[..k]).Err?
    ensures CountTxs(t, txs) == CountTxs(t, txs[..k])
  {
    if k < |txs| {
      assert txs[..|txs| - 1][..k] == txs[..k];
      CountTxsFails(t, txs[..|txs| - 1], k);
    } else {
      assert txs[..k] == txs;
    }
  }

  lemma {:induction false} CountTxsV2Fails(t: Tally, txs: seq<TransactionV2>, k: nat)
    requires k <= |txs| && CountTxsV2(t, txs[..k]).Err?
    ensures CountTxsV2(t, txs) == CountTxsV2(t, txs[..k])
  {
    if k < |txs| {
      assert txs[..|txs| - 1][..k] == txs[..k];
      CountTxsV2Fails(t, txs[..|txs| - 1], k);
    } else {
      assert txs[..k] == txs;
    }
  }

  // ----- conservation

  /** Attestations are in slot order and no unspent output carries the new block's own id yet. */
  ghost predicate RewardsFresh(utxos: Utxos, body: Body) {
    InSlotOrder(body.attestations) && forall p :: p in utxos ==> p.txid != body.hashText
  }

  lemma {:induction false} RewardsCredited(utxos: Utxos, created: seq<Created>)
    requires DistinctOutpoints(created)
    requires forall i :: 0 <= i < |created| ==> created[i].outpoint !in utxos
    ensures Value(PutAll(utxos, created)) == Value(utxos) + SumCreated(created)
    ensures |PutAll(utxos, created)| == |utxos| + |created|
    ensures forall p :: p in PutAll(utxos, created) ==>
            p in utxos || exists i :: 0 <= i < |created| && created[i].outpoint == p
  {
    if created != [] {
      var init, last := created[..|created| - 1], created[|created| - 1];
      RewardsCredited(utxos, init);
      ValueWith(PutAll(utxos, init), last.outpoint, last.output);
      SumCreatedConcat(init, [last]);
      assert created == init + [last];
    }
  }

  /** Every block of the chain replays, with fresh reward ids. */
  ghost predicate Replays(genesis: Utxos, chain: seq<Block>) {
    forall h :: 0 <= h < |chain| ==> BlockReplays(genesis, chain, h)
  }

  ghost predicate BlockReplays(genesis: Utxos, chain: seq<Block>, h: nat)
    requires h < |chain|
  {
    && Replay(genesis, chain, h).Ok?
    && ReplayBody(Replay(genesis, chain, h).value, chain[h].body).Ok?
    && var legacy := ReplayTxs(Replay(genesis, chain, h).value, chain[h].body.transactions).value;
       RewardsFresh(ReplayV2(legacy, chain[h].body.transactionsV2).value, chain[h].body)
  }

  /** Conservation at one block: the new row's supply and count are those of the replayed outputs. */
  lemma NextMetricTracks(allocations: seq<Allocation>, utxos: Utxos, block: Block, previous: Option<Metric>, known: nat)
    requires ReplayBody(utxos, block.body).Ok?
    requires var legacy := ReplayTxs(utxos, block.body.transactions).value;
             RewardsFresh(ReplayV2(legacy, block.body.transactionsV2).value, block.body)
    requires if previous.Some? then Tracks(previous.value.tally, utxos)
             else GenesisSupply(allocations) == Value(utxos) && GenesisCount(allocations) == |utxos|
    ensures NextMetric(allocations, block, previous, known).Ok?
    ensures Tracks(NextMetric(allocations, block, previous, known).value.tally, ReplayBody(utxos, block.body).value)
  {
    var start := match previous
                 case Some(p) => Tally(p.tally.supply, p.tally.utxoCount, 0, 0, 0, 0, 0)
                 case None => Tally(GenesisSupply(allocations), GenesisCount(allocations), 0, 0, 0, 0, 0);
    CountTxsTracks(start, utxos, block.body.transactions);
    var legacy := ReplayTxs(utxos, block.body.transactions).value;
    CountTxsV2Tracks(CountTxs(start, block.body.transactions).value, legacy, block.body.transactionsV2);
    var both := ReplayV2(legacy, block.body.transactionsV2).value;
    RewardOutpointsDistinct(block.body);
    var rewards := RewardOutputs(block.body);
    forall i | 0 <= i < |rewards|
      ensures rewards[i].outpoint !in both
    {
      assert rewards[i] in rewards;
    }
    RewardsCredited(both, rewards);
    RewardIsPaidOut(block.body);
  }

  // ----- addresses

  function InputOwners(inputs: seq<TxInput>): set<string> {
    set i | 0 <= i < |inputs| :: inputs[i].owner
  }

  function OutputAddresses(outputs: seq<TxOutput>): set<string> {
    set i | 0 <= i < |outputs| :: outputs[i].address
  }

  function TransactionAddresses(tx: Transaction): set<string> {
    match tx
    case Transfer(inputs, outputs, _, _) => InputOwners(inputs) + OutputAddresses(outputs)
    case Burn(inputs, change, _, _, _) => InputOwners(inputs) + OutputAddresses(change)
    case Mine(recipient, _) => {recipient}
  }

  function BlockAddresses(body: Body): set<string> {
    {body.miner}
    + (set i | 0 <= i < |body.attestations| :: body.attestations[i].member)
    + (set i, a | 0 <= i < |body.transactions| && a in TransactionAddresses(body.transactions[i]) :: a)
  }

  function GenesisKnown(allocations: seq<Allocation>): map<string, nat> {
    map i | 0 <= i < |allocations| :: allocations[i].address := 0
  }

  lemma GenesisTracks(allocations: seq<Allocation>, genesis: Utxos)
    requires Credit(map[], GenesisCreated(allocations)) == Ok(genesis)
    ensures GenesisSupply(allocations) == Value(genesis) && GenesisCount(allocations) == |genesis|
  {
    CreditGives(map[], GenesisCreated(allocations));
    GenesisSums(allocations);
    assert Value(map[]) == 0;
  }

  lemma {:induction false} GenesisSums(allocations: seq<Allocation>)
    ensures SumCreated(GenesisCreated(allocations)) == GenesisSupply(allocations)
    ensures |GenesisCreated(allocations)| == GenesisCount(allocations)
  {
    if allocations != [] {
      GenesisSums(allocations[1..]);
      SumCreatedConcat(GenesisCreated(allocations)[..if allocations[0].amount == 0 then 0 else 1],
          GenesisCreated(allocations[1..]));
      assert GenesisCreated(allocations) ==
             GenesisCreated(allocations)[..if allocations[0].amount == 0 then 0 else 1]
                 + GenesisCreated(allocations[1..]);
    }
  }
}
