/** Conservation address by address: what replaying a block adds to and takes from each address. */
module Balances {
  import opened Results
  import opened Maps
  import opened Transactions
  import opened Chain
  import opened Utxo
  import opened Metrics

  ghost function HeldBy(a: string): TxOutput -> nat {
    (output: TxOutput) => if output.address == a then output.amount else 0
  }

  /** What an address holds. */
  ghost function Held(utxos: Utxos, a: string): nat { Sum(utxos, HeldBy(a)) }

  /** What a list of outputs pays an address. */
  ghost function PaidIn(outputs: seq<TxOutput>, a: string): nat { Total(outputs, HeldBy(a)) }

  /** What the inputs an address signs for are worth. */
  ghost function SpentIn(utxos: Utxos, inputs: seq<TxInput>, a: string): nat {
    Total(inputs, Worth(utxos, a))
  }

  ghost function Worth(utxos: Utxos, a: string): TxInput -> nat {
    (input: TxInput) =>
      if input.owner == a && input.outpoint in utxos then utxos[input.outpoint].amount else 0
  }

  /** What a transaction pays an address: its outputs or change, or the mining reward. */
  ghost function PaidBy(tx: Transaction, a: string): nat {
    match tx
    case Transfer(_, outputs, _, _) => PaidIn(outputs, a)
    case Burn(_, change, _, _, _) => PaidIn(change, a)
    case Mine(recipient, _) => if recipient == a then MINE_REWARD else 0
  }

  ghost function SpentBy(utxos: Utxos, tx: Transaction, a: string): nat {
    match tx
    case Transfer(inputs, _, _, _) => SpentIn(utxos, inputs, a)
    case Burn(inputs, _, _, _, _) => SpentIn(utxos, inputs, a)
    case Mine(_, _) => 0
  }

  ghost function PaidByV2(tx: TransactionV2, a: string): nat {
    match tx
    case MigrationV2(_, outputs, _, _) => PaidIn(outputs, a)
    case TransferV2(_, outputs, _, _) => PaidIn(outputs, a)
    case BurnV2(_, change, _, _, _) => PaidIn(change, a)
    case MineV2(_, _) => 0
  }

  ghost function SpentByV2(utxos: Utxos, tx: TransactionV2, a: string): nat {
    match tx
    case MigrationV2(inputs, _, _, _) => SpentIn(utxos, inputs, a)
    case TransferV2(inputs, _, _, _) => SpentIn(utxos, inputs, a)
    case BurnV2(inputs, _, _, _, _) => SpentIn(utxos, inputs, a)
    case MineV2(_, _) => 0
  }

  // ----- one transaction

  lemma {:induction false} InputsKept(utxos: Utxos, p: OutPoint, inputs: seq<TxInput>, a: string)
    requires Spend(utxos - {p}, inputs).Ok?
    ensures SpentIn(utxos, inputs, a) == SpentIn(utxos - {p}, inputs, a)
    decreases |inputs|
  {
    InputsPresent(utxos - {p}, inputs);
    WorthSame(utxos, p, inputs, a);
  }

  lemma {:induction false} InputsPresent(utxos: Utxos, inputs: seq<TxInput>)
    requires Spend(utxos, inputs).Ok?
    ensures forall i :: 0 <= i < |inputs| ==> inputs[i].outpoint in utxos
    decreases |inputs|
  {
    if inputs != [] {
      InputsPresent(utxos - {inputs[0].outpoint}, inputs[1..]);
      forall i | 0 <= i < |inputs|
        ensures inputs[i].outpoint in utxos
      {
        assert i > 0 ==> inputs[i] == inputs[1..][i - 1];
      }
    }
  }

  lemma {:induction false} WorthSame(utxos: Utxos, p: OutPoint, inputs: seq<TxInput>, a: string)
    requires forall i :: 0 <= i < |inputs| ==> inputs[i].outpoint in utxos - {p}
    ensures Total(inputs, Worth(utxos, a)) == Total(inputs, Worth(utxos - {p}, a))
  {
    if inputs != [] {
      WorthSame(utxos, p, inputs[..|inputs| - 1], a);
    }
  }

  /** Spending takes from each address exactly what the inputs it signs for are worth. */
  lemma {:induction false} SpendTakesFrom(utxos: Utxos, inputs: seq<TxInput>, a: string)
    requires Spend(utxos, inputs).Ok?
    ensures Held(utxos, a) == SpentIn(utxos, inputs, a) + Held(Spend(utxos, inputs).value, a)
    decreases |inputs|
  {
    if inputs != [] {
      var first, p := inputs[0], inputs[0].outpoint;
      SumWithout(utxos, HeldBy(a), p);
      SpendTakesFrom(utxos - {p}, inputs[1..], a);
      InputsKept(utxos, p, inputs[1..], a);
      assert inputs == [first] + inputs[1..] && [first][..0] == [];
      TotalConcat([first], inputs[1..], Worth(utxos, a));
    }
  }

  ghost function CreatedFor(a: string): Created -> nat { (c: Created) => HeldBy(a)(c.output) }

  lemma {:induction false} CreditGivesTo(utxos: Utxos, created: seq<Created>, a: string)
    requires Credit(utxos, created).Ok?
    ensures Held(Credit(utxos, created).value, a) == Held(utxos, a) + Total(created, CreatedFor(a))
    decreases |created|
  {
    if created != [] {
      var first := created[0];
      SumPut(utxos, HeldBy(a), first.outpoint, first.output);
      CreditGivesTo(utxos[first.outpoint := first.output], created[1..], a);
      assert created == [first] + created[1..] && [first][..0] == [];
      TotalConcat([first], created[1..], CreatedFor(a));
    }
  }

  ghost function Allotted(a: string): Allocation -> nat {
    (allocation: Allocation) => if allocation.address == a then allocation.amount else 0
  }

  lemma OwnPays(own: seq<Created>, amount: nat, a: string)
    requires if amount == 0 then own == [] else |own| == 1 && own[0].output.amount == amount
    ensures Total(own, CreatedFor(a)) ==
            if own != [] && own[0].output.address == a then amount else 0
  {
    if own != [] {
      assert own[..|own| - 1] == [];
      assert Total(own[..|own| - 1], CreatedFor(a)) == 0;
      assert CreatedFor(a)(own[0]) == HeldBy(a)(own[0].output);
    }
  }

  lemma {:induction false} GenesisPays(allocations: seq<Allocation>, a: string)
    ensures Total(GenesisCreated(allocations), CreatedFor(a)) == Total(allocations, Allotted(a))
  {
    if allocations != [] {
      var first, rest := allocations[0], GenesisCreated(allocations[1..]);
      var own := if first.amount == 0 then []
                 else [Created(GenesisOutpoint(first.address), TxOutput(first.address, first.amount))];
      GenesisPays(allocations[1..], a);
      OwnPays(own, first.amount, a);
      TotalConcat(own, rest, CreatedFor(a));
      assert GenesisCreated(allocations) == own + rest;
      assert allocations == [first] + allocations[1..] && [first][..0] == [];
      TotalConcat([first], allocations[1..], Allotted(a));
    }
  }

  /** At genesis every address holds what it was allotted. */
  lemma GenesisHeld(allocations: seq<Allocation>, genesis: Utxos, a: string)
    requires Credit(map[], GenesisCreated(allocations)) == Ok(genesis)
    ensures Held(genesis, a) == Total(allocations, Allotted(a))
  {
    CreditGivesTo(map[], GenesisCreated(allocations), a);
    GenesisPays(allocations, a);
    assert Held(map[], a) == 0;
  }

  lemma {:induction false} OutputsPay(id: string, outputs: seq<TxOutput>, a: string)
    ensures Total(OutputsOf(id, outputs), CreatedFor(a)) == PaidIn(outputs, a)
  {
    if outputs != [] {
      var init := outputs[..|outputs| - 1];
      OutputsPay(id, init, a);
      assert OutputsOf(id, outputs)[..|outputs| - 1] == OutputsOf(id, init);
    }
  }

  lemma EffectFlows(utxos: Utxos, e: Effect, a: string)
    requires ApplyEffect(utxos, e).Ok?
    ensures Held(ApplyEffect(utxos, e).value, a) + SpentIn(utxos, e.inputs, a) == Held(utxos, a) + PaidIn(e.outputs, a)
  {
    SpendTakesFrom(utxos, e.inputs, a);
    CreditGivesTo(Spend(utxos, e.inputs).value, OutputsOf(e.id, e.outputs), a);
    OutputsPay(e.id, e.outputs, a);
  }

  // ----- one block

  /** What the legacy transactions take from an address, each valued when it is applied. */
  ghost function SpentTxs(utxos: Utxos, txs: seq<Transaction>, a: string): nat
    requires ReplayTxs(utxos, txs).Ok?
  {
    if txs == [] then 0
    else
      var init := txs[..|txs| - 1];
      SpentTxs(utxos, init, a) + SpentBy(ReplayTxs(utxos, init).value, txs[|txs| - 1], a)
  }

  ghost function SpentV2(utxos: Utxos, txs: seq<TransactionV2>, a: string): nat
    requires ReplayV2(utxos, txs).Ok?
  {
    if txs == [] then 0
    else
      var init := txs[..|txs| - 1];
      SpentV2(utxos, init, a) + SpentByV2(ReplayV2(utxos, init).value, txs[|txs| - 1], a)
  }

  ghost function Pays(a: string): Transaction -> nat { (tx: Transaction) => PaidBy(tx, a) }

  ghost function PaysV2(a: string): TransactionV2 -> nat { (tx: TransactionV2) => PaidByV2(tx, a) }

  lemma OneOutput(output: TxOutput, a: string)
    ensures PaidIn([output], a) == HeldBy(a)(output)
  {
    var outputs := [output];
    assert outputs[..|outputs| - 1] == [];
    assert Total(outputs[..|outputs| - 1], HeldBy(a)) == 0;
  }

  lemma {:induction false} TxsFlow(utxos: Utxos, txs: seq<Transaction>, a: string)
    requires ReplayTxs(utxos, txs).Ok?
    ensures Held(ReplayTxs(utxos, txs).value, a) + SpentTxs(utxos, txs, a) == Held(utxos, a) + Total(txs, Pays(a))
  {
    if txs != [] {
      var init, tx := txs[..|txs| - 1], txs[|txs| - 1];
      TxsFlow(utxos, init, a);
      EffectFlows(ReplayTxs(utxos, init).value, EffectOf(tx), a);
      if tx.Mine? {
        OneOutput(TxOutput(tx.recipient, MINE_REWARD), a);
      }
    }
  }

  lemma {:induction false} V2Flow(utxos: Utxos, txs: seq<TransactionV2>, a: string)
    requires ReplayV2(utxos, txs).Ok?
    ensures Held(ReplayV2(utxos, txs).value, a) + SpentV2(utxos, txs, a) == Held(utxos, a) + Total(txs, PaysV2(a))
  {
    if txs != [] {
      var init, tx := txs[..|txs| - 1], txs[|txs| - 1];
      V2Flow(utxos, init, a);
      EffectFlows(ReplayV2(utxos, init).value, EffectOfV2(tx).value, a);
    }
  }

  /** What a block's reward outputs pay an address. */
  ghost function Rewarded(body: Body, a: string): nat { Total(RewardOutputs(body), CreatedFor(a)) }

  lemma {:induction false} RewardsGiveTo(utxos: Utxos, created: seq<Created>, a: string)
    requires DistinctOutpoints(created) && forall i :: 0 <= i < |created| ==> created[i].outpoint !in utxos
    ensures Held(PutAll(utxos, created), a) == Held(utxos, a) + Total(created, CreatedFor(a))
  {
    if created != [] {
      var init, last := created[..|created| - 1], created[|created| - 1];
      RewardsGiveTo(utxos, init, a);
      PutKeys(utxos, init, last.outpoint);
      SumPut(PutAll(utxos, init), HeldBy(a), last.outpoint, last.output);
    }
  }

  lemma {:induction false} PutKeys(utxos: Utxos, created: seq<Created>, p: OutPoint)
    requires p !in utxos && forall i :: 0 <= i < |created| ==> created[i].outpoint != p
    ensures p !in PutAll(utxos, created)
  {
    if created != [] {
      PutKeys(utxos, created[..|created| - 1], p);
    }
  }

  /** What one block pays an address: transactions of both formats, and rewards. */
  ghost function PaidByBlock(a: string): Block -> nat {
    (block: Block) =>
      Total(block.body.transactions, Pays(a)) + Total(block.body.transactionsV2, PaysV2(a)) + Rewarded(block.body, a)
  }

  ghost function SpentInBlock(utxos: Utxos, body: Body, a: string): nat
    requires ReplayBody(utxos, body).Ok?
  {
    SpentTxs(utxos, body.transactions, a)
    + SpentV2(ReplayTxs(utxos, body.transactions).value, body.transactionsV2, a)
  }

  /** A block leaves an address with what it held and was paid, less what it spent. */
  lemma BlockFlow(utxos: Utxos, block: Block, a: string)
    requires ReplayBody(utxos, block.body).Ok?
    requires var legacy := ReplayTxs(utxos, block.body.transactions).value;
             RewardsFresh(ReplayV2(legacy, block.body.transactionsV2).value, block.body)
    ensures Held(ReplayBody(utxos, block.body).value, a) + SpentInBlock(utxos, block.body, a)
            == Held(utxos, a) + PaidByBlock(a)(block)
  {
    var body := block.body;
    TxsFlow(utxos, body.transactions, a);
    var legacy := ReplayTxs(utxos, body.transactions).value;
    V2Flow(legacy, body.transactionsV2, a);
    var both, rewards := ReplayV2(legacy, body.transactionsV2).value, RewardOutputs(body);
    RewardOutpointsDistinct(body);
    forall i | 0 <= i < |rewards|
      ensures rewards[i].outpoint !in both
    {
      assert rewards[i] in rewards;
    }
    RewardsGiveTo(both, rewards, a);
  }

  // ----- a chain

  ghost function SpentInChain(genesis: Utxos, chain: seq<Block>, end: nat, a: string): nat
    requires end <= |chain| && Replays(genesis, chain)
  {
    if end == 0 then 0
    else
      assert BlockReplays(genesis, chain, end - 1);
      SpentInChain(genesis, chain, end - 1, a)
      + SpentInBlock(Replay(genesis, chain, end - 1).value, chain[end - 1].body, a)
  }

  lemma LastBlockSpends(genesis: Utxos, chain: seq<Block>, end: nat, a: string, before: Utxos)
    requires 0 < end <= |chain| && Replays(genesis, chain) && Replay(genesis, chain, end - 1) == Ok(before)
    ensures ReplayBody(before, chain[end - 1].body).Ok?
    ensures SpentInChain(genesis, chain, end, a) ==
            SpentInChain(genesis, chain, end - 1, a) + SpentInBlock(before, chain[end - 1].body, a)
    ensures Replay(genesis, chain, end) == ReplayBody(before, chain[end - 1].body)
  {
    assert BlockReplays(genesis, chain, end - 1);
  }

  lemma LastBlockFlow(genesis: Utxos, chain: seq<Block>, end: nat, a: string, before: Utxos)
    requires 0 < end <= |chain| && Replays(genesis, chain) && Replay(genesis, chain, end - 1) == Ok(before)
    requires ReplayBody(before, chain[end - 1].body).Ok?
    ensures Held(ReplayBody(before, chain[end - 1].body).value, a) + SpentInBlock(before, chain[end - 1].body, a)
            == Held(before, a) + PaidByBlock(a)(chain[end - 1])
  {
    assert BlockReplays(genesis, chain, end - 1);
    BlockFlow(before, chain[end - 1], a);
  }

  lemma LastBlockPays(chain: seq<Block>, end: nat, pays: Block -> nat)
    requires 0 < end <= |chain|
    ensures Total(chain[..end], pays) == Total(chain[..end - 1], pays) + pays(chain[end - 1])
  {
    assert chain[..end][..end - 1] == chain[..end - 1];
  }

  /** What an address holds at a height is what genesis gave it and every block up to there paid it, less
      what it has spent. */
  lemma {:induction false} ChainFlow(genesis: Utxos, chain: seq<Block>, end: nat, a: string)
    requires end <= |chain| && Replays(genesis, chain)
    ensures Replay(genesis, chain, end).Ok?
    ensures Held(Replay(genesis, chain, end).value, a) + SpentInChain(genesis, chain, end, a)
            == Held(genesis, a) + Total(chain[..end], PaidByBlock(a))
  {
    if end > 0 {
      ChainFlow(genesis, chain, end - 1, a);
      var before := Replay(genesis, chain, end - 1).value;
      LastBlockSpends(genesis, chain, end, a, before);
      LastBlockFlow(genesis, chain, end, a, before);
      LastBlockPays(chain, end, PaidByBlock(a));
    }
  }
}
