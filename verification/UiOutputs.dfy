/** The output index: which outputs a block creates, and why every unspent output is indexed. */
module UiOutputs {
  import opened Results
  import opened Transactions
  import opened Chain
  import opened Utxo

  /** An outpoint names one output: ids are signatures or hashes over what they name. */
  type Naming = OutPoint -> TxOutput

  /** The outputs a block creates. */
  type Creation = Block -> seq<Created>

  function CreatedByTxs(txs: seq<Transaction>): seq<Created> {
    if txs == [] then []
    else
      var e := EffectOf(txs[|txs| - 1]);
      CreatedByTxs(txs[..|txs| - 1]) + OutputsOf(e.id, e.outputs)
  }

  function CreatedByV2(txs: seq<TransactionV2>): seq<Created> {
    if txs == [] then []
    else
      var e := EffectOfV2(txs[|txs| - 1]);
      CreatedByV2(txs[..|txs| - 1]) + (if e.None? then [] else OutputsOf(e.value.id, e.value.outputs))
  }

  /** The outputs the index takes from a block. */
  function CreatedBy(block: Block): seq<Created> {
    CreatedByTxs(block.body.transactions) + CreatedByV2(block.body.transactionsV2) + RewardOutputs(block.body)
  }

  ghost predicate NamedBy(created: seq<Created>, named: Naming) {
    forall i :: 0 <= i < |created| ==> created[i].output == named(created[i].outpoint)
  }

  ghost predicate BlocksNamed(blocks: seq<Block>, created: Creation, named: Naming) {
    forall i :: 0 <= i < |blocks| ==> NamedBy(created(blocks[i]), named)
  }

  ghost predicate CreatedInside(created: seq<Created>, keys: set<OutPoint>, named: Naming) {
    forall i :: 0 <= i < |created| ==> created[i].outpoint in keys && created[i].output == named(created[i].outpoint)
  }

  ghost predicate BlockInside(block: Block, created: Creation, keys: set<OutPoint>, named: Naming) {
    CreatedInside(created(block), keys, named)
  }

  /** Every output the blocks create is indexed. */
  ghost predicate BlocksInside(blocks: seq<Block>, created: Creation, keys: set<OutPoint>, named: Naming) {
    forall i :: 0 <= i < |blocks| ==> BlockInside(blocks[i], created, keys, named)
  }

  /** The outputs are among the indexed ones and carry the value their outpoint names. */
  ghost predicate Inside(utxos: Utxos, keys: set<OutPoint>, named: Naming) {
    forall p :: p in utxos ==> p in keys && utxos[p] == named(p)
  }

  // ----- indexing

  lemma {:induction false} PutAllInside(index: Utxos, created: seq<Created>, named: Naming)
    requires Inside(index, index.Keys, named) && NamedBy(created, named)
    ensures var after := PutAll(index, created);
            Inside(after, after.Keys, named) && index.Keys <= after.Keys && CreatedInside(created, after.Keys, named)
  {
    if created != [] {
      PutAllInside(index, created[..|created| - 1], named);
    }
  }

  lemma IndexedMore(blocks: seq<Block>, k: nat, created: Creation, keys: set<OutPoint>, more: set<OutPoint>,
                    named: Naming)
    requires k < |blocks| && BlocksInside(blocks[..k], created, keys, named) && keys <= more
    requires BlockInside(blocks[k], created, more, named)
    ensures BlocksInside(blocks[..k + 1], created, more, named)
  {
    InsideMore(blocks[..k], created, keys, more, named);
    assert forall i :: 0 <= i < k ==> blocks[..k][i] == blocks[..k + 1][i];
  }

  lemma InsideMore(blocks: seq<Block>, created: Creation, keys: set<OutPoint>, more: set<OutPoint>, named: Naming)
    requires BlocksInside(blocks, created, keys, named) && keys <= more
    ensures BlocksInside(blocks, created, more, named)
  {
    forall i | 0 <= i < |blocks|
      ensures BlockInside(blocks[i], created, more, named)
    {
      assert BlockInside(blocks[i], created, keys, named);
    }
  }

  /** The index has kept what it had and every output of `blocks`, each with the value it names. */
  ghost predicate Indexed(index: Utxos, r: Utxos, blocks: seq<Block>, created: Creation, named: Naming) {
    Inside(r, r.Keys, named) && index.Keys <= r.Keys && BlocksInside(blocks, created, r.Keys, named)
  }

  /** Index a run of blocks. What was indexed stays, and stays right. */
  method IndexBlocks(index: Utxos, blocks: seq<Block>, created: Creation, ghost named: Naming) returns (r: Utxos)
    ensures Inside(index, index.Keys, named) && BlocksNamed(blocks, created, named) ==>
              Indexed(index, r, blocks, created, named)
  {
    r := index;
    ghost var right := Inside(index, index.Keys, named) && BlocksNamed(blocks, created, named);
    for k := 0 to |blocks|
      invariant right ==> Indexed(index, r, blocks[..k], created, named)
    {
      if right {
        PutAllInside(r, created(blocks[k]), named);
        IndexedMore(blocks, k, created, r.Keys, PutAll(r, created(blocks[k])).Keys, named);
      }
      r := PutAll(r, created(blocks[k]));
    }
    assert blocks[..|blocks|] == blocks;
  }

  // ----- every unspent output of a replay was created

  lemma {:induction false} SpendInside(utxos: Utxos, inputs: seq<TxInput>, keys: set<OutPoint>, named: Naming)
    requires Inside(utxos, keys, named) && Spend(utxos, inputs).Ok?
    ensures Inside(Spend(utxos, inputs).value, keys, named)
    decreases |inputs|
  {
    if inputs != [] {
      SpendInside(utxos - {inputs[0].outpoint}, inputs[1..], keys, named);
    }
  }

  lemma {:induction false} CreditInside(utxos: Utxos, created: seq<Created>, keys: set<OutPoint>, named: Naming)
    requires Inside(utxos, keys, named) && CreatedInside(created, keys, named) && Credit(utxos, created).Ok?
    ensures Inside(Credit(utxos, created).value, keys, named)
    decreases |created|
  {
    if created != [] {
      CreditInside(utxos[created[0].outpoint := created[0].output], created[1..], keys, named);
    }
  }

  lemma {:induction false} RewardsInside(utxos: Utxos, created: seq<Created>, keys: set<OutPoint>, named: Naming)
    requires Inside(utxos, keys, named) && CreatedInside(created, keys, named)
    ensures Inside(PutAll(utxos, created), keys, named)
  {
    if created != [] {
      RewardsInside(utxos, created[..|created| - 1], keys, named);
    }
  }

  lemma EffectInside(utxos: Utxos, e: Effect, keys: set<OutPoint>, named: Naming)
    requires Inside(utxos, keys, named) && ApplyEffect(utxos, e).Ok?
    requires CreatedInside(OutputsOf(e.id, e.outputs), keys, named)
    ensures Inside(ApplyEffect(utxos, e).value, keys, named)
  {
    SpendInside(utxos, e.inputs, keys, named);
    CreditInside(Spend(utxos, e.inputs).value, OutputsOf(e.id, e.outputs), keys, named);
  }

  lemma InsideParts(a: seq<Created>, b: seq<Created>, keys: set<OutPoint>, named: Naming)
    requires CreatedInside(a + b, keys, named)
    ensures CreatedInside(a, keys, named) && CreatedInside(b, keys, named)
  {
    forall i | 0 <= i < |a|
      ensures a[i].outpoint in keys && a[i].output == named(a[i].outpoint)
    {
      assert (a + b)[i] == a[i];
    }
    forall i | 0 <= i < |b|
      ensures b[i].outpoint in keys && b[i].output == named(b[i].outpoint)
    {
      assert (a + b)[|a| + i] == b[i];
    }
  }

  lemma {:induction false} TxsInside(utxos: Utxos, txs: seq<Transaction>, keys: set<OutPoint>, named: Naming)
    requires Inside(utxos, keys, named) && ReplayTxs(utxos, txs).Ok? && CreatedInside(CreatedByTxs(txs), keys, named)
    ensures Inside(ReplayTxs(utxos, txs).value, keys, named)
  {
    if txs != [] {
      var init, e := txs[..|txs| - 1], EffectOf(txs[|txs| - 1]);
      InsideParts(CreatedByTxs(init), OutputsOf(e.id, e.outputs), keys, named);
      TxsInside(utxos, init, keys, named);
      EffectInside(ReplayTxs(utxos, init).value, e, keys, named);
    }
  }

  lemma {:induction false} V2Inside(utxos: Utxos, txs: seq<TransactionV2>, keys: set<OutPoint>, named: Naming)
    requires Inside(utxos, keys, named) && ReplayV2(utxos, txs).Ok? && CreatedInside(CreatedByV2(txs), keys, named)
    ensures Inside(ReplayV2(utxos, txs).value, keys, named)
  {
    if txs != [] {
      var init, e := txs[..|txs| - 1], EffectOfV2(txs[|txs| - 1]).value;
      InsideParts(CreatedByV2(init), OutputsOf(e.id, e.outputs), keys, named);
      V2Inside(utxos, init, keys, named);
      EffectInside(ReplayV2(utxos, init).value, e, keys, named);
    }
  }

  lemma BlockReplayInside(utxos: Utxos, after: Utxos, block: Block, keys: set<OutPoint>, named: Naming)
    requires Inside(utxos, keys, named) && ReplayBody(utxos, block.body) == Ok(after)
    requires BlockInside(block, CreatedBy, keys, named)
    ensures Inside(after, keys, named)
  {
    var body := block.body;
    var legacy, v2 := CreatedByTxs(body.transactions), CreatedByV2(body.transactionsV2);
    InsideParts(legacy + v2, RewardOutputs(body), keys, named);
    InsideParts(legacy, v2, keys, named);
    TxsInside(utxos, body.transactions, keys, named);
    var mid := ReplayTxs(utxos, body.transactions).value;
    V2Inside(mid, body.transactionsV2, keys, named);
    RewardsInside(ReplayV2(mid, body.transactionsV2).value, RewardOutputs(body), keys, named);
  }

  /** Every unspent output of a chain is an output its genesis or one of its blocks created. */
  lemma {:induction false} ReplayInside(genesis: Utxos, chain: seq<Block>, end: nat, keys: set<OutPoint>, named: Naming)
    requires end <= |chain| && Replay(genesis, chain, end).Ok?
    requires Inside(genesis, keys, named) && BlocksInside(chain, CreatedBy, keys, named)
    ensures Inside(Replay(genesis, chain, end).value, keys, named)
  {
    if end > 0 {
      ReplayInside(genesis, chain, end - 1, keys, named);
      var block, before, after := chain[end - 1], Replay(genesis, chain, end - 1).value,
          Replay(genesis, chain, end).value;
      assert BlockInside(block, CreatedBy, keys, named);
      BlockReplayInside(before, after, block, keys, named);
    }
  }
}
