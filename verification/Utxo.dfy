/** The ledger's unspent outputs: replaying a chain's transactions and crediting block rewards. */
module Utxo {
  import opened Results
  import opened Transactions
  import opened Chain
  import opened Maps
  import opened Segments

  const U32_MAX: nat := 4_294_967_295
  const BURN_COMMITTEE_SIZE: nat := 5

  type Utxos = map<OutPoint, TxOutput>

  datatype Created = Created(outpoint: OutPoint, output: TxOutput)

  // ----- sums

  function SumOutputs(outputs: seq<TxOutput>): nat {
    if outputs == [] then 0 else outputs[0].amount + SumOutputs(outputs[1..])
  }

  function SumCreated(created: seq<Created>): nat {
    if created == [] then 0 else created[0].output.amount + SumCreated(created[1..])
  }

  function AmountOf(output: TxOutput): nat { output.amount }

  ghost function Value(utxos: Utxos): nat { Sum(utxos, AmountOf) }

  lemma ValueWithout(utxos: Utxos, p: OutPoint)
    requires p in utxos
    ensures Value(utxos) == utxos[p].amount + Value(utxos - {p})
  {
    SumWithout(utxos, AmountOf, p);
  }

  lemma ValueWith(utxos: Utxos, p: OutPoint, output: TxOutput)
    requires p !in utxos
    ensures Value(utxos[p := output]) == Value(utxos) + output.amount
    ensures |utxos[p := output]| == |utxos| + 1
  {
    SumPut(utxos, AmountOf, p, output);
    PutThenMinus(utxos, p, output);
  }

  // ----- block rewards

  function FindMember(attestations: seq<Attestation>, slot: nat, miner: string): Option<Attestation> {
    if attestations == [] then None
    else if attestations[0].slot == slot && attestations[0].member != miner then Some(attestations[0])
    else FindMember(attestations[1..], slot, miner)
  }

  /** The attesting members that share the reward: for each signed slot, its holder unless it is the finalizer. */
  function RewardMembers(signed: seq<Attestation>, all: seq<Attestation>, miner: string): seq<Attestation> {
    if signed == [] then []
    else
      var found := FindMember(all, signed[0].slot, miner);
      (if found.Some? then [found.value] else []) + RewardMembers(signed[1..], all, miner)
  }

  function PayoutAddress(attestations: seq<Attestation>, member: Attestation): string {
    if attestations == [] then member.member
    else if attestations[0].slot == member.slot then
      if attestations[0].rewardAddress.Some? then attestations[0].rewardAddress.value else member.member
    else PayoutAddress(attestations[1..], member)
  }

  function CommitteeOutpoint(body: Body, slot: nat): OutPoint {
    OutPoint(body.hashText, U32_MAX - (if slot < BURN_COMMITTEE_SIZE then slot else BURN_COMMITTEE_SIZE - 1))
  }

  /** An even share, rounded down: remaining / count. */
  function Portion(remaining: nat, count: nat): (r: nat)
    requires count > 0
    ensures r <= remaining && (count == 1 ==> r == remaining)
  {
    if count == 1 then remaining
    else
      SegmentBounds(remaining, count);
      StartMonotone(SegmentId(remaining, count), SegmentId(remaining, count), count);
      SegmentId(remaining, count)
  }

  /** Split what remains of the pool evenly, the last member taking the remainder; zero shares are skipped. */
  function CommitteeOutputs(body: Body, members: seq<Attestation>, remaining: nat): seq<Created> {
    if members == [] then []
    else
      var amount := Portion(remaining, |members|);
      (if amount == 0 then []
       else [Created(CommitteeOutpoint(body, members[0].slot),
                     TxOutput(PayoutAddress(body.attestations, members[0]), amount))])
      + CommitteeOutputs(body, members[1..], remaining - amount)
  }

  function RewardOutputs(body: Body): seq<Created> {
    if body.reward == 0 then []
    else
      var members := if body.ticketMode && body.finalizerRank <= 1
                     then RewardMembers(body.attestations, body.attestations, body.miner) else [];
      var pool := if members == [] then 0 else body.reward / 2;
      [Created(OutPoint(body.hashText, U32_MAX),
               TxOutput(if body.rewardAddress.Some? then body.rewardAddress.value else body.miner, body.reward - pool))]
      + CommitteeOutputs(body, members, pool)
  }

  lemma {:induction false} SumCreatedConcat(a: seq<Created>, b: seq<Created>)
    ensures SumCreated(a + b) == SumCreated(a) + SumCreated(b)
  {
    if a == [] {
      assert a + b == b;
    } else {
      SumCreatedConcat(a[1..], b);
      assert (a + b)[1..] == a[1..] + b;
    }
  }

  lemma {:induction false} CommitteeSharesPool(body: Body, members: seq<Attestation>, remaining: nat)
    requires members != []
    ensures SumCreated(CommitteeOutputs(body, members, remaining)) == remaining
    decreases |members|
  {
    var amount := Portion(remaining, |members|);
    var rest := CommitteeOutputs(body, members[1..], remaining - amount);
    if |members| > 1 {
      CommitteeSharesPool(body, members[1..], remaining - amount);
    }
    SumCreatedConcat(CommitteeOutputs(body, members, remaining)[..if amount == 0 then 0 else 1], rest);
    assert CommitteeOutputs(body, members, remaining) ==
           CommitteeOutputs(body, members, remaining)[..if amount == 0 then 0 else 1] + rest;
  }

  /** The finalizer's output and the committee's shares add up to exactly the block reward. */
  lemma RewardIsPaidOut(body: Body)
    ensures SumCreated(RewardOutputs(body)) == body.reward
  {
    if body.reward > 0 {
      var members := if body.ticketMode && body.finalizerRank <= 1
                     then RewardMembers(body.attestations, body.attestations, body.miner) else [];
      var pool := if members == [] then 0 else body.reward / 2;
      if members != [] {
        CommitteeSharesPool(body, members, pool);
      }
      SumCreatedConcat(RewardOutputs(body)[..1], CommitteeOutputs(body, members, pool));
      assert RewardOutputs(body) == RewardOutputs(body)[..1] + CommitteeOutputs(body, members, pool);
    }
  }

  ghost predicate DistinctOutpoints(created: seq<Created>) {
    forall i, j :: 0 <= i < j < |created| ==> created[i].outpoint != created[j].outpoint
  }

  /** Consensus accepts attestations only in strictly increasing slots 1 to 4. */
  predicate InSlotOrder(attestations: seq<Attestation>) {
    && (forall i :: 0 <= i < |attestations| ==> 0 < attestations[i].slot < BURN_COMMITTEE_SIZE)
    && (forall i, j :: 0 <= i < j < |attestations| ==> attestations[i].slot < attestations[j].slot)
  }

  lemma {:induction false} FindMemberSlot(all: seq<Attestation>, slot: nat, miner: string)
    ensures FindMember(all, slot, miner).Some? ==> FindMember(all, slot, miner).value.slot == slot
  {
    if all != [] {
      FindMemberSlot(all[1..], slot, miner);
    }
  }

  ghost predicate SlotsAbove(attestations: seq<Attestation>, slot: nat) {
    forall i :: 0 <= i < |attestations| ==> slot < attestations[i].slot
  }

  lemma {:induction false} MembersAbove(signed: seq<Attestation>, all: seq<Attestation>, miner: string, above: nat)
    requires SlotsAbove(signed, above)
    ensures SlotsAbove(RewardMembers(signed, all, miner), above)
  {
    if signed != [] {
      MembersAbove(signed[1..], all, miner, above);
      FindMemberSlot(all, signed[0].slot, miner);
    }
  }

  lemma {:induction false} MembersInOrder(signed: seq<Attestation>, all: seq<Attestation>, miner: string)
    requires InSlotOrder(signed)
    ensures InSlotOrder(RewardMembers(signed, all, miner))
  {
    if signed != [] {
      MembersInOrder(signed[1..], all, miner);
      MembersAbove(signed[1..], all, miner, signed[0].slot);
      FindMemberSlot(all, signed[0].slot, miner);
    }
  }

  /** A share of the committee pool: under the block's id, below the finalizer's index, with value. */
  predicate IsShare(c: Created, body: Body, above: nat) {
    c.outpoint.txid == body.hashText && c.output.amount > 0 && c.outpoint.index + above < U32_MAX
  }

  ghost predicate AllShares(created: seq<Created>, body: Body, above: nat) {
    forall i :: 0 <= i < |created| ==> IsShare(created[i], body, above)
  }

  lemma {:induction false} CommitteeShares(body: Body, members: seq<Attestation>, remaining: nat, above: nat)
    requires InSlotOrder(members) && SlotsAbove(members, above)
    ensures AllShares(CommitteeOutputs(body, members, remaining), body, above)
    decreases |members|
  {
    if members != [] {
      var amount := Portion(remaining, |members|);
      CommitteeShares(body, members[1..], remaining - amount, above);
    }
  }

  lemma {:induction false} CommitteeOutpointsDistinct(body: Body, members: seq<Attestation>, remaining: nat)
    requires InSlotOrder(members)
    ensures DistinctOutpoints(CommitteeOutputs(body, members, remaining))
    decreases |members|
  {
    if members != [] {
      var amount := Portion(remaining, |members|);
      var rest := CommitteeOutputs(body, members[1..], remaining - amount);
      CommitteeOutpointsDistinct(body, members[1..], remaining - amount);
      CommitteeShares(body, members[1..], remaining - amount, members[0].slot);
      assert CommitteeOutpoint(body, members[0].slot).index == U32_MAX - members[0].slot;
    }
  }

  /** Reward outputs never share an outpoint, and every one of them carries value. */
  lemma RewardOutpointsDistinct(body: Body)
    requires InSlotOrder(body.attestations)
    ensures DistinctOutpoints(RewardOutputs(body))
    ensures forall c :: c in RewardOutputs(body) ==> c.outpoint.txid == body.hashText && c.output.amount > 0
  {
    if body.reward > 0 {
      var members := if body.ticketMode && body.finalizerRank <= 1
                     then RewardMembers(body.attestations, body.attestations, body.miner) else [];
      MembersInOrder(body.attestations, body.attestations, body.miner);
      var pool := if members == [] then 0 else body.reward / 2;
      CommitteeOutpointsDistinct(body, members, pool);
      CommitteeShares(body, members, pool, 0);
    }
  }

  // ----- replaying transactions

  /** What a transaction does to the set of unspent outputs: `leaving` is fee plus burn, `minted` is new value. */
  datatype Effect = Effect(inputs: seq<TxInput>, outputs: seq<TxOutput>, id: string, leaving: nat, minted: nat)

  function EffectOf(tx: Transaction): Effect {
    match tx
    case Transfer(inputs, outputs, fee, signature) => Effect(inputs, outputs, signature, fee, 0)
    case Burn(inputs, change, amount, fee, signature) => Effect(inputs, change, signature, amount + fee, 0)
    case Mine(recipient, signature) => Effect([], [TxOutput(recipient, MINE_REWARD)], signature, 0, MINE_REWARD)
  }

  /** The second format's mining form is refused by the ledger. */
  function EffectOfV2(tx: TransactionV2): Option<Effect> {
    match tx
    case MigrationV2(inputs, outputs, fee, id) => Some(Effect(inputs, outputs, id, fee, 0))
    case TransferV2(inputs, outputs, fee, id) => Some(Effect(inputs, outputs, id, fee, 0))
    case BurnV2(inputs, change, amount, fee, id) => Some(Effect(inputs, change, id, amount + fee, 0))
    case MineV2(_, _) => None
  }

  /** Remove the inputs one by one; each must be present and owned by the input's owner. */
  function Spend(utxos: Utxos, inputs: seq<TxInput>): Result<Utxos>
    decreases |inputs|
  {
    if inputs == [] then Ok(utxos)
    else if inputs[0].outpoint !in utxos then Err("transaction spends missing output")
    else if utxos[inputs[0].outpoint].address != inputs[0].owner then Err("input owner does not match spent output")
    else Spend(utxos - {inputs[0].outpoint}, inputs[1..])
  }

  function OutputsOf(id: string, outputs: seq<TxOutput>): seq<Created> {
    seq(|outputs|, i requires 0 <= i < |outputs| => Created(OutPoint(id, i), outputs[i]))
  }

  /** Insert created outputs one by one; none may replace an existing one. */
  function Credit(utxos: Utxos, created: seq<Created>): Result<Utxos>
    decreases |created|
  {
    if created == [] then Ok(utxos)
    else if created[0].outpoint in utxos then Err("created output replaces existing UTXO")
    else Credit(utxos[created[0].outpoint := created[0].output], created[1..])
  }

  /** The amounts the inputs bring in, looked up as they are spent. */
  function InputTotal(utxos: Utxos, inputs: seq<TxInput>): nat
    requires Spend(utxos, inputs).Ok?
    decreases |inputs|
  {
    if inputs == [] then 0
    else utxos[inputs[0].outpoint].amount + InputTotal(utxos - {inputs[0].outpoint}, inputs[1..])
  }

  function ApplyEffect(utxos: Utxos, e: Effect): Result<Utxos> {
    var spent := Spend(utxos, e.inputs);
    if spent.Err? then spent
    else if InputTotal(utxos, e.inputs) + e.minted != SumOutputs(e.outputs) + e.leaving then
      Err("inputs do not balance outputs, burn, and fee")
    else Credit(spent.value, OutputsOf(e.id, e.outputs))
  }

  lemma {:induction false} SpendTakes(utxos: Utxos, inputs: seq<TxInput>)
    requires Spend(utxos, inputs).Ok?
    ensures Value(utxos) == InputTotal(utxos, inputs) + Value(Spend(utxos, inputs).value)
    ensures |Spend(utxos, inputs).value| + |inputs| == |utxos|
    decreases |inputs|
  {
    if inputs != [] {
      var p := inputs[0].outpoint;
      ValueWithout(utxos, p);
      assert (utxos - {p}).Keys == utxos.Keys - {p};
      SpendTakes(utxos - {p}, inputs[1..]);
    }
  }

  lemma {:induction false} CreditGives(utxos: Utxos, created: seq<Created>)
    requires Credit(utxos, created).Ok?
    ensures Value(Credit(utxos, created).value) == Value(utxos) + SumCreated(created)
    ensures |Credit(utxos, created).value| == |utxos| + |created|
    decreases |created|
  {
    if created != [] {
      ValueWith(utxos, created[0].outpoint, created[0].output);
      CreditGives(utxos[created[0].outpoint := created[0].output], created[1..]);
    }
  }

  lemma {:induction false} SumOutputsOf(id: string, outputs: seq<TxOutput>)
    ensures SumCreated(OutputsOf(id, outputs)) == SumOutputs(outputs)
  {
    SumCreatedFrom(id, outputs, 0);
    assert OutputsOf(id, outputs)[0..] == OutputsOf(id, outputs) && outputs[0..] == outputs;
  }

  lemma {:induction false} SumCreatedFrom(id: string, outputs: seq<TxOutput>, k: nat)
    requires k <= |outputs|
    ensures SumCreated(OutputsOf(id, outputs)[k..]) == SumOutputs(outputs[k..])
    decreases |outputs| - k
  {
    if k < |outputs| {
      SumCreatedFrom(id, outputs, k + 1);
      assert OutputsOf(id, outputs)[k..][1..] == OutputsOf(id, outputs)[k + 1..];
      assert outputs[k..][1..] == outputs[k + 1..];
    }
  }

  /** A transaction changes the unspent value by exactly what it mints less its fee and burn. */
  lemma EffectConserves(utxos: Utxos, e: Effect)
    requires ApplyEffect(utxos, e).Ok?
    ensures var after := ApplyEffect(utxos, e).value;
            && Value(after) + e.leaving == Value(utxos) + e.minted
            && |after| + |e.inputs| == |utxos| + |e.outputs|
            && |e.inputs| <= |utxos|
  {
    SpendTakes(utxos, e.inputs);
    var spent := Spend(utxos, e.inputs).value;
    CreditGives(spent, OutputsOf(e.id, e.outputs));
    SumOutputsOf(e.id, e.outputs);
  }

  function ReplayTxs(utxos: Utxos, txs: seq<Transaction>): Result<Utxos> {
    if txs == [] then Ok(utxos)
    else
      var before := ReplayTxs(utxos, txs[..|txs| - 1]);
      if before.Err? then before else ApplyEffect(before.value, EffectOf(txs[|txs| - 1]))
  }

  function ReplayV2(utxos: Utxos, txs: seq<TransactionV2>): Result<Utxos> {
    if txs == [] then Ok(utxos)
    else
      var before := ReplayV2(utxos, txs[..|txs| - 1]);
      var e := EffectOfV2(txs[|txs| - 1]);
      if before.Err? then before
      else if e.None? then Err("transaction v2 mining is not integrated")
      else ApplyEffect(before.value, e.value)
  }

  /** Insert or replace, in order: how the ledger credits rewards and the output index takes rows. */
  function PutAll(utxos: Utxos, created: seq<Created>): Utxos {
    if created == [] then utxos
    else PutAll(utxos, created[..|created| - 1])[created[|created| - 1].outpoint := created[|created| - 1].output]
  }

  function ReplayBody(utxos: Utxos, body: Body): Result<Utxos> {
    var legacy := ReplayTxs(utxos, body.transactions);
    if legacy.Err? then legacy
    else
      var both := ReplayV2(legacy.value, body.transactionsV2);
      if both.Err? then both else Ok(PutAll(both.value, RewardOutputs(body)))
  }

  function GenesisOutpoint(address: string): OutPoint {
    OutPoint("iuna-genesis-allocation:" + address, 0)
  }

  /** The unspent outputs after the first `end` blocks, starting from the genesis allocations. */
  function Replay(genesis: Utxos, chain: seq<Block>, end: nat): Result<Utxos>
    requires end <= |chain|
  {
    if end == 0 then Ok(genesis)
    else
      var before := Replay(genesis, chain, end - 1);
      if before.Err? then before else ReplayBody(before.value, chain[end - 1].body)
  }
}
