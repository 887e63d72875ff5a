/** The wallet's coin selection: take outputs from the largest down until they cover the amount and a
    fee that depends on the transaction's own size. */
module CoinSelection {
  import opened Results
  import opened Transactions

  const MAX_PASSES: nat := 8

  datatype Utxo = Utxo(outpoint: OutPoint, amount: nat)

  datatype Selection = Selection(inputs: seq<TxInput>, total: nat, fee: nat)

  datatype Spending = Spending(inputs: seq<TxInput>, outputs: seq<TxOutput>, fee: nat)

  // ----- sizes

  /** Bytes of a variable-length integer: seven bits per byte. */
  function CompactLen(n: nat): nat {
    if n < 128 then 1 else 1 + CompactLen(n / 128)
  }

  function Pow128(n: nat): nat { if n == 0 then 1 else 128 * Pow128(n - 1) }

  /** The loop counts exactly the seven-bit groups the number needs. */
  method CompactLength(value: nat) returns (length: nat)
    ensures length == CompactLen(value)
    ensures value < Pow128(length) && (length > 1 ==> Pow128(length - 1) <= value)
  {
    var n := value;
    length := 1;
    while n >= 128
      invariant length >= 1 && length - 1 + CompactLen(n) == CompactLen(value)
    {
      n, length := n / 128, length + 1;
    }
    CompactLenBounds(value);
  }

  lemma {:induction false} CompactLenBounds(n: nat)
    ensures n < Pow128(CompactLen(n)) && (CompactLen(n) > 1 ==> Pow128(CompactLen(n) - 1) <= n)
  {
    if n >= 128 {
      CompactLenBounds(n / 128);
    }
  }

  lemma {:induction false} CompactLenMonotone(a: nat, b: nat)
    requires a <= b
    ensures CompactLen(a) <= CompactLen(b)
  {
    if a >= 128 {
      CompactLenMonotone(a / 128, b / 128);
    }
  }

  lemma {:induction false} CompactLenAtMost(n: nat, k: nat)
    requires k > 0 && n < Pow128(k)
    ensures CompactLen(n) <= k
  {
    if n >= 128 {
      assert k > 1;
      CompactLenAtMost(n / 128, k - 1);
    }
  }

  function ProtocolIdSize(hex: string): nat { 1 + |hex| / 2 }

  function InputsSize(inputs: seq<TxInput>): nat {
    if inputs == [] then 0
    else
      var input := inputs[|inputs| - 1];
      InputsSize(inputs[..|inputs| - 1]) + ProtocolIdSize(input.outpoint.txid) + CompactLen(input.outpoint.index) + 33
  }

  function OutputsSize(outputs: seq<TxOutput>): nat {
    if outputs == [] then 0
    else OutputsSize(outputs[..|outputs| - 1]) + 33 + CompactLen(outputs[|outputs| - 1].amount)
  }

  function EstimateTransferSize(inputs: seq<TxInput>, outputs: seq<TxOutput>, fee: nat): nat {
    1 + CompactLen(|inputs|) + InputsSize(inputs) + CompactLen(|outputs|) + OutputsSize(outputs) + CompactLen(fee) + 65
  }

  // ----- sizes as the node counts them

  predicate HexDigit(c: char) { '0' <= c <= '9' || 'a' <= c <= 'f' || 'A' <= c <= 'F' }

  predicate HexOf(txid: string, bytes: nat) {
    |txid| == 2 * bytes && forall i :: 0 <= i < |txid| ==> HexDigit(txid[i])
  }

  /** An id counts as 32 bytes if it is the hex of 32 bytes, and as 64 otherwise. */
  function IdSize(txid: string): nat { if HexOf(txid, 32) then 32 else 64 }

  function NodeInputsSize(inputs: seq<TxInput>): nat {
    if inputs == [] then 0
    else IdSize(inputs[0].outpoint.txid) + CompactLen(inputs[0].outpoint.index) + 32 + NodeInputsSize(inputs[1..])
  }

  function NodeOutputsSize(outputs: seq<TxOutput>): nat {
    if outputs == [] then 0 else 32 + CompactLen(outputs[0].amount) + NodeOutputsSize(outputs[1..])
  }

  /** The bytes the node charges a transfer for. */
  function NodeSize(inputs: seq<TxInput>, outputs: seq<TxOutput>, fee: nat): nat {
    1 + CompactLen(|inputs|) + NodeInputsSize(inputs) + CompactLen(|outputs|) + NodeOutputsSize(outputs)
    + CompactLen(fee) + 64
  }

  /** Every id is the hex of a hash or of a signature, as the node demands. */
  ghost predicate HexIds(inputs: seq<TxInput>) {
    forall i :: 0 <= i < |inputs| ==> HexOf(inputs[i].outpoint.txid, 32) || HexOf(inputs[i].outpoint.txid, 64)
  }

  lemma {:induction false} NodeInputsConcat(a: seq<TxInput>, b: seq<TxInput>)
    ensures NodeInputsSize(a + b) == NodeInputsSize(a) + NodeInputsSize(b)
  {
    if a == [] {
      assert a + b == b;
    } else {
      assert (a + b)[1..] == a[1..] + b;
      NodeInputsConcat(a[1..], b);
    }
  }

  lemma {:induction false} NodeOutputsConcat(a: seq<TxOutput>, b: seq<TxOutput>)
    ensures NodeOutputsSize(a + b) == NodeOutputsSize(a) + NodeOutputsSize(b)
  {
    if a == [] {
      assert a + b == b;
    } else {
      assert (a + b)[1..] == a[1..] + b;
      NodeOutputsConcat(a[1..], b);
    }
  }

  lemma {:induction false} InputsEstimated(inputs: seq<TxInput>)
    requires HexIds(inputs)
    ensures InputsSize(inputs) == NodeInputsSize(inputs) + 2 * |inputs|
  {
    if inputs != [] {
      var init, last := inputs[..|inputs| - 1], inputs[|inputs| - 1];
      InputsEstimated(init);
      NodeInputsConcat(init, [last]);
      assert inputs == init + [last];
    }
  }

  lemma {:induction false} OutputsEstimated(outputs: seq<TxOutput>)
    ensures OutputsSize(outputs) == NodeOutputsSize(outputs) + |outputs|
  {
    if outputs != [] {
      var init, last := outputs[..|outputs| - 1], outputs[|outputs| - 1];
      OutputsEstimated(init);
      NodeOutputsConcat(init, [last]);
      assert outputs == init + [last];
    }
  }

  /** The wallet's estimate exceeds what the node counts by two bytes an input, one an output, and one. */
  lemma EstimateExceedsNode(inputs: seq<TxInput>, outputs: seq<TxOutput>, fee: nat)
    requires HexIds(inputs)
    ensures EstimateTransferSize(inputs, outputs, fee) == NodeSize(inputs, outputs, fee) + 2 * |inputs| + |outputs| + 1
  {
    InputsEstimated(inputs);
    OutputsEstimated(outputs);
  }

  // ----- the transfer that spends a selection

  /** The recipient's output, and change if any is left. */
  function OutputsFor(total: nat, amount: nat, fee: nat, owner: string, recipient: string): seq<TxOutput> {
    [TxOutput(recipient, amount)]
    + if total > amount + fee then [TxOutput(owner, total - amount - fee)] else []
  }

  function FeeFor(rate: nat, inputs: seq<TxInput>, total: nat, amount: nat, fee: nat, owner: string,
                  recipient: string): nat {
    EstimateTransferSize(inputs, OutputsFor(total, amount, fee, owner, recipient), fee) * rate
  }

  function BuildTransfer(s: Selection, amount: nat, owner: string, recipient: string): Spending {
    Spending(s.inputs, OutputsFor(s.total, amount, s.fee, owner, recipient), s.fee)
  }

  function SumOf(outputs: seq<TxOutput>): nat {
    if outputs == [] then 0 else SumOf(outputs[..|outputs| - 1]) + outputs[|outputs| - 1].amount
  }

  function Total(utxos: seq<Utxo>): nat {
    if utxos == [] then 0 else Total(utxos[..|utxos| - 1]) + utxos[|utxos| - 1].amount
  }

  function InputsOf(utxos: seq<Utxo>, owner: string): (r: seq<TxInput>)
    ensures |r| == |utxos|
  {
    seq(|utxos|, i requires 0 <= i < |utxos| => TxInput(utxos[i].outpoint, owner))
  }

  /** The selection takes the first `k` of the sorted outputs and covers amount and fee. */
  ghost predicate Selects(s: Selection, sorted: seq<Utxo>, k: nat, amount: nat, owner: string) {
    && 0 < k <= |sorted| && s.inputs == InputsOf(sorted[..k], owner)
    && s.total == Total(sorted[..k]) && s.total >= amount + s.fee
  }

  /** What goes in comes out: the outputs and the fee add up to the inputs, with no empty change. */
  lemma TransferBalances(s: Selection, sorted: seq<Utxo>, k: nat, amount: nat, owner: string, recipient: string)
    requires Selects(s, sorted, k, amount, owner)
    ensures var t := BuildTransfer(s, amount, owner, recipient);
            && SumOf(t.outputs) + t.fee == Total(sorted[..k])
            && t.outputs[0] == TxOutput(recipient, amount)
            && |t.outputs| <= 2
            && forall i :: 0 < i < |t.outputs| ==> t.outputs[i].amount > 0 && t.outputs[i].address == owner
  {
    var outputs := OutputsFor(s.total, amount, s.fee, owner, recipient);
    assert outputs[..1] == [TxOutput(recipient, amount)] && outputs[..1][..0] == [];
    assert SumOf(outputs[..1]) == amount;
    if |outputs| == 1 {
      assert outputs == outputs[..1];
    }
  }

  // ----- sorting

  ghost predicate Descending(utxos: seq<Utxo>) {
    forall i, j :: 0 <= i < j < |utxos| ==> utxos[i].amount >= utxos[j].amount
  }

  function InsertSorted(u: Utxo, sorted: seq<Utxo>): seq<Utxo> {
    if sorted == [] || u.amount > sorted[0].amount then [u] + sorted
    else [sorted[0]] + InsertSorted(u, sorted[1..])
  }

  /** Stable sort, largest amount first. */
  function SortDescending(utxos: seq<Utxo>): seq<Utxo> {
    if utxos == [] then [] else InsertSorted(utxos[|utxos| - 1], SortDescending(utxos[..|utxos| - 1]))
  }

  lemma {:induction false} InsertMultiset(u: Utxo, sorted: seq<Utxo>)
    ensures multiset(InsertSorted(u, sorted)) == multiset(sorted) + multiset{u}
  {
    if sorted != [] && u.amount <= sorted[0].amount {
      InsertMultiset(u, sorted[1..]);
      assert sorted == [sorted[0]] + sorted[1..];
    }
  }

  ghost predicate AtMost(utxos: seq<Utxo>, amount: nat) {
    forall i :: 0 <= i < |utxos| ==> utxos[i].amount <= amount
  }

  lemma {:induction false} InsertDescending(u: Utxo, sorted: seq<Utxo>, bound: nat)
    requires Descending(sorted) && AtMost(sorted, bound) && u.amount <= bound
    ensures Descending(InsertSorted(u, sorted)) && AtMost(InsertSorted(u, sorted), bound)
  {
    if sorted != [] && u.amount <= sorted[0].amount {
      InsertDescending(u, sorted[1..], sorted[0].amount);
    }
  }

  /** Selection considers every output, from the largest down. */
  lemma {:induction false} SortIsSorted(utxos: seq<Utxo>)
    ensures Descending(SortDescending(utxos)) && multiset(SortDescending(utxos)) == multiset(utxos)
  {
    if utxos != [] {
      var init, last := utxos[..|utxos| - 1], utxos[|utxos| - 1];
      var sorted := SortDescending(init);
      SortIsSorted(init);
      InsertDescending(last, sorted, if sorted == [] then last.amount else Max(last.amount, sorted[0].amount));
      InsertMultiset(last, sorted);
      LastOut(utxos, init, last);
    }
  }

  lemma LastOut(utxos: seq<Utxo>, init: seq<Utxo>, last: Utxo)
    requires utxos != [] && init == utxos[..|utxos| - 1] && last == utxos[|utxos| - 1]
    ensures multiset(utxos) == multiset(init) + multiset{last}
  {
    assert utxos == init + [last];
  }

  /** The outputs of one amount, in order. */
  function OfAmount(utxos: seq<Utxo>, amount: nat): seq<Utxo> {
    if utxos == [] then []
    else (if utxos[0].amount == amount then [utxos[0]] else []) + OfAmount(utxos[1..], amount)
  }

  lemma {:induction false} OfAmountConcat(a: seq<Utxo>, b: seq<Utxo>, amount: nat)
    ensures OfAmount(a + b, amount) == OfAmount(a, amount) + OfAmount(b, amount)
  {
    if a == [] {
      assert a + b == b;
    } else {
      OfAmountConcat(a[1..], b, amount);
      assert (a + b)[1..] == a[1..] + b && (a + b)[0] == a[0];
    }
  }

  lemma {:induction false} NoneOfAmount(utxos: seq<Utxo>, amount: nat)
    requires forall i :: 0 <= i < |utxos| ==> utxos[i].amount < amount
    ensures OfAmount(utxos, amount) == []
  {
    if utxos != [] {
      NoneOfAmount(utxos[1..], amount);
    }
  }

  lemma {:induction false} InsertIsStable(u: Utxo, sorted: seq<Utxo>, amount: nat)
    requires Descending(sorted)
    ensures OfAmount(InsertSorted(u, sorted), amount) == OfAmount(sorted, amount) + OfAmount([u], amount)
  {
    if sorted != [] && u.amount <= sorted[0].amount {
      InsertIsStable(u, sorted[1..], amount);
    } else {
      OfAmountConcat([u], sorted, amount);
      if u.amount == amount {
        NoneOfAmount(sorted, amount);
      }
    }
  }

  /** Outputs of equal amount keep their order, as in the library's stable sort. */
  lemma {:induction false} SortIsStable(utxos: seq<Utxo>, amount: nat)
    ensures OfAmount(SortDescending(utxos), amount) == OfAmount(utxos, amount)
  {
    if utxos != [] {
      var init, last := utxos[..|utxos| - 1], utxos[|utxos| - 1];
      SortIsStable(init, amount);
      SortIsSorted(init);
      InsertIsStable(last, SortDescending(init), amount);
      OfAmountConcat(init, [last], amount);
      assert utxos == init + [last];
    }
  }

  // ----- selecting

  datatype Payment = Payment(amount: nat, rate: nat, owner: string, recipient: string)

  datatype Settled = Settled(fee: nat, exact: bool)

  function NextFee(p: Payment, inputs: seq<TxInput>, total: nat, fee: nat): nat {
    FeeFor(p.rate, inputs, total, p.amount, fee, p.owner, p.recipient)
  }

  /** Up to `passes` passes; exact when a pass reproduced the fee it started from. */
  function Settle(p: Payment, inputs: seq<TxInput>, total: nat, fee: nat, passes: nat): (r: Settled)
    ensures r.exact ==> r.fee == NextFee(p, inputs, total, r.fee)
    decreases passes
  {
    if passes == 0 then Settled(fee, false)
    else if NextFee(p, inputs, total, fee) == fee then Settled(fee, true)
    else Settle(p, inputs, total, NextFee(p, inputs, total, fee), passes - 1)
  }

  /** The fee after `i` passes, whether or not they settled. */
  function Passed(p: Payment, inputs: seq<TxInput>, total: nat, fee: nat, i: nat): nat {
    if i == 0 then fee else NextFee(p, inputs, total, Passed(p, inputs, total, fee, i - 1))
  }

  /** A pass that reproduces the fee it starts from. */
  ghost predicate Reproduces(p: Payment, inputs: seq<TxInput>, total: nat, fee: nat, i: nat) {
    Passed(p, inputs, total, fee, i + 1) == Passed(p, inputs, total, fee, i)
  }

  lemma {:induction false} PassedLater(p: Payment, inputs: seq<TxInput>, total: nat, fee: nat, i: nat)
    ensures Passed(p, inputs, total, NextFee(p, inputs, total, fee), i) == Passed(p, inputs, total, fee, i + 1)
  {
    if i > 0 {
      PassedLater(p, inputs, total, fee, i - 1);
    }
  }

  /** The fee settles exactly when one of the passes reproduces it, at the first that does; otherwise it
      is the fee after all passes. */
  lemma {:induction false} SettlesAtFirst(p: Payment, inputs: seq<TxInput>, total: nat, fee: nat, passes: nat)
    returns (i: nat)
    ensures var r := Settle(p, inputs, total, fee, passes);
            && r.fee == Passed(p, inputs, total, fee, i) && i <= passes
            && (r.exact <==> i < passes) && (r.exact ==> Reproduces(p, inputs, total, fee, i))
            && forall k: nat :: k < i ==> !Reproduces(p, inputs, total, fee, k)
    decreases passes
  {
    i := 0;
    if passes > 0 && NextFee(p, inputs, total, fee) != fee {
      var next := NextFee(p, inputs, total, fee);
      i := SettlesAtFirst(p, inputs, total, next, passes - 1);
      forall k: nat
        ensures Passed(p, inputs, total, next, k) == Passed(p, inputs, total, fee, k + 1)
      {
        PassedLater(p, inputs, total, fee, k);
      }
      forall k: nat | k < i + 1
        ensures !Reproduces(p, inputs, total, fee, k)
      {
        if k > 0 {
          assert !Reproduces(p, inputs, total, next, k - 1);
        }
      }
      assert i < passes - 1 ==> Reproduces(p, inputs, total, next, i);
      i := i + 1;
    }
  }

  /** The fee after the first `n` outputs were added, each starting from the fee before. */
  function FeeAfter(p: Payment, sorted: seq<Utxo>, n: nat, passes: nat): Settled
    requires n <= |sorted|
  {
    if n == 0 then Settled(0, false)
    else Settle(p, InputsOf(sorted[..n], p.owner), Total(sorted[..n]), FeeAfter(p, sorted, n - 1, passes).fee, passes)
  }

  predicate Affords(p: Payment, sorted: seq<Utxo>, n: nat, passes: nat)
    requires n <= |sorted|
  {
    Total(sorted[..n]) >= p.amount + FeeAfter(p, sorted, n, passes).fee
  }

  /** None of the first `n` prefixes covers its own fee. */
  ghost predicate NoneAffords(p: Payment, sorted: seq<Utxo>, n: nat, passes: nat)
    requires n <= |sorted|
  {
    forall m: nat :: 0 < m <= n ==> !Affords(p, sorted, m, passes)
  }

  method SettleFee(p: Payment, inputs: seq<TxInput>, total: nat, start: nat, passes: nat)
    returns (fee: nat, exact: bool)
    ensures Settled(fee, exact) == Settle(p, inputs, total, start, passes)
  {
    fee := start;
    for pass := 0 to passes
      invariant Settle(p, inputs, total, fee, passes - pass) == Settle(p, inputs, total, start, passes)
    {
      var next := NextFee(p, inputs, total, fee);
      if next == fee {
        return fee, true;
      }
      fee := next;
    }
    return fee, false;
  }

  /** The selection holds the first `n` outputs, with the fee settled for them. */
  ghost predicate Holds(s: Selection, sorted: seq<Utxo>, n: nat, p: Payment, passes: nat)
    requires n <= |sorted|
  {
    s.inputs == InputsOf(sorted[..n], p.owner) && s.total == Total(sorted[..n])
        && s.fee == FeeAfter(p, sorted, n, passes).fee
  }

  /** Take one more output and settle the fee again. */
  method AddOutput(p: Payment, sorted: seq<Utxo>, n: nat, s: Selection, passes: nat)
    returns (s': Selection, exact: bool, affords: bool)
    requires n < |sorted| && Holds(s, sorted, n, p, passes)
    ensures Holds(s', sorted, n + 1, p, passes) && exact == FeeAfter(p, sorted, n + 1, passes).exact
    ensures affords <==> Affords(p, sorted, n + 1, passes)
    ensures affords ==> Selects(s', sorted, n + 1, p.amount, p.owner)
  {
    ghost var taken := sorted[..n + 1];
    assert taken[..n] == sorted[..n];
    var inputs, total := s.inputs + [TxInput(sorted[n].outpoint, p.owner)], s.total + sorted[n].amount;
    assert inputs == InputsOf(taken, p.owner);
    var fee;
    fee, exact := SettleFee(p, inputs, total, s.fee, passes);
    s', affords := Selection(inputs, total, fee), total >= p.amount + fee;
  }

  lemma ExactFee(p: Payment, sorted: seq<Utxo>, n: nat, s: Selection, passes: nat)
    requires 0 < n <= |sorted| && FeeAfter(p, sorted, n, passes) == Settled(s.fee, true)
    requires s.inputs == InputsOf(sorted[..n], p.owner) && s.total == Total(sorted[..n])
    ensures PaysExactly(s, p)
  {
  }

  /** The fee is the rate times the estimated size of the transfer that gets built. */
  predicate PaysExactly(s: Selection, p: Payment) {
    var t := BuildTransfer(s, p.amount, p.owner, p.recipient);
    t.fee == EstimateTransferSize(t.inputs, t.outputs, t.fee) * p.rate
  }

  /** The fee is what the node requires for the bytes it counts, at a rate of at least one. */
  ghost predicate PaysNode(s: Selection, p: Payment) {
    var t := BuildTransfer(s, p.amount, p.owner, p.recipient);
    p.rate * NodeSize(t.inputs, t.outputs, t.fee) <= t.fee && 1 <= t.fee
  }

  lemma ExactPaysNode(s: Selection, p: Payment)
    requires PaysExactly(s, p) && p.rate > 0 && HexIds(s.inputs)
    ensures PaysNode(s, p)
  {
    var t := BuildTransfer(s, p.amount, p.owner, p.recipient);
    EstimateExceedsNode(t.inputs, t.outputs, t.fee);
    RateCovers(p.rate, NodeSize(t.inputs, t.outputs, t.fee), 2 * |t.inputs| + |t.outputs| + 1, t.fee);
  }

  lemma RateCovers(rate: nat, node: nat, spare: nat, fee: nat)
    requires rate > 0 && spare > 0 && fee == (node + spare) * rate
    ensures rate * node <= fee && 1 <= fee
  {
    assert (node + spare) * rate == rate * node + rate * spare;
    assert rate * spare >= 1 && rate * node >= 0;
  }

  /** The shortest prefix of the sorted outputs that covers the amount and its own fee, or none. When
      the passes ended by equality the fee is exactly the rate times the estimated size of the transfer
      that gets built; otherwise only solvency is promised. */
  method SelectInputs(utxos: seq<Utxo>, p: Payment, passes: nat := MAX_PASSES)
    returns (r: Result<Selection>, k: nat, exact: bool)
    ensures r.Err? <==> NoneAffords(p, SortDescending(utxos), |SortDescending(utxos)|, passes)
    ensures r.Ok? ==> Selects(r.value, SortDescending(utxos), k, p.amount, p.owner)
    ensures r.Ok? ==> FeeAfter(p, SortDescending(utxos), k, passes) == Settled(r.value.fee, exact)
    ensures r.Ok? ==> NoneAffords(p, SortDescending(utxos), k - 1, passes)
    ensures r.Ok? ==> |r.value.inputs| == k && forall i :: 0 <= i < k ==>
                      r.value.inputs[i] == TxInput(SortDescending(utxos)[i].outpoint, p.owner)
    ensures r.Ok? && exact ==> PaysExactly(r.value, p)
    ensures r.Ok? && exact && p.rate > 0 && HexIds(r.value.inputs) ==> PaysNode(r.value, p)
  {
    var sorted := SortDescending(utxos);
    r, k, exact := SelectFrom(sorted, p, passes);
    if r.Ok? && exact {
      ExactFee(p, sorted, k, r.value, passes);
      if p.rate > 0 && HexIds(r.value.inputs) {
        ExactPaysNode(r.value, p);
      }
    }
  }

  method SelectFrom(sorted: seq<Utxo>, p: Payment, passes: nat) returns (r: Result<Selection>, k: nat, exact: bool)
    ensures r.Err? <==> NoneAffords(p, sorted, |sorted|, passes)
    ensures r.Ok? ==> Selects(r.value, sorted, k, p.amount, p.owner)
    ensures r.Ok? ==> FeeAfter(p, sorted, k, passes) == Settled(r.value.fee, exact)
    ensures r.Ok? ==> NoneAffords(p, sorted, k - 1, passes)
  {
    var s := Selection([], 0, 0);
    for n := 0 to |sorted|
      invariant Holds(s, sorted, n, p, passes) && NoneAffords(p, sorted, n, passes)
    {
      var affords;
      s, exact, affords := AddOutput(p, sorted, n, s, passes);
      if affords {
        return Ok(s), n + 1, exact;
      }
    }
    return Err("insufficient balance"), 0, false;
  }
}
