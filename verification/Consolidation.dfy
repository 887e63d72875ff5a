/** Planning batches that merge many small outputs into one each. */
module Consolidation {
  import opened Results
  import opened Transactions
  import opened FeeConvergence
  import opened Maps
  import CoinSelection

  const BATCH_INPUTS: nat := 128
  const MAX_BATCHES: nat := 32

  datatype Kind = Legacy | Hybrid

  datatype Coin = Coin(amount: nat, kind: Kind)

  /** The wallet's confirmed outputs, which of them may be spent now, and the lineage root of each. */
  datatype Inventory = Inventory(
    confirmed: map<OutPoint, Coin>,
    available: set<OutPoint>,
    root: OutPoint -> Option<OutPoint>)

  datatype Batch = Batch(kind: Kind, utxos: seq<OutPoint>, fee: nat, amount: nat, bytes: nat)

  datatype Plan = Plan(before: nat, after: nat, fee: nat, batches: seq<Batch>)

  datatype Quote = Quote(bytes: nat, fee: nat)

  /** The fee rate, whether a legacy transfer of an amount and fee fits a block, and the encoded size of
      a hybrid transfer of an amount. */
  datatype Terms = Terms(
    rate: nat,
    withinBudget: (seq<OutPoint>, nat, nat) -> bool,
    hybridSize: (seq<OutPoint>, nat) -> Result<nat>)

  // ----- one batch

  ghost predicate Distinct(points: seq<OutPoint>) {
    forall i, j :: 0 <= i < j < |points| ==> points[i] != points[j]
  }

  function TotalOf(inv: Inventory, points: seq<OutPoint>): nat
    requires forall p :: p in points ==> p in inv.confirmed
  {
    if points == [] then 0 else TotalOf(inv, points[..|points| - 1]) + inv.confirmed[points[|points| - 1]].amount
  }

  predicate Spendable(inv: Inventory, p: OutPoint) { p in inv.available && p in inv.confirmed }

  /** Point `p` may share a batch with `first`. */
  predicate Compatible(inv: Inventory, first: OutPoint, p: OutPoint, mergeRoots: bool) {
    && first in inv.confirmed && p in inv.confirmed
    && (mergeRoots || inv.root(p) == inv.root(first)) && inv.confirmed[p].kind == inv.confirmed[first].kind
  }

  /** Between 2 and 128 distinct spendable outputs of one kind and, unless merging, one root. */
  ghost predicate Consolidable(inv: Inventory, points: seq<OutPoint>, mergeRoots: bool) {
    && 2 <= |points| <= BATCH_INPUTS && points[0] in inv.confirmed
    && Distinct(points)
    && (forall p :: p in points ==> Spendable(inv, p))
    && (forall p :: p in points ==> Compatible(inv, points[0], p, mergeRoots))
  }

  /** What a batch of the plan promises. */
  ghost predicate BatchHolds(inv: Inventory, b: Batch, mergeRoots: bool, terms: Terms) {
    && Consolidable(inv, b.utxos, mergeRoots)
    && b.kind == inv.confirmed[b.utxos[0]].kind
    && b.amount + b.fee == TotalOf(inv, b.utxos)
    && b.fee * 100 <= TotalOf(inv, b.utxos)
    && b.amount > 0
    && Paid(terms.rate, b.bytes, b.fee)
    && (b.kind.Legacy? ==> b.bytes == LegacySize(b.utxos, b.amount, b.fee))
  }

  /** The fee is at least what the bytes demand at the rate. */
  ghost predicate Paid(rate: nat, bytes: nat, fee: nat) {
    rate * bytes < U64_RANGE && rate * bytes <= fee && 1 <= fee
  }

  /** The points before `k` pass every check and add up to `total`. */
  ghost predicate CheckedUpTo(inv: Inventory, points: seq<OutPoint>, k: nat, mergeRoots: bool, total: nat)
    requires k <= |points|
  {
    && Distinct(points[..k])
    && (forall p :: p in points[..k] ==> Spendable(inv, p))
    && (forall p :: p in points[..k] ==> Compatible(inv, points[0], p, mergeRoots))
    && total == TotalOf(inv, points[..k])
  }

  lemma CheckedOneMore(inv: Inventory, points: seq<OutPoint>, k: nat, mergeRoots: bool, total: nat)
    requires k < |points| && CheckedUpTo(inv, points, k, mergeRoots, total)
    requires points[k] !in points[..k] && Spendable(inv, points[k])
    requires Compatible(inv, points[0], points[k], mergeRoots)
    ensures CheckedUpTo(inv, points, k + 1, mergeRoots, total + inv.confirmed[points[k]].amount)
  {
    assert points[..k + 1] == points[..k] + [points[k]];
    assert points[..k + 1][..k] == points[..k];
  }

  lemma {:induction false} TotalGrows(inv: Inventory, points: seq<OutPoint>, k: nat)
    requires k <= |points| && forall p :: p in points[..k] ==> p in inv.confirmed
    ensures (forall p :: p in points ==> p in inv.confirmed) ==> TotalOf(inv, points[..k]) <= TotalOf(inv, points)
  {
    if k < |points| && forall p :: p in points ==> p in inv.confirmed {
      assert points[..|points| - 1][..k] == points[..k];
      TotalGrows(inv, points[..|points| - 1], k);
    } else {
      assert k == |points| ==> points[..k] == points;
    }
  }

  /** The checks on one output, in the source's order; `kind` is that of the outputs before it. */
  function Refusal(inv: Inventory, points: seq<OutPoint>, k: nat, kind: Option<Kind>, mergeRoots: bool): Option<string>
    requires k < |points|
  {
    var p := points[k];
    if p in points[..k] || p !in inv.available then Some("outputs changed or are reserved; review a new preview")
    else if !mergeRoots && inv.root(p) != inv.root(points[0]) then
      Some("merging mining groups requires explicit consent")
    else if p !in inv.confirmed then Some("output is no longer confirmed in this wallet")
    else if kind.Some? && kind.value != inv.confirmed[p].kind then
      Some("legacy and hybrid outputs require separate consolidation batches")
    else None
  }

  ghost predicate Passes(inv: Inventory, points: seq<OutPoint>, k: nat, mergeRoots: bool)
    requires k < |points|
  {
    points[k] !in points[..k] && Spendable(inv, points[k]) && Compatible(inv, points[0], points[k], mergeRoots)
  }

  ghost predicate KindSoFar(inv: Inventory, points: seq<OutPoint>, k: nat, kind: Option<Kind>)
    requires k <= |points|
  {
    if k == 0 then kind == None else points[0] in inv.confirmed && kind == Some(inv.confirmed[points[0]].kind)
  }

  lemma RefusalIsExact(inv: Inventory, points: seq<OutPoint>, k: nat, kind: Option<Kind>, mergeRoots: bool)
    requires k < |points| && KindSoFar(inv, points, k, kind)
    ensures Refusal(inv, points, k, kind, mergeRoots).None? <==> Passes(inv, points, k, mergeRoots)
    ensures Passes(inv, points, k, mergeRoots) ==> KindSoFar(inv, points, k + 1, Some(inv.confirmed[points[k]].kind))
    ensures !Passes(inv, points, k, mergeRoots) ==> !Consolidable(inv, points, mergeRoots)
  {
    assert points[k] in points;
  }

  /** Exactly the consolidable outputs whose total fits 64 bits pass; their total is their sum. */
  method ConsolidationInputs(inv: Inventory, points: seq<OutPoint>, mergeRoots: bool) returns (r: Result<(Kind, nat)>)
    ensures r.Ok? <==> Consolidable(inv, points, mergeRoots) && TotalOf(inv, points) < U64_RANGE
    ensures r.Ok? ==> r.value == (inv.confirmed[points[0]].kind, TotalOf(inv, points))
  {
    if |points| < 2 || |points| > BATCH_INPUTS {
      return Err("choose between 2 and 128 outputs per batch");
    }
    var total: nat := 0;
    var kind: Option<Kind> := None;
    for k := 0 to |points|
      invariant CheckedUpTo(inv, points, k, mergeRoots, total) && total < U64_RANGE
      invariant KindSoFar(inv, points, k, kind)
    {
      var refusal := Refusal(inv, points, k, kind, mergeRoots);
      RefusalIsExact(inv, points, k, kind, mergeRoots);
      if refusal.Some? {
        return Err(refusal.value);
      }
      CheckedOneMore(inv, points, k, mergeRoots, total);
      kind, total := Some(inv.confirmed[points[k]].kind), total + inv.confirmed[points[k]].amount;
      if total >= U64_RANGE {
        TotalGrows(inv, points, k + 1);
        return Err("input total overflows");
      }
    }
    assert points[..|points|] == points;
    return Ok((kind.value, total));
  }

  function ConsolidationAmount(total: nat, fee: nat): Option<nat> {
    if fee < total then Some(total - fee) else None
  }

  /** Never a batch that spends over 1% of its value on fees. */
  function ConsolidationBatch(kind: Kind, points: seq<OutPoint>, total: nat, quote: Quote): Result<Batch> {
    if quote.fee * 100 > total then Err("batch fee exceeds 1% of its value; use a lower fee or wait")
    else if ConsolidationAmount(total, quote.fee).None? then Err("outputs do not cover the network fee")
    else Ok(Batch(kind, points, quote.fee, ConsolidationAmount(total, quote.fee).value, quote.bytes))
  }

  // ----- what a legacy transfer costs

  function PointsSize(points: seq<OutPoint>): nat {
    if points == [] then 0
    else
      var p := points[|points| - 1];
      PointsSize(points[..|points| - 1]) + CoinSelection.IdSize(p.txid) + CoinSelection.CompactLen(p.index) + 32
  }

  /** The size of the transfer that spends `points` into one output. */
  function LegacySize(points: seq<OutPoint>, amount: nat, fee: nat): nat {
    1 + CoinSelection.CompactLen(|points|) + PointsSize(points) + CoinSelection.CompactLen(1)
    + 32 + CoinSelection.CompactLen(amount) + CoinSelection.CompactLen(fee) + 64
  }

  function InputsOf(points: seq<OutPoint>, owner: string): seq<TxInput> {
    seq(|points|, i requires 0 <= i < |points| => TxInput(points[i], owner))
  }

  lemma {:induction false} PointsCounted(points: seq<OutPoint>, owner: string)
    ensures PointsSize(points) == CoinSelection.NodeInputsSize(InputsOf(points, owner))
  {
    if points != [] {
      var init, last := points[..|points| - 1], points[|points| - 1];
      PointsCounted(init, owner);
      assert InputsOf(points, owner) == InputsOf(init, owner) + [TxInput(last, owner)];
      CoinSelection.NodeInputsConcat(InputsOf(init, owner), [TxInput(last, owner)]);
      assert [TxInput(last, owner)][1..] == [];
    }
  }

  /** That is what the node counts for the transfer from these outputs to the wallet itself. */
  lemma LegacySizeIsNodeSize(points: seq<OutPoint>, owner: string, amount: nat, fee: nat)
    ensures LegacySize(points, amount, fee)
            == CoinSelection.NodeSize(InputsOf(points, owner), [TxOutput(owner, amount)], fee)
  {
    PointsCounted(points, owner);
    var output := TxOutput(owner, amount);
    assert [output][1..] == [];
    assert CoinSelection.NodeOutputsSize([output]) == 32 + CoinSelection.CompactLen(amount);
  }

  /** The least a transfer with one output can take, one byte for each number and 32 for each id. */
  function MinimumTransferSize(inputs: nat): nat {
    1 + CoinSelection.CompactLen(inputs) + 65 * inputs + CoinSelection.CompactLen(1) + 32 + 1 + 1 + 64
  }

  lemma {:induction false} PointsSizeBound(points: seq<OutPoint>)
    ensures 65 * |points| <= PointsSize(points)
  {
    if points != [] {
      PointsSizeBound(points[..|points| - 1]);
    }
  }

  lemma MinimumIsBelow(points: seq<OutPoint>, amount: nat, fee: nat)
    ensures MinimumTransferSize(|points|) <= LegacySize(points, amount, fee)
  {
    PointsSizeBound(points);
  }

  /** It is attained by short ids and small numbers. */
  lemma {:induction false} MinimumIsAttained(points: seq<OutPoint>, amount: nat, fee: nat)
    requires forall p :: p in points ==> CoinSelection.HexOf(p.txid, 32) && p.index < 128
    ensures PointsSize(points) == 65 * |points|
    ensures amount < 128 && fee < 128 ==> LegacySize(points, amount, fee) == MinimumTransferSize(|points|)
  {
    if points != [] {
      MinimumIsAttained(points[..|points| - 1], amount, fee);
    }
  }

  /** The fee loop from one fee on: raise the fee to what its transfer demands until it is enough. */
  function LegacyQuoteFrom(points: seq<OutPoint>, total: nat, terms: Terms, fee: nat, rounds: nat): Option<Quote>
    decreases rounds
  {
    if rounds == 0 || fee >= total then None
    else
      var bytes := LegacySize(points, total - fee, fee);
      var required := RequiredFee(terms.rate, bytes);
      if required.None? then None
      else if fee < required.value then LegacyQuoteFrom(points, total, terms, required.value, rounds - 1)
      else if terms.withinBudget(points, total - fee, fee) then Some(Quote(bytes, fee))
      else None
  }

  function LegacyQuote(points: seq<OutPoint>, total: nat, terms: Terms): Option<Quote> {
    LegacyQuoteFrom(points, total, terms, 1, ROUNDS)
  }

  method EstimateLegacyFee(points: seq<OutPoint>, total: nat, terms: Terms) returns (r: Result<Quote>)
    ensures LegacyQuote(points, total, terms) == if r.Ok? then Some(r.value) else None
  {
    var fee: nat := 1;
    for round := 0 to ROUNDS
      invariant LegacyQuote(points, total, terms) == LegacyQuoteFrom(points, total, terms, fee, ROUNDS - round)
    {
      var amount := ConsolidationAmount(total, fee);
      if amount.None? {
        return Err("outputs do not cover the network fee");
      }
      var bytes := LegacySize(points, amount.value, fee);
      var required := RequiredFee(terms.rate, bytes);
      if required.None? {
        return Err("fee per byte times transaction bytes overflows");
      }
      if fee >= required.value {
        if !terms.withinBudget(points, amount.value, fee) {
          return Err("transaction exceeds the block budget");
        }
        return Ok(Quote(bytes, fee));
      }
      fee := required.value;
    }
    return Err("legacy consolidation fee did not converge");
  }

  /** A fee the loop ends with leaves something to pay out and covers the very transfer it pays for. */
  lemma {:induction false} LegacyQuoteCovers(points: seq<OutPoint>, total: nat, terms: Terms, fee: nat, rounds: nat)
    requires fee >= 1 && LegacyQuoteFrom(points, total, terms, fee, rounds).Some?
    ensures var q := LegacyQuoteFrom(points, total, terms, fee, rounds).value;
            && fee <= q.fee < total && q.bytes == LegacySize(points, total - q.fee, q.fee)
            && Paid(terms.rate, q.bytes, q.fee) && terms.withinBudget(points, total - q.fee, q.fee)
    decreases rounds
  {
    var required := RequiredFee(terms.rate, LegacySize(points, total - fee, fee)).value;
    if fee < required {
      LegacyQuoteCovers(points, total, terms, required, rounds - 1);
    }
  }

  // ----- the fee previewed is the fee paid

  datatype Merge = Merge(points: seq<OutPoint>, amount: nat, fee: nat)

  function MergeSize(t: Merge): nat { LegacySize(t.points, t.amount, t.fee) }

  /** Building the transfer at a fee: it must leave something to pay out and fit a block. */
  function BuildAt(points: seq<OutPoint>, total: nat, terms: Terms, fee: nat): Result<Merge> {
    if fee < total && terms.withinBudget(points, total - fee, fee) then Ok(Merge(points, total - fee, fee))
    else Err("refused")
  }

  function Builder(points: seq<OutPoint>, total: nat, terms: Terms): nat -> Result<Merge> {
    (fee: nat) => BuildAt(points, total, terms, fee)
  }

  lemma SizeBuilt(points: seq<OutPoint>, total: nat, terms: Terms, build: nat -> Result<Merge>, fee: nat, bytes: nat)
    requires build == Builder(points, total, terms) && build(fee).Ok? && bytes == SizeAt(build, MergeSize, fee)
    ensures BuildAt(points, total, terms, fee).Ok? && bytes == LegacySize(points, total - fee, fee)
  {
  }

  lemma QuoteStep(points: seq<OutPoint>, total: nat, terms: Terms, fee: nat, bytes: nat, required: nat, rounds: nat)
    requires BuildAt(points, total, terms, fee).Ok? && bytes == LegacySize(points, total - fee, fee)
    requires RequiredFee(terms.rate, bytes) == Some(required) && rounds > 0
    ensures LegacyQuoteFrom(points, total, terms, fee, rounds)
            == if fee < required then LegacyQuoteFrom(points, total, terms, required, rounds - 1)
               else Some(Quote(bytes, fee))
  {
  }

  /** The quote is for the least of all exact fees. */
  ghost predicate LeastQuote(q: Option<Quote>, rate: nat, build: nat -> Result<Merge>) {
    && q.Some? && Exact(rate, build, MergeSize, q.value.fee) && q.value.bytes == SizeAt(build, MergeSize, q.value.fee)
    && forall p :: Exact(rate, build, MergeSize, p) ==> q.value.fee <= p
  }

  /** The estimate climbs to the least exact fee, like the search that builds the transfer. */
  lemma {:induction false} LegacyClimbs(points: seq<OutPoint>, total: nat, terms: Terms, build: nat -> Result<Merge>,
                                        sizes: set<nat>, limit: nat, seen: set<nat>, previous: nat, fee: nat,
                                        rounds: nat, q: Option<Quote>)
    requires build == Builder(points, total, terms) && q == LegacyQuoteFrom(points, total, terms, fee, rounds)
    requires Tame(terms.rate, build, MergeSize, sizes, limit)
    requires Climbing(terms.rate, build, MergeSize, sizes, limit, seen, previous, fee) && |sizes| < |seen| + rounds
    ensures LeastQuote(q, terms.rate, build)
    decreases rounds
  {
    SubsetSize(seen, sizes);
    var bytes, required := ClimbOnce(points, total, terms, build, sizes, limit, seen, previous, fee);
    QuoteStep(points, total, terms, fee, bytes, required, rounds);
    if fee != required {
      LegacyClimbs(points, total, terms, build, sizes, limit, seen + {bytes}, fee, required, rounds - 1, q);
    }
  }

  lemma ClimbOnce(points: seq<OutPoint>, total: nat, terms: Terms, build: nat -> Result<Merge>,
                  sizes: set<nat>, limit: nat, seen: set<nat>, previous: nat, fee: nat)
    returns (bytes: nat, required: nat)
    requires build == Builder(points, total, terms) && Tame(terms.rate, build, MergeSize, sizes, limit)
    requires Climbing(terms.rate, build, MergeSize, sizes, limit, seen, previous, fee)
    ensures build(fee).Ok? && bytes == SizeAt(build, MergeSize, fee) && RequiredFee(terms.rate, bytes) == Some(required)
    ensures BuildAt(points, total, terms, fee).Ok? && bytes == LegacySize(points, total - fee, fee)
    ensures fee != required ==>
              && bytes !in seen && fee < required
              && Climbing(terms.rate, build, MergeSize, sizes, limit, seen + {bytes}, fee, required)
  {
    DemandWithinLimit(terms.rate, build, MergeSize, sizes, limit, fee);
    bytes := SizeAt(build, MergeSize, fee);
    required := RequiredFee(terms.rate, bytes).value;
    SizeBuilt(points, total, terms, build, fee, bytes);
    if fee != required {
      Climb(terms.rate, build, MergeSize, sizes, limit, seen, previous, fee, required);
    }
  }

  /** Building the transfer for real. Whatever it returns pays for its size; where sizes are tame, it is
      exactly what the preview quoted. */
  method BuildLegacyConsolidation(points: seq<OutPoint>, total: nat, terms: Terms, ghost sizes: set<nat>,
                                  ghost limit: nat)
    returns (r: Result<Quote>)
    ensures r.Ok? ==> Paid(terms.rate, r.value.bytes, r.value.fee) && BuildAt(points, total, terms, r.value.fee).Ok?
    ensures r.Ok? ==> r.value.bytes == LegacySize(points, total - r.value.fee, r.value.fee)
    ensures Tame(terms.rate, Builder(points, total, terms), MergeSize, sizes, limit) && |sizes| < ROUNDS ==>
              r.Ok? && LegacyQuote(points, total, terms) == Some(r.value)
  {
    var build := Builder(points, total, terms);
    var e := ConvergeFeeByByte(terms.rate, build, MergeSize, sizes, limit);
    if Tame(terms.rate, build, MergeSize, sizes, limit) && |sizes| < ROUNDS {
      LegacyClimbs(points, total, terms, build, sizes, limit, {}, 0, 1, ROUNDS, LegacyQuote(points, total, terms));
    }
    if e.Err? {
      return Err(e.reason);
    }
    SizeBuilt(points, total, terms, build, e.value.fee, e.value.bytes);
    return Ok(Quote(e.value.bytes, e.value.fee));
  }

  /** A 64-bit number takes at most ten bytes. */
  lemma FeeBytes(fee: nat)
    requires fee < U64_RANGE
    ensures CoinSelection.CompactLen(fee) <= 10
  {
    assert CoinSelection.Pow128(5) == 0x8_0000_0000;
    assert CoinSelection.Pow128(10) == 0x40_0000_0000_0000_0000;
    CoinSelection.CompactLenAtMost(fee, 10);
  }

  /** While the amount keeps its number of bytes, the size grows with the fee's own bytes. */
  lemma MergeSizeAt(points: seq<OutPoint>, total: nat, terms: Terms, build: nat -> Result<Merge>, limit: nat, fee: nat)
    requires 1 <= fee <= limit < total < U64_RANGE && build == Builder(points, total, terms)
    requires CoinSelection.CompactLen(total - limit) == CoinSelection.CompactLen(total - 1)
    requires BuildAt(points, total, terms, fee).Ok?
    ensures build(fee).Ok? && CoinSelection.CompactLen(fee) <= 10
    ensures SizeAt(build, MergeSize, fee) == LegacySize(points, total - 1, 0) - 1 + CoinSelection.CompactLen(fee)
  {
    assert build(fee) == BuildAt(points, total, terms, fee);
    CoinSelection.CompactLenMonotone(total - limit, total - fee);
    CoinSelection.CompactLenMonotone(total - fee, total - 1);
    FeeBytes(fee);
  }

  /** A consolidation is tame up to any fee it can pay at which the amount still has its full number of
      bytes: so its preview quotes the least exact fee, and building pays just that. */
  lemma ConsolidationIsTame(points: seq<OutPoint>, total: nat, terms: Terms, limit: nat) returns (sizes: set<nat>)
    requires 1 <= limit < total < U64_RANGE
    requires CoinSelection.CompactLen(total - limit) == CoinSelection.CompactLen(total - 1)
    requires forall fee :: 1 <= fee <= limit ==> BuildAt(points, total, terms, fee).Ok?
    requires Paid(terms.rate, LegacySize(points, total - limit, limit), limit)
    ensures |sizes| < ROUNDS && Tame(terms.rate, Builder(points, total, terms), MergeSize, sizes, limit)
  {
    var build, base := Builder(points, total, terms), LegacySize(points, total - 1, 0) - 1;
    sizes := RangeOf(base, 11);
    forall fee: nat | 1 <= fee <= limit
      ensures build(fee).Ok? && SizeAt(build, MergeSize, fee) in sizes
      ensures SizeAt(build, MergeSize, fee) == base + CoinSelection.CompactLen(fee)
    {
      MergeSizeAt(points, total, terms, build, limit, fee);
    }
    forall a: nat, b: nat | 1 <= a <= b <= limit
      ensures SizeAt(build, MergeSize, a) <= SizeAt(build, MergeSize, b)
    {
      CoinSelection.CompactLenMonotone(a, b);
    }
    SizeBuilt(points, total, terms, build, limit, SizeAt(build, MergeSize, limit));
  }

  // ----- previewing a batch

  /** A hybrid transfer's size does not depend on its fee, so no search is needed. */
  function HybridQuote(points: seq<OutPoint>, total: nat, terms: Terms): Option<Quote> {
    if total <= 1 || terms.hybridSize(points, total - 1).Err? then None
    else
      var bytes := terms.hybridSize(points, total - 1).value;
      var fee := RequiredFee(terms.rate, bytes);
      if fee.None? || fee.value >= total then None else Some(Quote(bytes, fee.value))
  }

  /** It is the least fee that pays for the hybrid transfer and leaves something to pay out, if any does. */
  lemma HybridQuoteIsLeast(points: seq<OutPoint>, total: nat, terms: Terms, fee: nat)
    requires terms.hybridSize(points, SaturatingSub(total, 1)).Ok?
    ensures var bytes, q := terms.hybridSize(points, SaturatingSub(total, 1)).value, HybridQuote(points, total, terms);
            && (Paid(terms.rate, bytes, fee) && fee < total ==> q.Some? && q.value.fee <= fee)
            && (q.Some? ==> q.value.bytes == bytes && Paid(terms.rate, bytes, q.value.fee) && q.value.fee < total)
  {
  }

  method EstimateHybridFee(points: seq<OutPoint>, total: nat, terms: Terms) returns (r: Result<Quote>)
    ensures HybridQuote(points, total, terms) == if r.Ok? then Some(r.value) else None
  {
    var least := ConsolidationAmount(total, 1);
    if least.None? {
      return Err("outputs do not cover the network fee");
    }
    var bytes := terms.hybridSize(points, least.value);
    if bytes.Err? {
      return Err(bytes.reason);
    }
    var fee := RequiredFee(terms.rate, bytes.value);
    if fee.None? {
      return Err("fee per byte times transaction bytes overflows");
    }
    if ConsolidationAmount(total, fee.value).None? {
      return Err("outputs do not cover the network fee");
    }
    return Ok(Quote(bytes.value, fee.value));
  }

  function QuoteFor(kind: Kind, points: seq<OutPoint>, total: nat, terms: Terms): Option<Quote> {
    match kind
    case Legacy => LegacyQuote(points, total, terms)
    case Hybrid => HybridQuote(points, total, terms)
  }

  /** The batch of exactly these outputs, if they can be consolidated at a fee within the cap. */
  ghost function Preview(inv: Inventory, points: seq<OutPoint>, mergeRoots: bool, terms: Terms): Option<Batch> {
    if !Consolidable(inv, points, mergeRoots) || TotalOf(inv, points) >= U64_RANGE then None
    else
      var kind, total := inv.confirmed[points[0]].kind, TotalOf(inv, points);
      var quote := QuoteFor(kind, points, total, terms);
      if quote.None? then None
      else
        var batch := ConsolidationBatch(kind, points, total, quote.value);
        if batch.Ok? then Some(batch.value) else None
  }

  /** Exactly the outputs that can be consolidated, whose total fits 64 bits and whose quoted fee is at
      most a hundredth of it are accepted. */
  lemma PreviewAccepts(inv: Inventory, points: seq<OutPoint>, mergeRoots: bool, terms: Terms)
    ensures Preview(inv, points, mergeRoots, terms).Some? <==>
              && Consolidable(inv, points, mergeRoots)
              && TotalOf(inv, points) < 0x1_0000_0000_0000_0000
              && var q := QuoteFor(inv.confirmed[points[0]].kind, points, TotalOf(inv, points), terms);
                 q.Some? && q.value.fee <= TotalOf(inv, points) / 100 && q.value.fee < TotalOf(inv, points)
  {
  }

  /** Hybrid outputs are accepted exactly when some fee of at most a hundredth pays for their transfer. */
  lemma HybridAccepted(inv: Inventory, points: seq<OutPoint>, mergeRoots: bool, terms: Terms)
    requires Consolidable(inv, points, mergeRoots) && TotalOf(inv, points) < U64_RANGE
    requires inv.confirmed[points[0]].kind.Hybrid?
    ensures Preview(inv, points, mergeRoots, terms).Some? <==>
              && terms.hybridSize(points, SaturatingSub(TotalOf(inv, points), 1)).Ok?
              && var bytes := terms.hybridSize(points, SaturatingSub(TotalOf(inv, points), 1)).value;
                 exists fee: nat :: Paid(terms.rate, bytes, fee) && fee <= TotalOf(inv, points) / 100
  {
    var total := TotalOf(inv, points);
    var size := terms.hybridSize(points, SaturatingSub(total, 1));
    PreviewAccepts(inv, points, mergeRoots, terms);
    if size.Ok? {
      forall fee: nat | Paid(terms.rate, size.value, fee) && fee <= total / 100
        ensures HybridQuote(points, total, terms).Some? && HybridQuote(points, total, terms).value.fee <= fee
      {
        HybridQuoteIsLeast(points, total, terms, fee);
      }
      HybridQuoteIsLeast(points, total, terms, 1);
    }
  }

  method PreviewConsolidation(inv: Inventory, points: seq<OutPoint>, mergeRoots: bool, terms: Terms)
    returns (r: Result<Batch>)
    ensures Preview(inv, points, mergeRoots, terms) == if r.Ok? then Some(r.value) else None
  {
    var inputs := ConsolidationInputs(inv, points, mergeRoots);
    if inputs.Err? {
      return Err(inputs.reason);
    }
    var quote;
    if inputs.value.0.Legacy? {
      quote := EstimateLegacyFee(points, inputs.value.1, terms);
    } else {
      quote := EstimateHybridFee(points, inputs.value.1, terms);
    }
    if quote.Err? {
      return Err(quote.reason);
    }
    return ConsolidationBatch(inputs.value.0, points, inputs.value.1, quote.value);
  }

  /** A previewed batch conserves value, stays within the fee cap, and pays for its own size. */
  lemma PreviewHolds(inv: Inventory, points: seq<OutPoint>, mergeRoots: bool, terms: Terms)
    requires Preview(inv, points, mergeRoots, terms).Some?
    ensures BatchHolds(inv, Preview(inv, points, mergeRoots, terms).value, mergeRoots, terms)
    ensures Preview(inv, points, mergeRoots, terms).value.utxos == points
  {
    if inv.confirmed[points[0]].kind.Legacy? {
      LegacyQuoteCovers(points, TotalOf(inv, points), terms, 1, ROUNDS);
    }
  }

  // ----- the quick fee check

  predicate CanMeetFeeCap(total: nat, inputs: nat, rate: nat) {
    Max(rate * MinimumTransferSize(inputs), 1) * 100 <= total
  }

  lemma CapOfLarger(total: nat, inputs: nat, rate: nat, bytes: nat, fee: nat)
    requires MinimumTransferSize(inputs) <= bytes && Paid(rate, bytes, fee) && fee * 100 <= total
    ensures CanMeetFeeCap(total, inputs, rate)
  {
    var spare := bytes - MinimumTransferSize(inputs);
    assert rate * bytes == rate * MinimumTransferSize(inputs) + rate * spare;
    assert rate * spare >= 0;
  }

  /** The quick check asks whether a hundredth of the value pays for the minimum size. */
  lemma CapCheckIs(total: nat, inputs: nat, rate: nat)
    ensures CanMeetFeeCap(total, inputs, rate) <==>
            1 <= total / 100 && rate * MinimumTransferSize(inputs) <= total / 100
  {
  }

  /** The quick check turns away no outputs whose batch would be accepted: every legacy transfer has the
      minimum size, so only the size of hybrid ones is a hypothesis. */
  lemma FeeCapCheckIsSound(inv: Inventory, points: seq<OutPoint>, mergeRoots: bool, terms: Terms)
    requires Preview(inv, points, mergeRoots, terms).Some?
    requires var b := Preview(inv, points, mergeRoots, terms).value;
             b.kind.Hybrid? ==> MinimumTransferSize(|points|) <= b.bytes
    ensures CanMeetFeeCap(TotalOf(inv, points), |points|, terms.rate)
  {
    PreviewHolds(inv, points, mergeRoots, terms);
    var b := Preview(inv, points, mergeRoots, terms).value;
    if b.kind.Legacy? {
      MinimumIsBelow(points, b.amount, b.fee);
    }
    CapOfLarger(TotalOf(inv, points), |points|, terms.rate, b.bytes, b.fee);
  }
}
