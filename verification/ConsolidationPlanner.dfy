/** The consolidation planner: reserve the largest output of each kind, group the rest, and cut the
    groups into batches. */
module ConsolidationPlanner {
  import opened Results
  import opened Maps
  import opened Transactions
  import opened Consolidation
  import opened Bits
  import opened Segments

  datatype Key = Key(kind: Kind, root: Option<OutPoint>)

  function KeyOf(inv: Inventory, p: OutPoint, mergeRoots: bool): Key
    requires p in inv.confirmed
  {
    Key(inv.confirmed[p].kind, if mergeRoots then None else inv.root(p))
  }

  // ----- candidates

  /** Candidates share a group exactly if they are of one kind and, unless roots are merged, one root. */
  lemma SameGroup(inv: Inventory, p: OutPoint, q: OutPoint, mergeRoots: bool)
    requires p in inv.confirmed && q in inv.confirmed
    ensures KeyOf(inv, p, mergeRoots) == KeyOf(inv, q, mergeRoots) <==>
            inv.confirmed[p].kind == inv.confirmed[q].kind && (mergeRoots || inv.root(p) == inv.root(q))
  {
  }

  /** The spendable outputs of one kind. */
  ghost predicate OfKind(inv: Inventory, p: OutPoint, kind: Kind) {
    Spendable(inv, p) && inv.confirmed[p].kind == kind
  }

  /** No spendable output of the kind is larger than `p`. */
  ghost predicate Largest(inv: Inventory, p: OutPoint, kind: Kind) {
    OfKind(inv, p, kind) && forall q :: OfKind(inv, q, kind) ==> inv.confirmed[q].amount <= inv.confirmed[p].amount
  }

  /** Candidates come kind by kind, smallest amount first. */
  predicate Before(a: Coin, b: Coin) {
    if a.kind == b.kind then a.amount <= b.amount else a.kind.Legacy?
  }

  predicate BeforeIn(inv: Inventory, p: OutPoint, q: OutPoint) {
    p in inv.confirmed && q in inv.confirmed && Before(inv.confirmed[p], inv.confirmed[q])
  }

  ghost predicate Ordered(inv: Inventory, points: seq<OutPoint>) {
    forall i, j :: 0 <= i < j < |points| ==> BeforeIn(inv, points[i], points[j])
  }

  ghost predicate Lists(points: seq<OutPoint>, chosen: set<OutPoint>) {
    Distinct(points) && forall p :: p in points <==> p in chosen
  }

  predicate First(inv: Inventory, points: set<OutPoint>, p: OutPoint) {
    p in points && forall q :: q in points ==> BeforeIn(inv, p, q)
  }

  lemma {:induction false} FirstExists(inv: Inventory, points: set<OutPoint>)
    requires points <= inv.confirmed.Keys && points != {}
    ensures exists p :: First(inv, points, p)
  {
    var p :| p in points;
    var rest := points - {p};
    assert points == rest + {p};
    if rest == {} {
      assert First(inv, points, p);
    } else {
      FirstExists(inv, rest);
      var q :| First(inv, rest, q);
      assert First(inv, points, if BeforeIn(inv, p, q) then p else q);
    }
  }

  /** Sort by kind, then amount; ties, which the source breaks by outpoint, in any order. */
  method SortCandidates(inv: Inventory, chosen: set<OutPoint>) returns (points: seq<OutPoint>)
    requires chosen <= inv.confirmed.Keys
    ensures Lists(points, chosen) && Ordered(inv, points)
  {
    points := [];
    var left := chosen;
    while left != {}
      invariant left <= chosen && Lists(points, chosen - left) && Ordered(inv, points)
      invariant forall i, q :: 0 <= i < |points| && q in left ==> BeforeIn(inv, points[i], q)
    {
      FirstExists(inv, left);
      var p :| p in left && First(inv, left, p);
      points := points + [p];
      left := left - {p};
    }
  }

  /** Remove the last candidate of a kind: the largest one. */
  method ReserveLargest(inv: Inventory, points: seq<OutPoint>, kind: Kind, ghost chosen: set<OutPoint>)
    returns (rest: seq<OutPoint>, ghost kept: Option<OutPoint>)
    requires chosen <= inv.confirmed.Keys && Lists(points, chosen) && Ordered(inv, points)
    ensures Lists(rest, if kept.Some? then chosen - {kept.value} else chosen) && Ordered(inv, rest)
    ensures kept.Some? ==> kept.value in chosen && inv.confirmed[kept.value].kind == kind
    ensures kept.Some? ==>
              forall q :: q in chosen && inv.confirmed[q].kind == kind ==>
                inv.confirmed[q].amount <= inv.confirmed[kept.value].amount
    ensures kept.None? ==> forall q :: q in chosen ==> inv.confirmed[q].kind != kind
  {
    var i: nat := |points|;
    while i > 0
      invariant i <= |points|
      invariant forall j :: i <= j < |points| ==> points[j] in inv.confirmed && inv.confirmed[points[j]].kind != kind
    {
      i := i - 1;
      if inv.confirmed[points[i]].kind == kind {
        RemovedAt(points, i, chosen);
        rest := points[..i] + points[i + 1..];
        forall q | q in chosen && inv.confirmed[q].kind == kind
          ensures inv.confirmed[q].amount <= inv.confirmed[points[i]].amount
        {
          var j :| 0 <= j < |points| && points[j] == q;
        }
        return rest, Some(points[i]);
      }
    }
    return points, None;
  }

  lemma RemovedAt(points: seq<OutPoint>, i: nat, chosen: set<OutPoint>)
    requires i < |points| && Lists(points, chosen)
    ensures Lists(points[..i] + points[i + 1..], chosen - {points[i]})
  {
    var rest := points[..i] + points[i + 1..];
    forall p
      ensures p in rest <==> p in chosen - {points[i]}
    {
      if p in points && p != points[i] {
        var j :| 0 <= j < |points| && points[j] == p;
        assert rest[if j < i then j else j - 1] == p;
      }
    }
  }

  // ----- groups

  ghost function PointSet(points: seq<OutPoint>): set<OutPoint> { set p | p in points }

  type Groups = map<Key, seq<OutPoint>>

  /** A group lists distinct candidates that share its key, smallest first. */
  ghost predicate GroupHolds(inv: Inventory, key: Key, group: seq<OutPoint>, chosen: set<OutPoint>, mergeRoots: bool) {
    && Distinct(group) && Ordered(inv, group)
    && forall p :: p in group ==> p in chosen && p in inv.confirmed && KeyOf(inv, p, mergeRoots) == key
  }

  ghost predicate Grouped(inv: Inventory, groups: Groups, chosen: set<OutPoint>, mergeRoots: bool) {
    forall key :: key in groups ==> GroupHolds(inv, key, groups[key], chosen, mergeRoots)
  }

  ghost predicate AllGrouped(inv: Inventory, groups: Groups, chosen: set<OutPoint>, mergeRoots: bool)
    requires chosen <= inv.confirmed.Keys
  {
    forall p :: p in chosen ==> InGroup(inv, groups, p, mergeRoots)
  }

  /** A later candidate keeps a group of earlier ones distinct and in order. */
  lemma GroupGrows(inv: Inventory, points: seq<OutPoint>, k: nat, group: seq<OutPoint>)
    requires k < |points| && Distinct(points) && Ordered(inv, points)
    requires Distinct(group) && Ordered(inv, group) && forall p :: p in group ==> p in points[..k]
    ensures Distinct(group + [points[k]]) && Ordered(inv, group + [points[k]])
  {
    forall i | 0 <= i < |group|
      ensures group[i] != points[k] && BeforeIn(inv, group[i], points[k])
    {
      assert group[i] in group;
      var j :| 0 <= j < k && points[..k][j] == group[i];
      assert points[j] == group[i];
    }
  }

  /** The candidates before `k` are all in their groups. */
  ghost predicate GroupedUpTo(inv: Inventory, groups: Groups, points: seq<OutPoint>, k: nat, mergeRoots: bool)
    requires k <= |points|
  {
    && Grouped(inv, groups, PointSet(points[..k]), mergeRoots)
    && forall i :: 0 <= i < k ==> points[i] in inv.confirmed && InGroup(inv, groups, points[i], mergeRoots)
  }

  ghost predicate InGroup(inv: Inventory, groups: Groups, p: OutPoint, mergeRoots: bool)
    requires p in inv.confirmed
  {
    KeyOf(inv, p, mergeRoots) in groups && p in groups[KeyOf(inv, p, mergeRoots)]
  }

  lemma GroupedOneMore(inv: Inventory, groups: Groups, points: seq<OutPoint>, k: nat, mergeRoots: bool,
                       key: Key, group: seq<OutPoint>, more: Groups)
    requires k < |points| && Distinct(points) && Ordered(inv, points) && GroupedUpTo(inv, groups, points, k, mergeRoots)
    requires points[k] in inv.confirmed && key == KeyOf(inv, points[k], mergeRoots)
    requires group == (if key in groups then groups[key] else []) && more == groups[key := group + [points[k]]]
    ensures GroupedUpTo(inv, more, points, k + 1, mergeRoots)
  {
    var before, after := PointSet(points[..k]), PointSet(points[..k + 1]);
    assert points[..k + 1] == points[..k] + [points[k]];
    GroupGrows(inv, points, k, group);
    forall other | other in more
      ensures GroupHolds(inv, other, more[other], after, mergeRoots)
    {
      if other != key {
        assert GroupHolds(inv, other, groups[other], before, mergeRoots);
      }
    }
    forall i | 0 <= i < k + 1
      ensures points[i] in inv.confirmed && InGroup(inv, more, points[i], mergeRoots)
    {
      if i < k {
        assert InGroup(inv, groups, points[i], mergeRoots);
      }
    }
  }

  method GroupCandidates(inv: Inventory, points: seq<OutPoint>, mergeRoots: bool, ghost chosen: set<OutPoint>)
    returns (groups: Groups)
    requires chosen <= inv.confirmed.Keys && Lists(points, chosen) && Ordered(inv, points)
    ensures Grouped(inv, groups, chosen, mergeRoots) && AllGrouped(inv, groups, chosen, mergeRoots)
  {
    groups := map[];
    for k := 0 to |points|
      invariant GroupedUpTo(inv, groups, points, k, mergeRoots)
    {
      var key := KeyOf(inv, points[k], mergeRoots);
      var group := if key in groups then groups[key] else [];
      var more := groups[key := group + [points[k]]];
      GroupedOneMore(inv, groups, points, k, mergeRoots, key, group, more);
      groups := more;
    }
    assert points[..|points|] == points;
  }

  // ----- batches

  /** The numbers of outputs tried from `first` on: halved while at least two. */
  ghost predicate Tried(first: nat, count: nat) {
    count >= 2 && (count == first || (first >= 2 && Tried(first / 2, count)))
  }

  lemma {:induction false} TriedFrom(first: nat, count: nat) returns (k: nat)
    requires Tried(first, count)
    ensures count == Shr(first, k)
  {
    k := 0;
    if count != first {
      k := TriedFrom(first / 2, count);
      k := k + 1;
    }
  }

  lemma {:induction false} TriedAt(first: nat, k: nat)
    requires Shr(first, k) >= 2
    ensures Tried(first, Shr(first, k))
  {
    if k > 0 {
      ShrIsQuotient(first, k);
      TriedAt(first / 2, k - 1);
    }
  }

  /** `first` divided by a power of two, if at least two. */
  ghost predicate Halved(first: nat, count: nat, k: nat) { count >= 2 && count == first / Pow2(k) }

  /** These are the numbers of at least two that the first one gives when divided by a power of two. */
  lemma TriedIsHalving(first: nat, count: nat)
    ensures Tried(first, count) <==> exists k: nat :: Halved(first, count, k)
  {
    if Tried(first, count) {
      var k := TriedFrom(first, count);
      ShrIsQuotient(first, k);
      assert Halved(first, count, k);
    }
    forall k: nat | Halved(first, count, k)
      ensures Tried(first, count)
    {
      ShrIsQuotient(first, k);
      TriedAt(first, k);
    }
  }

  /** The first number of outputs tried at a position of a group. */
  function FirstCount(group: seq<OutPoint>, at: nat): nat
    requires at <= |group|
  {
    Min(BATCH_INPUTS, |group| - at)
  }

  /** The `count` outputs from a position on pass the quick check and the preview. */
  ghost predicate Accepted(inv: Inventory, group: seq<OutPoint>, at: nat, count: nat, mergeRoots: bool, terms: Terms)
    requires forall p :: p in group ==> p in inv.confirmed
  {
    && at + count <= |group|
    && CanMeetFeeCap(TotalOf(inv, group[at..at + count]), count, terms.rate)
    && Preview(inv, group[at..at + count], mergeRoots, terms).Some?
  }

  /** No number of outputs tried at a position is accepted. */
  ghost predicate Barren(inv: Inventory, group: seq<OutPoint>, at: nat, mergeRoots: bool, terms: Terms)
    requires at <= |group| && forall p :: p in group ==> p in inv.confirmed
  {
    forall count: nat :: Tried(FirstCount(group, at), count) ==> !Accepted(inv, group, at, count, mergeRoots, terms)
  }

  /** At most 128 outputs are tried, then half as many, and so on down to two. */
  lemma BarrenMeans(inv: Inventory, group: seq<OutPoint>, at: nat, mergeRoots: bool, terms: Terms, first: nat)
    requires at <= |group| && first == Min(128, |group| - at) && forall p :: p in group ==> p in inv.confirmed
    ensures Barren(inv, group, at, mergeRoots, terms) <==>
            forall count: nat, k: nat :: Halved(first, count, k) ==>
              !Accepted(inv, group, at, count, mergeRoots, terms)
  {
    forall count: nat
      ensures Tried(first, count) <==> exists k: nat :: Halved(first, count, k)
    {
      TriedIsHalving(first, count);
    }
  }

  /** Halve the number of outputs until a batch is accepted; one output is passed over exactly if none is. */
  method TryBatch(inv: Inventory, group: seq<OutPoint>, offset: nat, mergeRoots: bool, terms: Terms)
    returns (r: Option<Batch>, taken: seq<OutPoint>)
    requires offset < |group| && forall p :: p in group ==> p in inv.confirmed
    ensures 0 < |taken| && offset + |taken| <= |group| && taken == group[offset..offset + |taken|]
    ensures r.Some? ==> BatchHolds(inv, r.value, mergeRoots, terms) && r.value.utxos == taken
    ensures r.Some? ==> Preview(inv, taken, mergeRoots, terms) == r
    ensures r.Some? ==> forall count: nat :: Tried(FirstCount(group, offset), count) && count > |taken| ==>
                          !Accepted(inv, group, offset, count, mergeRoots, terms)
    ensures r.None? <==> Barren(inv, group, offset, mergeRoots, terms)
    ensures r.None? ==> |taken| == 1
  {
    var count := FirstCount(group, offset);
    ghost var first := count;
    while count >= 2
      invariant offset + count <= |group|
      invariant forall c: nat :: Tried(first, c) ==>
                  Tried(count, c) || (c > count && !Accepted(inv, group, offset, c, mergeRoots, terms))
      invariant count >= 2 ==> Tried(first, count)
    {
      var candidates := group[offset..offset + count];
      if CanMeetFeeCap(TotalOf(inv, candidates), count, terms.rate) {
        var batch := PreviewConsolidation(inv, candidates, mergeRoots, terms);
        if batch.Ok? {
          PreviewHolds(inv, candidates, mergeRoots, terms);
          TriedBounds(count);
          assert Accepted(inv, group, offset, count, mergeRoots, terms);
          return Some(batch.value), candidates;
        }
      }
      HalvedTried(first, count);
      count := count / 2;
    }
    return None, group[offset..offset + 1];
  }

  lemma {:induction false} TriedBound(first: nat, count: nat)
    requires Tried(first, count)
    ensures count <= first
  {
    if count != first {
      TriedBound(first / 2, count);
    }
  }

  lemma TriedBounds(first: nat)
    ensures forall count: nat :: Tried(first, count) ==> count <= first
  {
    forall count: nat | Tried(first, count)
      ensures count <= first
    {
      TriedBound(first, count);
    }
  }

  /** Half of a number tried is tried next. */
  lemma {:induction false} HalvedTried(first: nat, count: nat)
    requires Tried(first, count)
    ensures count / 2 >= 2 ==> Tried(first, count / 2)
  {
    if count != first {
      HalvedTried(first / 2, count);
    } else if count / 2 >= 2 {
      assert Tried(count / 2, count / 2);
    }
  }

  function SizeSum(batches: seq<Batch>): nat {
    if batches == [] then 0 else SizeSum(batches[..|batches| - 1]) + |batches[|batches| - 1].utxos|
  }

  /** How many outputs the batches save: each replaces its inputs by one output. */
  function Saved(batches: seq<Batch>): int {
    if batches == [] then 0 else Saved(batches[..|batches| - 1]) + |batches[|batches| - 1].utxos| - 1
  }

  function FeeSum(batches: seq<Batch>): nat {
    if batches == [] then 0 else FeeSum(batches[..|batches| - 1]) + batches[|batches| - 1].fee
  }

  ghost predicate Disjoint(batches: seq<Batch>) {
    forall i, j :: 0 <= i < j < |batches| ==> PointSet(batches[i].utxos) !! PointSet(batches[j].utxos)
  }

  /** Every batch holds, no two share an output, and `used` are the outputs they spend. */
  ghost predicate BatchesHold(inv: Inventory, batches: seq<Batch>, mergeRoots: bool, terms: Terms,
                              used: set<OutPoint>) {
    && |batches| <= MAX_BATCHES
    && (forall i :: 0 <= i < |batches| ==> BatchHolds(inv, batches[i], mergeRoots, terms))
    && Disjoint(batches)
    && (forall i :: 0 <= i < |batches| ==> PointSet(batches[i].utxos) <= used)
    && used <= inv.confirmed.Keys && |used| == SizeSum(batches)
  }

  /** What the plan promises. */
  ghost predicate PlanHolds(inv: Inventory, plan: Plan, mergeRoots: bool, terms: Terms, used: set<OutPoint>) {
    && BatchesHold(inv, plan.batches, mergeRoots, terms, used)
    && plan.before == |inv.confirmed|
    && plan.after == plan.before - Saved(plan.batches)
    && plan.fee == FeeSum(plan.batches)
  }

  lemma {:induction false} SavedBelowSize(batches: seq<Batch>)
    ensures Saved(batches) == SizeSum(batches) - |batches|
  {
    if batches != [] {
      SavedBelowSize(batches[..|batches| - 1]);
    }
  }

  lemma {:induction false} DistinctSize(points: seq<OutPoint>)
    requires Distinct(points)
    ensures |PointSet(points)| == |points|
  {
    if points != [] {
      var init, last := points[..|points| - 1], points[|points| - 1];
      DistinctSize(init);
      assert PointSet(points) == PointSet(init) + {last};
    }
  }

  lemma BatchAdded(inv: Inventory, batches: seq<Batch>, mergeRoots: bool, terms: Terms, used: set<OutPoint>, b: Batch,
                   more: set<OutPoint>)
    requires BatchesHold(inv, batches, mergeRoots, terms, used) && |batches| < MAX_BATCHES
    requires BatchHolds(inv, b, mergeRoots, terms)
    requires more == PointSet(b.utxos) && more !! used
    ensures BatchesHold(inv, batches + [b], mergeRoots, terms, used + more)
  {
    assert (batches + [b])[..|batches|] == batches;
    DistinctSize(b.utxos);
    assert |used + more| == |used| + |more|;
    DisjointAdded(batches, b, used);
  }

  lemma DisjointAdded(batches: seq<Batch>, b: Batch, used: set<OutPoint>)
    requires Disjoint(batches) && (forall i :: 0 <= i < |batches| ==> PointSet(batches[i].utxos) <= used)
    requires PointSet(b.utxos) !! used
    ensures Disjoint(batches + [b])
  {
  }

  /** One more batch of unused outputs: the count of outputs after consolidation cannot underflow. */
  lemma CountCannotUnderflow(inv: Inventory, batches: seq<Batch>, mergeRoots: bool, terms: Terms, used: set<OutPoint>)
    requires BatchesHold(inv, batches, mergeRoots, terms, used)
    ensures Saved(batches) <= |inv.confirmed|
  {
    SubsetSize(used, inv.confirmed.Keys);
    assert |inv.confirmed| == |inv.confirmed.Keys|;
    SavedBelowSize(batches);
  }

  /** Add an accepted batch to the plan. */
  method AddBatch(plan: Plan, b: Batch, ghost inv: Inventory, ghost mergeRoots: bool, ghost terms: Terms,
                  ghost used: set<OutPoint>, ghost more: set<OutPoint>)
    returns (r: Result<Plan>)
    requires PlanHolds(inv, plan, mergeRoots, terms, used) && |plan.batches| < MAX_BATCHES
    requires BatchHolds(inv, b, mergeRoots, terms)
    requires more == PointSet(b.utxos) && more !! used
    ensures r.Ok? <==> plan.fee + b.fee < U64_RANGE
    ensures r.Ok? ==> PlanHolds(inv, r.value, mergeRoots, terms, used + more) && |r.value.batches| == |plan.batches| + 1
  {
    ghost var all := plan.batches + [b];
    BatchAdded(inv, plan.batches, mergeRoots, terms, used, b, more);
    CountCannotUnderflow(inv, all, mergeRoots, terms, used + more);
    assert all[..|plan.batches|] == plan.batches;
    var after := plan.after - (|b.utxos| - 1);
    if plan.fee + b.fee >= U64_RANGE {
      return Err("total fee overflows");
    }
    return Ok(Plan(plan.before, after, plan.fee + b.fee, plan.batches + [b]));
  }

  /** Every output before `end` is spent by a batch, or stands where nothing tried is accepted. */
  ghost predicate Exhausted(inv: Inventory, group: seq<OutPoint>, end: nat, used: set<OutPoint>, mergeRoots: bool,
                            terms: Terms)
    requires end <= |group| && forall p :: p in group ==> p in inv.confirmed
  {
    forall i :: 0 <= i < end ==> group[i] in used || Barren(inv, group, i, mergeRoots, terms)
  }

  /** One round on a group: find the batch at a position, or pass over one output. */
  method FindNext(inv: Inventory, group: seq<OutPoint>, offset: nat, mergeRoots: bool, terms: Terms,
                  ghost before: set<OutPoint>, ghost done: set<OutPoint>, ghost used: set<OutPoint>)
    returns (batch: Option<Batch>, end: nat, ghost more: set<OutPoint>, ghost done': set<OutPoint>)
    requires Distinct(group) && (forall p :: p in group ==> p in inv.confirmed && p !in before) && offset < |group|
    requires done == PointSet(group[..offset]) && before <= used <= before + done
    requires Exhausted(inv, group, offset, used, mergeRoots, terms)
    ensures offset < end <= |group| && done' == PointSet(group[..end]) && used + more <= before + done' && more !! used
    ensures batch.Some? ==> BatchHolds(inv, batch.value, mergeRoots, terms) && more == PointSet(batch.value.utxos)
    ensures Exhausted(inv, group, end, if batch.Some? then used + more else used, mergeRoots, terms)
  {
    var taken;
    batch, taken := TryBatch(inv, group, offset, mergeRoots, terms);
    more := PointSet(taken);
    end, done' := offset + |taken|, done + more;
    GroupSplit(group, offset, taken, before, done, more);
    Apart(more, before, done, used);
    ExhaustedMore(inv, group, offset, taken, used, mergeRoots, terms, batch.Some?, more);
  }

  /** Cut one group into batches. */
  method PlanGroup(inv: Inventory, group: seq<OutPoint>, start: Plan, mergeRoots: bool, terms: Terms,
                   ghost before: set<OutPoint>)
    returns (r: Result<Plan>, ghost used: set<OutPoint>)
    requires Distinct(group) && (forall p :: p in group ==> p in inv.confirmed && p !in before)
    requires PlanHolds(inv, start, mergeRoots, terms, before)
    ensures r.Ok? ==> PlanHolds(inv, r.value, mergeRoots, terms, used) && before <= used <= before + PointSet(group)
    ensures r.Ok? ==> |start.batches| <= |r.value.batches|
    ensures r.Ok? && |r.value.batches| < MAX_BATCHES ==> Exhausted(inv, group, |group|, used, mergeRoots, terms)
  {
    var plan, offset := start, 0;
    used := before;
    ghost var done: set<OutPoint> := {};
    while offset + 1 < |group| && |plan.batches| < MAX_BATCHES
      invariant offset <= |group| && PlanHolds(inv, plan, mergeRoots, terms, used) && |start.batches| <= |plan.batches|
      invariant done == PointSet(group[..offset]) && before <= used <= before + done
      invariant Exhausted(inv, group, offset, used, mergeRoots, terms)
    {
      var batch; ghost var more;
      batch, offset, more, done := FindNext(inv, group, offset, mergeRoots, terms, before, done, used);
      if batch.Some? {
        r := AddBatch(plan, batch.value, inv, mergeRoots, terms, used, more);
        if r.Err? {
          return;
        }
        plan, used := r.value, used + more;
      }
    }
    if offset + 1 >= |group| {
      LastIsBarren(inv, group, mergeRoots, terms);
    }
    return Ok(plan), used;
  }

  lemma ExhaustedMore(inv: Inventory, group: seq<OutPoint>, end: nat, part: seq<OutPoint>, used: set<OutPoint>,
                      mergeRoots: bool, terms: Terms, spent: bool, more: set<OutPoint>)
    requires end + |part| <= |group| && part == group[end..end + |part|] && more == PointSet(part)
    requires forall p :: p in group ==> p in inv.confirmed
    requires Exhausted(inv, group, end, used, mergeRoots, terms)
    requires !spent ==> |part| == 1 && Barren(inv, group, end, mergeRoots, terms)
    ensures Exhausted(inv, group, end + |part|, if spent then used + more else used, mergeRoots, terms)
  {
    var after := if spent then used + more else used;
    forall i | 0 <= i < end + |part|
      ensures group[i] in after || Barren(inv, group, i, mergeRoots, terms)
    {
      if i >= end {
        assert group[i] == part[i - end];
      }
    }
  }

  /** One output alone is never a batch. */
  lemma LastIsBarren(inv: Inventory, group: seq<OutPoint>, mergeRoots: bool, terms: Terms)
    requires forall p :: p in group ==> p in inv.confirmed
    ensures group != [] ==> Barren(inv, group, |group| - 1, mergeRoots, terms)
  {
    TriedBounds(1);
  }

  lemma GroupSplit(group: seq<OutPoint>, a: nat, part: seq<OutPoint>, before: set<OutPoint>, done: set<OutPoint>,
                   more: set<OutPoint>)
    requires a + |part| <= |group| && part == group[a..a + |part|]
    requires Distinct(group) && forall p :: p in group ==> p !in before
    requires done == PointSet(group[..a]) && more == PointSet(part)
    ensures PointSet(group[..a + |part|]) == done + more && more !! before && more !! done
  {
    assert group[..a + |part|] == group[..a] + part;
  }

  lemma Apart(more: set<OutPoint>, before: set<OutPoint>, done: set<OutPoint>, used: set<OutPoint>)
    requires more !! before && more !! done && used <= before + done
    ensures more !! used && used + more <= before + (done + more)
  {
  }

  // ----- the plan

  /** The groups are those of all spendable outputs but the two reserved ones. */
  ghost predicate GroupsOf(inv: Inventory, groups: Groups, mergeRoots: bool, legacy: Option<OutPoint>,
                           hybrid: Option<OutPoint>) {
    exists chosen: set<OutPoint> ::
      && chosen <= inv.confirmed.Keys
      && (forall p :: p in chosen <==> Spendable(inv, p) && legacy != Some(p) && hybrid != Some(p))
      && Grouped(inv, groups, chosen, mergeRoots) && AllGrouped(inv, groups, chosen, mergeRoots)
  }

  /** Every group is exhausted: its outputs are spent, or stand where nothing tried is accepted. */
  ghost predicate AllExhausted(inv: Inventory, groups: Groups, keys: set<Key>, used: set<OutPoint>, mergeRoots: bool,
                               terms: Terms)
    requires keys <= groups.Keys && forall key, p :: key in groups && p in groups[key] ==> p in inv.confirmed
  {
    forall key :: key in keys ==> Exhausted(inv, groups[key], |groups[key]|, used, mergeRoots, terms)
  }

  /** Cut all groups into batches. */
  method PlanGroups(inv: Inventory, groups: Groups, mergeRoots: bool, terms: Terms, ghost chosen: set<OutPoint>)
    returns (r: Result<Plan>, ghost used: set<OutPoint>)
    requires chosen <= inv.confirmed.Keys && Grouped(inv, groups, chosen, mergeRoots)
    ensures used <= chosen && (r.Ok? ==> PlanHolds(inv, r.value, mergeRoots, terms, used))
    ensures r.Ok? && |r.value.batches| < MAX_BATCHES ==> AllExhausted(inv, groups, groups.Keys, used, mergeRoots, terms)
  {
    var plan := Plan(|inv.confirmed|, |inv.confirmed|, 0, []);
    var left := groups.Keys;
    used := {};
    while left != {}
      invariant left <= groups.Keys && used <= chosen && PlanHolds(inv, plan, mergeRoots, terms, used)
      invariant Untouched(groups, left, used)
      invariant |plan.batches| < MAX_BATCHES ==> AllExhausted(inv, groups, groups.Keys - left, used, mergeRoots, terms)
    {
      var key :| key in left;
      ghost var before := used;
      r, used := PlanGroup(inv, groups[key], plan, mergeRoots, terms, before);
      if r.Err? {
        used := before;
        return;
      }
      GroupDone(inv, groups, left, key, before, used, chosen, mergeRoots);
      if |r.value.batches| < MAX_BATCHES {
        AllExhaustedMore(inv, groups, left, key, before, used, mergeRoots, terms);
      }
      plan, left := r.value, left - {key};
    }
    r := Ok(plan);
  }

  ghost predicate Untouched(groups: Groups, keys: set<Key>, used: set<OutPoint>)
    requires keys <= groups.Keys
  {
    forall key, p :: key in keys && p in groups[key] ==> p !in used
  }

  lemma GroupDone(inv: Inventory, groups: Groups, left: set<Key>, key: Key, before: set<OutPoint>, used: set<OutPoint>,
                  chosen: set<OutPoint>, mergeRoots: bool)
    requires left <= groups.Keys && key in left && Untouched(groups, left, before) && before <= chosen
    requires Grouped(inv, groups, chosen, mergeRoots) && used <= before + PointSet(groups[key])
    ensures Untouched(groups, left - {key}, used) && used <= chosen
  {
  }

  lemma AllExhaustedMore(inv: Inventory, groups: Groups, left: set<Key>, key: Key, before: set<OutPoint>,
                         used: set<OutPoint>, mergeRoots: bool, terms: Terms)
    requires left <= groups.Keys && key in left && before <= used
    requires forall k, p :: k in groups && p in groups[k] ==> p in inv.confirmed
    requires AllExhausted(inv, groups, groups.Keys - left, before, mergeRoots, terms)
    requires Exhausted(inv, groups[key], |groups[key]|, used, mergeRoots, terms)
    ensures AllExhausted(inv, groups, groups.Keys - (left - {key}), used, mergeRoots, terms)
  {
    forall k | k in groups.Keys - (left - {key})
      ensures Exhausted(inv, groups[k], |groups[k]|, used, mergeRoots, terms)
    {
      assert k == key || k in groups.Keys - left;
    }
  }

  /** The plan: at most 32 disjoint batches that hold, spending none of the reserved outputs. If it has
      fewer than 32, no output was left out that any number tried from it on could have consolidated. */
  method ConsolidationPlan(inv: Inventory, mergeRoots: bool, terms: Terms)
    returns (r: Result<Plan>, ghost used: set<OutPoint>,
             ghost legacy: Option<OutPoint>, ghost hybrid: Option<OutPoint>, ghost groups: Groups)
    ensures r.Ok? ==> PlanHolds(inv, r.value, mergeRoots, terms, used)
    ensures legacy.Some? ==> Largest(inv, legacy.value, Legacy) && legacy.value !in used
    ensures hybrid.Some? ==> Largest(inv, hybrid.value, Hybrid) && hybrid.value !in used
    ensures legacy.None? ==> forall p :: !OfKind(inv, p, Legacy)
    ensures hybrid.None? ==> forall p :: !OfKind(inv, p, Hybrid)
    ensures GroupsOf(inv, groups, mergeRoots, legacy, hybrid)
    ensures r.Ok? && |r.value.batches| < MAX_BATCHES ==> AllExhausted(inv, groups, groups.Keys, used, mergeRoots, terms)
  {
    var points; ghost var chosen;
    points, chosen, legacy, hybrid := ChooseCandidates(inv);
    var byKey := GroupCandidates(inv, points, mergeRoots, chosen);
    groups := byKey;
    r, used := PlanGroups(inv, byKey, mergeRoots, terms, chosen);
  }

  /** The spendable outputs in order, without the largest of each kind. */
  method ChooseCandidates(inv: Inventory)
    returns (points: seq<OutPoint>, ghost chosen: set<OutPoint>, ghost legacy: Option<OutPoint>,
        ghost hybrid: Option<OutPoint>)
    ensures chosen <= inv.confirmed.Keys && Lists(points, chosen) && Ordered(inv, points)
    ensures legacy.Some? ==> Largest(inv, legacy.value, Legacy) && legacy.value !in chosen
    ensures hybrid.Some? ==> Largest(inv, hybrid.value, Hybrid) && hybrid.value !in chosen
    ensures legacy.None? ==> forall p :: !OfKind(inv, p, Legacy)
    ensures hybrid.None? ==> forall p :: !OfKind(inv, p, Hybrid)
    ensures forall p :: p in chosen <==> Spendable(inv, p) && legacy != Some(p) && hybrid != Some(p)
  {
    var spendable := set p | p in inv.confirmed && p in inv.available;
    points := SortCandidates(inv, spendable);
    points, legacy := ReserveLargest(inv, points, Legacy, spendable);
    chosen := if legacy.Some? then spendable - {legacy.value} else spendable;
    points, hybrid := ReserveLargest(inv, points, Hybrid, chosen);
    chosen := if hybrid.Some? then chosen - {hybrid.value} else chosen;
  }
}
