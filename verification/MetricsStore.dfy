/** The metrics tables: truncating to the common ancestor and re-appending equals starting over. */
module MetricsStore {
  import opened Results
  import opened Chain
  import opened Metrics
  import opened Utxo

  /** How one row follows from the previous one, which addresses a block shows, how the first-seen
      table takes them in, and which are known before the first block. */
  datatype Projection = Projection(
    next: (Block, Option<Metric>, nat) -> Result<Metric>,
    addresses: Block -> set<string>,
    note: (FirstSeen, Block) -> FirstSeen,
    genesis: FirstSeen)

  type FirstSeen = map<string, nat>

  /** INSERT OR IGNORE of every address at one height. */
  function Note(known: FirstSeen, addresses: set<string>, height: nat): FirstSeen {
    known + map a | a in addresses && a !in known :: height
  }

  /** First-seen heights of the addresses in the first `end` blocks. */
  function Known(p: Projection, chain: seq<Block>, end: nat): FirstSeen
    requires end <= |chain|
  {
    if end == 0 then p.genesis
    else p.note(Known(p, chain, end - 1), chain[end - 1])
  }

  function NextRow(p: Projection, before: seq<Result<Metric>>, block: Block, known: nat): Result<Metric> {
    if before == [] then p.next(block, None, known)
    else
      var previous := before[|before| - 1];
      if previous.Err? then previous else p.next(block, Some(previous.value), known)
  }

  function KnownCount(p: Projection, chain: seq<Block>, end: nat): nat
    requires end <= |chain|
  {
    |Known(p, chain, end)|
  }

  /** How many addresses are known after each block. */
  function Counts(p: Projection, chain: seq<Block>): (counts: seq<nat>)
    ensures CountsFit(counts, p, chain)
  {
    var counts := seq(|chain|, h requires 0 <= h < |chain| => KnownCount(p, chain, h + 1));
    assert forall h {:trigger CountAt(counts, p, chain, h)} :: 0 <= h < |chain| ==> CountAt(counts, p, chain, h);
    counts
  }

  predicate CountAt(counts: seq<nat>, p: Projection, chain: seq<Block>, h: nat)
    requires h < |counts| == |chain|
  {
    counts[h] == KnownCount(p, chain, h + 1)
  }

  ghost predicate CountsFit(counts: seq<nat>, p: Projection, chain: seq<Block>) {
    |counts| == |chain| && forall h {:trigger CountAt(counts, p, chain, h)} :: 0 <= h < |chain| ==>
        CountAt(counts, p, chain, h)
  }

  /** The rows of the first `end` blocks, computed from scratch, given the address count of each. */
  function RowsWith(p: Projection, chain: seq<Block>, counts: seq<nat>, end: nat): (rows: seq<Result<Metric>>)
    requires end <= |chain| == |counts|
    ensures |rows| == end
  {
    if end == 0 then []
    else
      var before := RowsWith(p, chain, counts, end - 1);
      before + [NextRow(p, before, chain[end - 1], counts[end - 1])]
  }

  /** All rows of a chain, computed from scratch. */
  function Rows(p: Projection, chain: seq<Block>): (rows: seq<Result<Metric>>)
    ensures |rows| == |chain|
  {
    RowsWith(p, chain, Counts(p, chain), |chain|)
  }

  /** A row records its block's hash and the address count it was given; genesis addresses count from height 0. */
  ghost predicate Records(p: Projection) {
    && (forall a :: a in p.genesis ==> p.genesis[a] == 0)
    && forall block, previous, known {:trigger p.next(block, previous, known)} ::
      var row := p.next(block, previous, known);
      row.Ok? ==> row.value.hash == block.hash && row.value.knownAddresses == known
  }

  predicate NotesAt(p: Projection, known: FirstSeen, block: Block) {
    p.note(known, block) == Note(known, p.addresses(block), block.height)
  }

  /** A block adds the addresses it shows for the first time, at its height. */
  ghost predicate Notes(p: Projection) {
    forall known, block {:trigger NotesAt(p, known, block)} :: NotesAt(p, known, block)
  }

  ghost predicate AllOk(rows: seq<Result<Metric>>) {
    forall h :: 0 <= h < |rows| ==> rows[h].Ok?
  }

  /** The table holds exactly the expected rows. */
  ghost predicate RowsMatch(table: map<nat, Metric>, rows: seq<Result<Metric>>) {
    && (forall h: nat :: h in table <==> h < |rows|)
    && (forall h: nat :: h in table ==> rows[h] == Ok(table[h]))
  }

  // ----- what truncation keeps

  lemma {:induction false} RowsPrefix(p: Projection, chain: seq<Block>, counts: seq<nat>, h: nat, end: nat)
    requires h <= end <= |chain| == |counts|
    ensures RowsWith(p, chain, counts, end)[..h] == RowsWith(p, chain, counts, h)
  {
    if h < end {
      RowsPrefix(p, chain, counts, h, end - 1);
      assert RowsWith(p, chain, counts, end)[..h] == RowsWith(p, chain, counts, end - 1)[..h];
    }
  }

  lemma {:induction false} KnownSoFar(p: Projection, chain: seq<Block>, end: nat)
    requires Records(p) && Notes(p) && Linked(chain) && end <= |chain|
    ensures forall a :: a in Known(p, chain, end) ==> Known(p, chain, end)[a] == 0 || Known(p, chain, end)[a] < end
  {
    if end > 0 {
      KnownSoFar(p, chain, end - 1);
      assert LinkedAt(chain, end - 1);
      assert NotesAt(p, Known(p, chain, end - 1), chain[end - 1]);
    }
  }

  function Until(known: FirstSeen, height: nat): FirstSeen {
    map a | a in known && known[a] <= height :: known[a]
  }

  lemma NoteAbove(known: FirstSeen, addresses: set<string>, at: nat, height: nat)
    requires height < at
    ensures Until(Note(known, addresses, at), height) == Until(known, height)
  {
  }

  /** Dropping addresses first seen above a height gives the addresses known at that height. */
  lemma {:induction false} KnownTruncated(p: Projection, chain: seq<Block>, end: nat, height: nat)
    requires Records(p) && Notes(p) && Linked(chain) && height < end <= |chain|
    ensures Until(Known(p, chain, end), height) == Known(p, chain, height + 1)
  {
    if height + 1 == end {
      KnownSoFar(p, chain, end);
    } else {
      KnownTruncated(p, chain, end - 1, height);
      assert LinkedAt(chain, end - 1) && NotesAt(p, Known(p, chain, end - 1), chain[end - 1]);
      NoteAbove(Known(p, chain, end - 1), p.addresses(chain[end - 1]), end - 1, height);
    }
  }

  lemma NoteCounts(known: FirstSeen, addresses: set<string>, height: nat)
    ensures |Note(known, addresses, height)| == |known| + |addresses - known.Keys|
  {
    var noted := Note(known, addresses, height);
    assert noted.Keys == known.Keys + (addresses - known.Keys);
    assert |noted| == |noted.Keys| && |known| == |known.Keys|;
  }

  /** First-seen heights depend only on the blocks below. */
  lemma {:induction false} SharedKnown(p: Projection, a: seq<Block>, b: seq<Block>, end: nat)
    requires end <= |a| && end <= |b| && a[..end] == b[..end]
    ensures Known(p, a, end) == Known(p, b, end)
  {
    if end > 0 {
      assert a[end - 1] == a[..end][end - 1] == b[..end][end - 1] == b[end - 1];
      assert a[..end - 1] == a[..end][..end - 1] && b[..end - 1] == b[..end][..end - 1];
      SharedKnown(p, a, b, end - 1);
    }
  }

  lemma SharedCounts(p: Projection, a: seq<Block>, b: seq<Block>, end: nat)
    requires end <= |a| && end <= |b| && a[..end] == b[..end]
    ensures Counts(p, a)[..end] == Counts(p, b)[..end]
  {
    forall h | 0 <= h < end
      ensures Counts(p, a)[h] == Counts(p, b)[h]
    {
      assert CountAt(Counts(p, a), p, a, h) && CountAt(Counts(p, b), p, b, h);
      assert a[..h + 1] == a[..end][..h + 1] && b[..h + 1] == b[..end][..h + 1];
      SharedKnown(p, a, b, h + 1);
    }
  }

  lemma {:induction false} SharedRows(p: Projection, a: seq<Block>, b: seq<Block>, ca: seq<nat>, cb: seq<nat>, end: nat)
    requires end <= |a| == |ca| && end <= |b| == |cb| && a[..end] == b[..end] && ca[..end] == cb[..end]
    ensures RowsWith(p, a, ca, end) == RowsWith(p, b, cb, end)
  {
    if end > 0 {
      assert a[end - 1] == a[..end][end - 1] == b[..end][end - 1] == b[end - 1];
      assert ca[end - 1] == ca[..end][end - 1] == cb[..end][end - 1] == cb[end - 1];
      assert a[..end - 1] == a[..end][..end - 1] && b[..end - 1] == b[..end][..end - 1];
      assert ca[..end - 1] == ca[..end][..end - 1] && cb[..end - 1] == cb[..end][..end - 1];
      SharedRows(p, a, b, ca, cb, end - 1);
    }
  }

  lemma RowAt(p: Projection, chain: seq<Block>, counts: seq<nat>, h: nat)
    requires h < |chain| == |counts|
    ensures RowsWith(p, chain, counts, |chain|)[h] == NextRow(p, RowsWith(p, chain, counts, h), chain[h], counts[h])
  {
    RowsPrefix(p, chain, counts, h + 1, |chain|);
    var all := RowsWith(p, chain, counts, |chain|);
    assert all[..h + 1][h] == all[h];
  }

  lemma RowContents(p: Projection, chain: seq<Block>, counts: seq<nat>, h: nat, row: Metric)
    requires Records(p) && h < |chain| == |counts| && RowsWith(p, chain, counts, |chain|)[h] == Ok(row)
    ensures row.hash == chain[h].hash && row.knownAddresses == counts[h]
  {
    RowAt(p, chain, counts, h);
    NextRowRecords(p, RowsWith(p, chain, counts, h), chain[h], counts[h]);
  }

  lemma NextRowRecords(p: Projection, before: seq<Result<Metric>>, block: Block, known: nat)
    requires Records(p)
    ensures var row := NextRow(p, before, block, known);
            row.Ok? ==> row.value.hash == block.hash && row.value.knownAddresses == known
  {
  }

  lemma TableExtended(table: map<nat, Metric>, rows: seq<Result<Metric>>, metric: Metric)
    requires RowsMatch(table, rows)
    ensures RowsMatch(table[|rows| := metric], rows + [Ok(metric)])
  {
  }

  /** A row that cannot be computed is among the rows of the whole chain. */
  lemma RowFails(p: Projection, chain: seq<Block>, counts: seq<nat>, h: nat)
    requires h < |chain| == |counts| && RowsWith(p, chain, counts, h + 1)[h].Err?
    ensures !AllOk(RowsWith(p, chain, counts, |chain|))
  {
    RowsPrefix(p, chain, counts, h + 1, |chain|);
    assert RowsWith(p, chain, counts, |chain|)[..h + 1][h] == RowsWith(p, chain, counts, |chain|)[h];
  }

  // ----- the projection

  datatype Meta = Meta(height: nat, tipHash: Hash)

  ghost function MetaOfChain(projected: seq<Block>): Option<Meta> {
    if projected == [] then None else Some(Meta(|projected| - 1, projected[|projected| - 1].hash))
  }

  /** The tables are those of `projected`, computed from scratch. */
  ghost predicate Projects(rows: map<nat, Metric>, known: FirstSeen, meta: Option<Meta>, p: Projection,
                           projected: seq<Block>) {
    && Linked(projected)
    && RowsMatch(rows, Rows(p, projected))
    && known == (if projected == [] then map[] else Known(p, projected, |projected|))
    && meta == MetaOfChain(projected)
  }

  lemma RowHashes(rows: map<nat, Metric>, p: Projection, projected: seq<Block>)
    requires Records(p) && RowsMatch(rows, Rows(p, projected))
    ensures forall h: nat :: h in rows ==> h < |projected| && rows[h].hash == projected[h].hash
  {
    forall h: nat | h in rows
      ensures rows[h].hash == projected[h].hash
    {
      RowContents(p, projected, Counts(p, projected), h, rows[h]);
    }
  }

  /** The newest common height: the cached tip if it is on the snapshot, else a walk down the rows. */
  method CommonHeight(hashes: map<nat, Metric>, meta: Option<Meta>, blocks: seq<Block>, ghost projected: seq<Block>)
    returns (r: Option<nat>)
    requires blocks != [] && meta == MetaOfChain(projected)
    requires forall h: nat :: h in hashes <==> h < |projected|
    requires forall h: nat :: h in hashes ==> hashes[h].hash == projected[h].hash
    ensures r.Some? ==> CommonAt(projected, blocks, r.value)
    ensures forall h: nat :: CommonAt(projected, blocks, h) ==> r.Some? && h <= r.value
  {
    if meta.None? {
      return None;
    }
    var candidate := if meta.value.height < |blocks| then meta.value.height else |blocks| - 1;
    if candidate == meta.value.height && blocks[candidate].hash == meta.value.tipHash {
      return Some(candidate);
    }
    var h := candidate + 1;
    while h > 0
      invariant h <= candidate + 1
      invariant forall k: nat :: h <= k ==> !CommonAt(projected, blocks, k)
    {
      h := h - 1;
      if hashes[h].hash == blocks[h].hash {
        return Some(h);
      }
    }
    return None;
  }

  /** Drop everything above the common height. */
  method Truncate(rows: map<nat, Metric>, known: FirstSeen, common: nat, ghost p: Projection,
                  ghost projected: seq<Block>, ghost blocks: seq<Block>)
    returns (kept: map<nat, Metric>, seen: FirstSeen)
    requires Records(p) && Notes(p) && Linked(projected) && Linked(blocks) && CommonAt(projected, blocks, common)
    requires RowsMatch(rows, Rows(p, projected)) && known == Known(p, projected, |projected|)
    ensures RowsMatch(kept, RowsWith(p, blocks, Counts(p, blocks), common + 1))
    ensures seen == Known(p, blocks, common + 1)
  {
    SameHashSamePrefix(projected, blocks, common, common);
    KnownTruncated(p, projected, |projected|, common);
    SharedKnown(p, projected, blocks, common + 1);
    SharedCounts(p, projected, blocks, common + 1);
    SharedRows(p, projected, blocks, Counts(p, projected), Counts(p, blocks), common + 1);
    RowsPrefix(p, projected, Counts(p, projected), common + 1, |projected|);
    kept := KeepThrough(rows, common, Rows(p, projected));
    seen := Until(known, common);
  }

  method KeepThrough(table: map<nat, Metric>, height: nat, ghost rows: seq<Result<Metric>>)
    returns (kept: map<nat, Metric>)
    requires RowsMatch(table, rows) && height < |rows|
    ensures RowsMatch(kept, rows[..height + 1])
  {
    kept := map h: nat | h in table && h <= height :: table[h];
  }

  /** Append the rows of the blocks from `start` on. */
  method AppendRows(p: Projection, blocks: seq<Block>, start: nat, kept: map<nat, Metric>, seen: FirstSeen,
                    ghost counts: seq<nat>)
    returns (r: Result<map<nat, Metric>>, known: FirstSeen)
    requires Notes(p) && Linked(blocks) && start <= |blocks| && CountsFit(counts, p, blocks)
    requires RowsMatch(kept, RowsWith(p, blocks, counts, start)) && seen == Known(p, blocks, start)
    requires start > 0 ==> kept[start - 1].knownAddresses == |seen|
    ensures AllOk(RowsWith(p, blocks, counts, |blocks|)) ==> r.Ok?
    ensures r.Ok? ==> RowsMatch(r.value, RowsWith(p, blocks, counts, |blocks|)) && known == Known(p, blocks, |blocks|)
  {
    var table: map<nat, Metric> := kept;
    var count := if start > 0 then kept[start - 1].knownAddresses else |seen|;
    known := seen;
    var h := start;
    while h < |blocks|
      invariant start <= h <= |blocks| && RowsMatch(table, RowsWith(p, blocks, counts, h))
      invariant known == Known(p, blocks, h) && count == |known|
    {
      known, count := NoteBlock(p, blocks, h, known, count, counts);
      var row := ComputeRow(p, blocks, h, table, count, counts);
      if row.Err? {
        RowFails(p, blocks, counts, h);
        return row, known;
      }
      table, h := row.value, h + 1;
    }
    return Ok(table), known;
  }

  /** Compute and insert the row of block `h`. */
  method ComputeRow(p: Projection, blocks: seq<Block>, h: nat, table: map<nat, Metric>, count: nat,
                    ghost counts: seq<nat>)
    returns (r: Result<map<nat, Metric>>)
    requires h < |blocks| == |counts| && count == counts[h]
    requires RowsMatch(table, RowsWith(p, blocks, counts, h))
    ensures r.Err? <==> RowsWith(p, blocks, counts, h + 1)[h].Err?
    ensures r.Ok? ==> RowsMatch(r.value, RowsWith(p, blocks, counts, h + 1))
  {
    ghost var before := RowsWith(p, blocks, counts, h);
    var metric := p.next(blocks[h], if h == 0 then None else Some(table[h - 1]), count);
    assert metric == NextRow(p, before, blocks[h], count);
    if metric.Err? {
      return Err(metric.reason);
    }
    TableExtended(table, before, metric.value);
    return Ok(table[h := metric.value]);
  }

  method NoteBlock(p: Projection, blocks: seq<Block>, h: nat, known: FirstSeen, count: nat, ghost counts: seq<nat>)
    returns (known': FirstSeen, count': nat)
    requires Notes(p) && Linked(blocks) && h < |blocks| && CountsFit(counts, p, blocks)
    requires known == Known(p, blocks, h) && count == |known|
    ensures known' == Known(p, blocks, h + 1) && count' == |known'| == counts[h]
  {
    assert LinkedAt(blocks, h);
    var addresses := p.addresses(blocks[h]);
    assert NotesAt(p, known, blocks[h]);
    NoteCounts(known, addresses, h);
    known', count' := p.note(known, blocks[h]), count + |addresses - known.Keys|;
    assert CountAt(counts, p, blocks, h);
  }

  method Reproject(p: Projection, rows: map<nat, Metric>, known: FirstSeen, meta: Option<Meta>,
                   blocks: seq<Block>, ghost projected: seq<Block>)
    returns (appended: Result<map<nat, Metric>>, noted: FirstSeen)
    requires Records(p) && Notes(p) && Projects(rows, known, meta, p, projected) && Linked(blocks) && blocks != []
    ensures AllOk(Rows(p, blocks)) ==> appended.Ok?
    ensures appended.Ok? ==> RowsMatch(appended.value, Rows(p, blocks)) && noted == Known(p, blocks, |blocks|)
  {
    RowHashes(rows, p, projected);
    var common := CommonHeight(rows, meta, blocks, projected);
    var start: nat, kept: map<nat, Metric>, seen := 0, map[], p.genesis;
    ghost var counts := Counts(p, blocks);
    if common.Some? {
      start := common.value + 1;
      kept, seen := Truncate(rows, known, common.value, p, projected, blocks);
      LastKeptRow(p, blocks, counts, start, kept);
    }
    appended, noted := AppendRows(p, blocks, start, kept, seen, counts);
  }

  lemma LastKeptRow(p: Projection, blocks: seq<Block>, counts: seq<nat>, start: nat, kept: map<nat, Metric>)
    requires Records(p) && 0 < start <= |blocks| && CountsFit(counts, p, blocks)
    requires RowsMatch(kept, RowsWith(p, blocks, counts, start))
    ensures kept[start - 1].knownAddresses == |Known(p, blocks, start)|
  {
    RowsPrefix(p, blocks, counts, start, |blocks|);
    assert RowsWith(p, blocks, counts, |blocks|)[..start][start - 1] == Ok(kept[start - 1]);
    RowContents(p, blocks, counts, start - 1, kept[start - 1]);
    assert CountAt(counts, p, blocks, start - 1);
  }

  class MetricsStore {
    const p: Projection
    var rows: map<nat, Metric>
    var known: FirstSeen
    var meta: Option<Meta>
    /** The chain whose rows the tables hold; empty after a clear. */
    ghost var projected: seq<Block>

    ghost predicate Valid()
      reads this
    {
      Records(p) && Notes(p) && Projects(rows, known, meta, p, projected)
    }

    constructor (allocations: seq<Allocation>)
      ensures Valid() && projected == [] && p == ProjectionOf(allocations)
    {
      p := ProjectionOf(allocations);
      rows, known, meta, projected := map[], map[], None, [];
    }

    /** Project any chain over whatever was projected before: the tables end up as if computed from
        scratch for it, and nothing changes if it is empty or some row of it cannot be computed. */
    method ProjectMetrics(blocks: seq<Block>) returns (r: Outcome)
      requires Valid() && Linked(blocks)
      modifies this
      ensures r.Pass? <==> blocks != [] && AllOk(Rows(p, blocks))
      ensures r.Pass? ==> Valid() && projected == blocks
      ensures r.Fail? ==> unchanged(this)
    {
      if blocks == [] {
        return Fail("cannot project metrics for empty chain snapshot");
      }
      var appended, noted := Reproject(p, rows, known, meta, blocks, projected);
      if appended.Err? {
        return Fail(appended.reason);
      }
      var tip := blocks[|blocks| - 1];
      assert LinkedAt(blocks, |blocks| - 1);
      rows, known, meta, projected := appended.value, noted, Some(Meta(tip.height, tip.hash)), blocks;
      return Pass;
    }

    method ClearMetrics()
      requires Valid()
      modifies this
      ensures Valid() && projected == []
    {
      rows, known, meta, projected := map[], map[], None, [];
    }
  }

  /** The projection that a network's genesis allocations determine. */
  function ProjectionOf(allocations: seq<Allocation>): (p: Projection)
    ensures Records(p) && Notes(p)
  {
    Projection((block: Block, previous: Option<Metric>, known: nat) => NextMetric(allocations, block, previous, known),
               (block: Block) => BlockAddresses(block.body),
               (known: FirstSeen, block: Block) => Note(known, BlockAddresses(block.body), block.height),
               GenesisKnown(allocations))
  }

  /** At every height of a chain that replays, the incremental supply and output count are exactly the
      value and size of the replayed unspent outputs, and no checked subtraction fails. */
  lemma {:induction false} RowsConserve(allocations: seq<Allocation>, genesis: Utxos, chain: seq<Block>,
                                        counts: seq<nat>, h: nat)
    requires Credit(map[], GenesisCreated(allocations)) == Ok(genesis)
    requires Replays(genesis, chain) && h < |chain| == |counts|
    ensures Replay(genesis, chain, h + 1).Ok?
    ensures var row := RowsWith(ProjectionOf(allocations), chain, counts, h + 1)[h];
            row.Ok? && Tracks(row.value.tally, Replay(genesis, chain, h + 1).value)
  {
    assert BlockReplays(genesis, chain, h);
    var p := ProjectionOf(allocations);
    var before := RowsWith(p, chain, counts, h);
    if h == 0 {
      GenesisTracks(allocations, genesis);
      NextMetricTracks(allocations, genesis, chain[0], None, counts[0]);
      assert RowsWith(p, chain, counts, 1)[0] == NextMetric(allocations, chain[0], None, counts[0]);
    } else {
      RowsConserve(allocations, genesis, chain, counts, h - 1);
      var previous := Some(before[h - 1].value);
      NextMetricTracks(allocations, Replay(genesis, chain, h).value, chain[h], previous, counts[h]);
      assert RowsWith(p, chain, counts, h + 1)[h] == NextMetric(allocations, chain[h], previous, counts[h]);
    }
  }

  lemma RowConserves(allocations: seq<Allocation>, genesis: Utxos, chain: seq<Block>, h: nat)
    requires Credit(map[], GenesisCreated(allocations)) == Ok(genesis) && Replays(genesis, chain) && h < |chain|
    ensures Replay(genesis, chain, h + 1).Ok?
    ensures var row := Rows(ProjectionOf(allocations), chain)[h];
            row.Ok? && Tracks(row.value.tally, Replay(genesis, chain, h + 1).value)
  {
    var p := ProjectionOf(allocations);
    RowsConserve(allocations, genesis, chain, Counts(p, chain), h);
    RowsPrefix(p, chain, Counts(p, chain), h + 1, |chain|);
    assert Rows(p, chain)[..h + 1][h] == Rows(p, chain)[h];
  }

  /** The row of height `h` was computed and matches the replayed outputs. */
  ghost predicate ConservedAt(allocations: seq<Allocation>, genesis: Utxos, chain: seq<Block>, h: nat)
    requires h < |chain|
  {
    var row, utxos := Rows(ProjectionOf(allocations), chain)[h], Replay(genesis, chain, h + 1);
    row.Ok? && utxos.Ok? && row.value.tally.supply == Value(utxos.value) && row.value.tally.utxoCount == |utxos.value|
  }

  /** Supply equals the sum of the unspent outputs, and the count their number, at every height; so
      metrics projection never fails on a chain that replays. */
  lemma SupplyIsConserved(allocations: seq<Allocation>, genesis: Utxos, chain: seq<Block>)
    requires Credit(map[], GenesisCreated(allocations)) == Ok(genesis) && Replays(genesis, chain)
    ensures forall h: nat :: h < |chain| ==> ConservedAt(allocations, genesis, chain, h)
    ensures AllOk(Rows(ProjectionOf(allocations), chain))
  {
    forall h: nat | h < |chain|
      ensures ConservedAt(allocations, genesis, chain, h)
    {
      RowConserves(allocations, genesis, chain, h);
    }
    forall h | 0 <= h < |chain|
      ensures Rows(ProjectionOf(allocations), chain)[h].Ok?
    {
      assert ConservedAt(allocations, genesis, chain, h);
    }
  }
}
