/** Reading a stored chain: every read returns what indexing the stored sequence would. */
module ChainReads {
  import opened Results
  import opened Chain
  import opened Segments
  import opened ChainTables
  import opened ChainStoreTail
  import opened ChainStoreWrites
  import Store = ChainStore

  /** Saving a resident tail and saving the whole spliced chain leave the same four tables. */
  method SaveResidentOrFull(resident: Store.ChainStore, full: Store.ChainStore, snapshot: Snapshot)
    requires resident != full && resident.Valid() && full.Valid()
    requires resident.n == full.n && resident.contents == full.contents && resident.meta == full.meta
    requires Store.LedgerBlocks(snapshot.blocks)
    requires Store.ResidentAccepts(resident.contents, resident.StoredHeader(), snapshot)
    modifies resident, full
    ensures resident.segments == full.segments && resident.index == full.index
    ensures resident.meta == full.meta && resident.verification == full.verification
  {
    Store.ResidentResultLinked(resident.contents, resident.StoredHeader(), snapshot);
    var whole := ReadSpliced(full, snapshot);
    var a := resident.SaveVerifiedResident(snapshot);
    var b := full.SaveWithVerificationStatus(Snapshot(snapshot.header, whole), true);
  }

  /** The chain a node holding complete history would save in place of the resident snapshot. */
  method ReadSpliced(store: Store.ChainStore, snapshot: Snapshot) returns (whole: seq<Block>)
    requires store.Valid() && Store.LedgerBlocks(snapshot.blocks)
    requires Store.ResidentAccepts(store.contents, store.StoredHeader(), snapshot)
    ensures whole == Store.ResidentResult(store.contents, snapshot)
  {
    whole := snapshot.blocks;
    if !Store.IsFull(whole) {
      var prefix := BlocksFrom(store, 0, whole[1].height);
      whole := prefix.value + whole[1..];
    }
  }

  function Slice(chain: seq<Block>, from: nat, limit: nat): seq<Block> {
    chain[Min(from, |chain|)..Min(from + limit, |chain|)]
  }

  function Take(blocks: seq<Block>, limit: nat): seq<Block> {
    blocks[..Min(limit, |blocks|)]
  }

  lemma SegmentTail(chain: seq<Block>, from: nat, lo: nat, hi: nat, p: nat, top: nat)
    requires Linked(chain) && lo < hi <= |chain| && hi <= top && p == Clamp(if from < lo then lo else from, hi)
    ensures FilterHeights(chain[lo..hi], from, top) == if from <= top then chain[p..hi] else []
  {
    var row := chain[lo..hi];
    RowOfRange(chain, lo, hi);
    if from <= top {
      FilterIsSlice(row, lo, from, top);
      SliceOfRange(chain, lo, hi, p);
    } else {
      FilterNothing(row, from, top);
    }
  }

  lemma SliceOfRange(chain: seq<Block>, lo: nat, hi: nat, p: nat)
    requires lo <= p <= hi <= |chain|
    ensures chain[lo..hi][p - lo..hi - lo] == chain[p..hi]
  {
  }

  lemma {:induction false} FilterNothing(blocks: seq<Block>, lo: nat, hi: nat)
    requires hi <= lo
    ensures FilterHeights(blocks, lo, hi) == []
  {
    if blocks != [] {
      FilterNothing(blocks[1..], lo, hi);
    }
  }

  /** A range read that came up short of `b` blocks has reached the end of the chain or of the range. */
  lemma SliceSettled(chain: seq<Block>, from: nat, a: nat, b: nat)
    requires |Slice(chain, from, a)| < b && (b <= a || from + a >= |chain|)
    ensures Slice(chain, from, a) == Slice(chain, from, b)
  {
  }

  /** What the segment from height `lo` on adds to a range read that has reached height `p`. */
  lemma RangeStep(chain: seq<Block>, from: nat, limit: nat, lo: nat, n: pos, p: nat)
    requires Linked(chain) && lo < |chain| && lo <= p < lo + n && p == if from < lo then lo else from
    requires |Slice(chain, from, p - from)| < limit
    ensures Slice(chain, from, p - from)
            + Take(FilterHeights(chain[lo..Min(lo + n, |chain|)], from, lo + n), limit - |Slice(chain, from, p - from)|)
            == Slice(chain, from, Min(limit, lo + n - from))
  {
    var hi := Min(lo + n, |chain|);
    SegmentTail(chain, from, lo, hi, Clamp(p, hi), lo + n);
    if p < hi {
      TakeAfter(chain, from, p, hi, limit);
    } else {
      assert p == from && hi == |chain|;
      assert chain[Clamp(p, hi)..hi] == [];
    }
  }

  lemma TakeAfter(chain: seq<Block>, from: nat, p: nat, hi: nat, limit: nat)
    requires from <= p < hi <= |chain| && p - from <= limit
    ensures Slice(chain, from, p - from) + Take(chain[p..hi], limit - (p - from)) ==
            Slice(chain, from, Min(limit, hi - from))
    ensures |Slice(chain, from, p - from)| == p - from
  {
    var k := Min(limit - (p - from), hi - p);
    assert chain[p..hi][..k] == chain[p..p + k];
    assert chain[from..p] + chain[p..p + k] == chain[from..p + k];
  }

  /** A bounded range read, one segment at a time. */
  method BlocksFrom(store: Store.ChainStore, from: nat, limit: nat) returns (r: Result<seq<Block>>)
    requires store.Valid()
    ensures r.Err? <==> limit > 0 && store.contents == []
    ensures r.Ok? ==> r.value == Slice(store.contents, from, limit)
  {
    if limit == 0 {
      return Ok([]);
    }
    if store.meta.None? {
      return Err("cannot read blocks from an empty chain database");
    }
    var blocks := ReadRange(store.n, store.segments, from, limit, store.contents);
    return Ok(blocks);
  }

  method LoadChainSegment(n: pos, segments: SegmentTable, id: nat, ghost chain: seq<Block>)
    returns (r: Option<seq<Block>>)
    requires segments == SegmentsOf(chain, n)
    ensures r.Some? <==> Start(id, n) < |chain|
    ensures r.Some? ==> r.value == chain[Start(id, n)..Min(Start(id, n) + n, |chain|)]
  {
    SegmentCountBound(|chain|, n, id);
    r := if id in segments then Some(segments[id].blocks) else None;
  }

  /** One segment of a range read. */
  method ReadSegment(segment: seq<Block>, blocks: seq<Block>, from: nat, limit: nat, lo: nat, n: pos,
                     ghost chain: seq<Block>, ghost p: nat)
    returns (out: seq<Block>)
    requires Linked(chain) && lo < |chain| && lo <= p < lo + n && p == if from < lo then lo else from
    requires segment == chain[lo..Min(lo + n, |chain|)]
    requires blocks == Slice(chain, from, p - from) && |blocks| < limit
    ensures |out| < limit ==> out == Slice(chain, from, lo + n - from)
    ensures |out| >= limit ==> out == Slice(chain, from, limit)
  {
    RangeStep(chain, from, limit, lo, n, p);
    out := blocks + Take(FilterHeights(segment, from, lo + n), limit - |blocks|);
    if |out| < limit && limit < lo + n - from {
      SliceSettled(chain, from, limit, lo + n - from);
    }
  }

  /** Load one segment and add its part; nothing more is needed past the end or at the limit. */
  method ReadStep(n: pos, segments: SegmentTable, id: nat, lo: nat, from: nat, limit: nat, blocks: seq<Block>,
                  ghost chain: seq<Block>, ghost p: nat)
    returns (out: seq<Block>, finished: bool)
    requires Linked(chain) && segments == SegmentsOf(chain, n)
    requires lo == Start(id, n) && lo <= p < lo + n && p == if from < lo then lo else from
    requires blocks == Slice(chain, from, p - from) && |blocks| < limit
    ensures finished ==> out == Slice(chain, from, limit)
    ensures !finished ==> |out| < limit && out == Slice(chain, from, lo + n - from)
  {
    var segment := LoadChainSegment(n, segments, id, chain);
    if segment.None? {
      SliceSettled(chain, from, p - from, limit);
      return blocks, true;
    }
    out := ReadSegment(segment.value, blocks, from, limit, lo, n, chain, p);
    return out, |out| >= limit;
  }

  method ReadRange(n: pos, segments: SegmentTable, from: nat, limit: nat, ghost chain: seq<Block>)
    returns (blocks: seq<Block>)
    requires Linked(chain) && segments == SegmentsOf(chain, n) && limit > 0
    ensures blocks == Slice(chain, from, limit)
  {
    blocks := [];
    SegmentBounds(from, n);
    var last := SegmentId(from + limit - 1, n);
    var id, lo := SegmentId(from, n), Start(SegmentId(from, n), n);
    ghost var p := from;
    LastCovers(from, limit, n, id, last);
    while id <= last
      invariant lo == Start(id, n) && lo <= p < lo + n && p == (if from < lo then lo else from)
      invariant id <= last + 1
      invariant blocks == Slice(chain, from, p - from) && |blocks| < limit
    {
      var finished;
      blocks, finished := ReadStep(n, segments, id, lo, from, limit, blocks, chain, p);
      if finished {
        return;
      }
      id, lo, p := id + 1, lo + n, lo + n;
    }
    SliceSettled(chain, from, p - from, limit);
  }

  lemma LastCovers(from: nat, limit: nat, n: pos, id: nat, last: nat)
    requires limit > 0 && id == SegmentId(from, n) && last == SegmentId(from + limit - 1, n)
    ensures id <= last && from + limit <= Start(last + 1, n)
  {
    SegmentBounds(from, n);
    SegmentBounds(from + limit - 1, n);
    StartMonotone(last, id, n);
  }

  /** What one segment contributes to a read of scattered heights. */
  method PickHeights(segment: seq<Block>, heights: set<nat>, ghost lo: nat) returns (picked: map<nat, Block>)
    requires Consecutive(segment, lo)
    ensures forall h :: h in picked <==> h in heights && lo <= h < lo + |segment|
    ensures forall h :: h in picked ==> picked[h] == segment[h - lo]
  {
    picked := map[];
    for k := 0 to |segment|
      invariant forall h :: h in picked <==> h in heights && lo <= h < lo + k
      invariant forall h :: h in picked ==> picked[h] == segment[h - lo]
    {
      if segment[k].height in heights {
        picked := picked[segment[k].height := segment[k]];
      }
    }
  }

  ghost predicate PickedOutside(blocks: map<nat, Block>, heights: set<nat>, chain: seq<Block>, n: pos, ids: set<nat>) {
    && (forall h :: h in blocks <==> h in heights && h < |chain| && SegmentId(h, n) !in ids)
    && (forall h :: h in blocks ==> blocks[h] == chain[h])
  }

  lemma PickedMore(blocks: map<nat, Block>, picked: map<nat, Block>, heights: set<nat>, chain: seq<Block>, n: pos,
                   ids: set<nat>, id: nat)
    requires id in ids && PickedOutside(blocks, heights, chain, n, ids)
    requires forall h :: h in picked <==> h in heights && h < |chain| && Start(id, n) <= h < Start(id, n) + n
    requires forall h :: h in picked ==> picked[h] == chain[h]
    ensures PickedOutside(blocks + picked, heights, chain, n, ids - {id})
  {
    SegmentHeights(n, id);
  }

  lemma PickedOfRange(picked: map<nat, Block>, heights: set<nat>, chain: seq<Block>, lo: nat, hi: nat, n: pos)
    requires lo < |chain| && hi == Min(lo + n, |chain|)
    requires forall h :: h in picked <==> h in heights && lo <= h < hi
    requires forall h :: h in picked ==> picked[h] == chain[lo..hi][h - lo]
    ensures forall h :: h in picked <==> h in heights && h < |chain| && lo <= h < lo + n
    ensures forall h :: h in picked ==> picked[h] == chain[h]
  {
  }

  method PickSegment(n: pos, segments: SegmentTable, heights: set<nat>, id: nat, ghost chain: seq<Block>)
    returns (picked: map<nat, Block>)
    requires Linked(chain) && segments == SegmentsOf(chain, n)
    ensures forall h :: h in picked <==> h in heights && h < |chain| && Start(id, n) <= h < Start(id, n) + n
    ensures forall h :: h in picked ==> picked[h] == chain[h]
  {
    picked := map[];
    var segment := LoadChainSegment(n, segments, id, chain);
    if segment.Some? {
      ghost var lo := Start(id, n);
      ghost var hi := Min(lo + n, |chain|);
      RowOfRange(chain, lo, hi);
      picked := PickHeights(segment.value, heights, lo);
      PickedOfRange(picked, heights, chain, lo, hi, n);
    }
  }

  /** Scattered heights, each segment decoded once. */
  method BlocksAtHeights(store: Store.ChainStore, heights: set<nat>) returns (blocks: map<nat, Block>)
    requires store.Valid()
    ensures forall h :: h in blocks <==> h in heights && h < |store.contents|
    ensures forall h :: h in blocks ==> blocks[h] == store.contents[h]
  {
    var n, segments := store.n, store.segments;
    ghost var chain := store.contents;
    blocks := map[];
    var ids := set h | h in heights :: SegmentId(h, n);
    while ids != {}
      invariant PickedOutside(blocks, heights, chain, n, ids)
    {
      var id :| id in ids;
      var picked := PickSegment(n, segments, heights, id, chain);
      PickedMore(blocks, picked, heights, chain, n, ids, id);
      blocks := blocks + picked;
      ids := ids - {id};
    }
  }

  method FindHash(blocks: seq<Block>, hash: Hash) returns (r: Option<Block>)
    ensures r.Some? ==> r.value in blocks && r.value.hash == hash
    ensures r.None? ==> forall k :: 0 <= k < |blocks| ==> blocks[k].hash != hash
  {
    for k := 0 to |blocks|
      invariant forall i :: 0 <= i < k ==> blocks[i].hash != hash
    {
      if blocks[k].hash == hash {
        return Some(blocks[k]);
      }
    }
    return None;
  }

  ghost predicate OnChain(chain: seq<Block>, hash: Hash) {
    exists h :: 0 <= h < |chain| && chain[h].hash == hash
  }

  /** The unique-hash lookup: the height under which the index files a hash. */
  method HeightOfHash(index: IndexTable, hash: Hash, ghost chain: seq<Block>, ghost n: pos) returns (r: Option<nat>)
    requires index == IndexOf(chain, n)
    ensures r.Some? <==> OnChain(chain, hash)
    ensures r.Some? ==> r.value < |chain| && chain[r.value].hash == hash
  {
    var found := set h | h in index && index[h].hash == hash;
    if found == {} {
      forall h | 0 <= h < |chain|
        ensures chain[h].hash != hash
      {
        assert h in index && h !in found;
      }
      return None;
    }
    var h :| h in found;
    return Some(h);
  }

  /** A block is found by hash exactly when the stored chain carries that hash. */
  method BlockByHash(store: Store.ChainStore, hash: Hash) returns (r: Option<Block>)
    requires store.Valid()
    ensures r.Some? <==> OnChain(store.contents, hash)
    ensures r.Some? ==> r.value in store.contents && r.value.hash == hash
  {
    var location := HeightOfHash(store.index, hash, store.contents, store.n);
    if location.None? {
      return None;
    }
    var h, id := location.value, SegmentId(location.value, store.n);
    SegmentBounds(h, store.n);
    var segment := LoadChainSegment(store.n, store.segments, id, store.contents);
    r := FindHash(segment.value, hash);
    assert segment.value[h - Start(id, store.n)] == store.contents[h];
  }

  /** Position `k` holds the first locator hash that lies on the chain. */
  ghost predicate FirstLocated(chain: seq<Block>, locator: seq<Hash>, k: nat)
    requires k < |locator|
  {
    OnChain(chain, locator[k]) && forall i :: 0 <= i < k ==> !OnChain(chain, locator[i])
  }

  method Locate(index: IndexTable, locator: seq<Hash>, ghost chain: seq<Block>, ghost n: pos)
    returns (r: Option<nat>, ghost k: nat)
    requires index == IndexOf(chain, n)
    ensures r.None? ==> forall i :: 0 <= i < |locator| ==> !OnChain(chain, locator[i])
    ensures r.Some? ==> k < |locator| && FirstLocated(chain, locator, k)
    ensures r.Some? ==> r.value < |chain| && chain[r.value].hash == locator[k]
  {
    k := 0;
    for i := 0 to |locator|
      invariant forall j :: 0 <= j < i ==> !OnChain(chain, locator[j])
    {
      r := HeightOfHash(index, locator[i], chain, n);
      if r.Some? {
        k := i;
        return;
      }
    }
    return None, 0;
  }

  /** The blocks after the newest common block: the first locator hash the chain carries decides. */
  method BlocksAfterLocator(store: Store.ChainStore, locator: seq<Hash>, limit: nat) returns (blocks: seq<Block>)
    requires store.Valid()
    ensures (forall i :: 0 <= i < |locator| ==> !OnChain(store.contents, locator[i])) ==> blocks == []
    ensures forall k: nat, h: nat {:trigger FirstLocated(store.contents, locator, k), store.contents[h]} ::
              k < |locator| && FirstLocated(store.contents, locator, k)
              && h < |store.contents| && store.contents[h].hash == locator[k]
              ==> blocks == Slice(store.contents, h + 1, limit)
  {
    if limit == 0 {
      return [];
    }
    var common; ghost var first;
    common, first := Locate(store.index, locator, store.contents, store.n);
    if common.None? {
      return [];
    }
    var range := BlocksFrom(store, common.value + 1, limit);
    blocks := range.value;
    forall k: nat, h: nat | k < |locator| && FirstLocated(store.contents, locator, k)
                            && h < |store.contents| && store.contents[h].hash == locator[k]
      ensures h == common.value
    {
      assert k == first;
      SameHashSamePrefix(store.contents, store.contents, h, common.value);
    }
  }

  /** The consistency checks of the segment walk, which no stored segment fails. */
  lemma SegmentFits(chain: seq<Block>, n: pos, id: nat)
    requires Linked(chain) && Start(id, n) < |chain|
    ensures var row := SegmentAt(chain, n, id);
            && row.firstHeight == Start(id, n)
            && row.blocks != []
            && row.blocks[0].height == row.firstHeight
            && row.blocks[0].prevHash == ParentHash(chain, Start(id, n))
            && row.blocks[|row.blocks| - 1].height == row.lastHeight
            && row.blocks[|row.blocks| - 1].hash == row.endHash
  {
    RowOfRange(chain, Start(id, n), Min(Start(id, n) + n, |chain|));
    assert LinkedAt(chain, Start(id, n));
  }

  lemma AppendChunk(chain: seq<Block>, lo: nat, hi: nat)
    requires lo <= hi <= |chain|
    ensures chain[..lo] + chain[lo..hi] == chain[..hi]
  {
  }

  /** Append one stored segment; it starts where the blocks so far end, on their tip. */
  method AppendStored(n: pos, row: SegmentRow, id: nat, before: seq<Block>, ghost chain: seq<Block>, ghost lo: nat,
                      ghost hi: nat)
    returns (blocks: seq<Block>)
    requires Linked(chain) && lo == Start(id, n) < |chain| && hi == Min(lo + n, |chain|)
    requires row == SegmentAt(chain, n, id) && before == chain[..lo]
    ensures blocks == chain[..hi]
  {
    SegmentFits(chain, n, id);
    assert row.blocks[0].prevHash == ParentHash(before, |before|);
    AppendChunk(chain, lo, hi);
    blocks := before + row.blocks;
  }

  method ConcatenateSegments(n: pos, segments: SegmentTable, ghost chain: seq<Block>) returns (blocks: seq<Block>)
    requires Linked(chain) && segments == SegmentsOf(chain, n)
    ensures blocks == chain
  {
    blocks := [];
    var id := 0;
    ghost var lo := 0;
    var row := StoredSegment(n, segments, id, chain, lo);
    while row.Some?
      invariant lo == Start(id, n) && blocks == chain[..Min(lo, |chain|)]
      invariant row.Some? <==> lo < |chain|
      invariant row.Some? ==> row.value == SegmentAt(chain, n, id)
      decreases |chain| - lo
    {
      blocks := AppendStored(n, row.value, id, blocks, chain, lo, Min(lo + n, |chain|));
      id, lo := id + 1, lo + n;
      row := StoredSegment(n, segments, id, chain, lo);
    }
    assert blocks == chain;
  }

  /** Loading the segments in order gives back exactly the chain that was saved, with its header. */
  method LoadSegmentedSnapshot(store: Store.ChainStore) returns (r: Option<Snapshot>)
    requires store.Valid()
    ensures r == if store.contents == [] then None else Some(Snapshot(store.meta.value.header, store.contents))
  {
    if store.meta.None? {
      return None;
    }
    var blocks := ConcatenateSegments(store.n, store.segments, store.contents);
    return Some(Snapshot(store.meta.value.header, blocks));
  }
}
