/** Writing a chain: the segment loop of the full save, and the specification of the resident save. */
module ChainStoreWrites {
  import opened Results
  import opened Chain
  import opened Segments
  import opened ChainTables

  /** Segments that end in the same hash end at the same height, with equal chains below. */
  lemma SameEnd(stored: seq<Block>, chain: seq<Block>, n: pos, id: nat, lo: nat)
    requires Linked(stored) && Linked(chain) && lo == Start(id, n) < |stored| && lo < |chain|
    requires SegmentAt(stored, n, id).endHash == SegmentAt(chain, n, id).endHash
    ensures Min(lo + n, |stored|) == Min(lo + n, |chain|)
    ensures stored[..Min(lo + n, |stored|)] == chain[..Min(lo + n, |stored|)]
  {
    SameHashSamePrefix(stored, chain, Min(lo + n, |stored|) - 1, Min(lo + n, |chain|) - 1);
  }

  lemma SamePrefixSameRow(stored: seq<Block>, chain: seq<Block>, lo: nat, hi: nat, end: nat)
    requires lo < hi <= end <= |stored| && end <= |chain| && stored[..end] == chain[..end]
    ensures Row(stored, lo, hi) == Row(chain, lo, hi)
  {
    assert stored[lo..hi] == stored[..end][lo..hi];
    assert chain[lo..hi] == chain[..end][lo..hi];
    assert stored[hi - 1] == stored[..end][hi - 1] == chain[..end][hi - 1] == chain[hi - 1];
  }

  /** The segments below `id` describe `chain`, the rest is still untouched. */
  ghost predicate SegmentsWritten(segs: SegmentTable, segments: SegmentTable, chain: seq<Block>, n: pos, id: nat) {
    && (forall k: nat {:trigger k in segs} :: k < id && Start(k, n) < |chain| ==>
          k in segs && segs[k] == SegmentAt(chain, n, k))
    && (forall k :: k >= id ==> (k in segs <==> k in segments))
    && (forall k :: k >= id && k in segs ==> segs[k] == segments[k])
  }

  /** The index rows below height `end` describe `chain`, the rest is still untouched. */
  ghost predicate RowsWritten(idx: IndexTable, index: IndexTable, chain: seq<Block>, n: pos, end: nat) {
    && (forall h :: h in idx && h < end ==> h < |chain| && idx[h] == IndexRowAt(chain, n, h))
    && (forall h :: h in idx && h >= end ==> h in index && idx[h] == index[h])
  }

  /** The segments below `first` need no look: the stored chain and the new one share them. */
  ghost predicate SharesSegments(stored: seq<Block>, chain: seq<Block>, n: pos, first: nat) {
    Start(first, n) <= |stored| && Start(first, n) <= |chain| && stored[..Start(first, n)] == chain[..Start(first, n)]
  }

  lemma SharedSegmentsWritten(segments: SegmentTable, stored: seq<Block>, chain: seq<Block>, n: pos, first: nat)
    requires segments == SegmentsOf(stored, n) && SharesSegments(stored, chain, n, first)
    ensures SegmentsWritten(segments, segments, chain, n, first)
  {
    forall k: nat | k < first && Start(k, n) < |chain|
      ensures k in segments && segments[k] == SegmentAt(chain, n, k)
    {
      StartMonotone(k, first, n);
      SamePrefixSameRow(stored, chain, Start(k, n), Start(k, n) + n, Start(first, n));
    }
  }

  /** Rows of the stored chain below a shared end are rows of the new chain. */
  lemma SharedRowsWritten(idx: IndexTable, index: IndexTable, stored: seq<Block>, chain: seq<Block>,
                          n: pos, lo: nat, hi: nat)
    requires SubIndex(index, stored, n) && RowsWritten(idx, index, chain, n, lo)
    requires Min(hi, |stored|) <= |chain| && stored[..Min(hi, |stored|)] == chain[..Min(hi, |stored|)]
    requires lo <= hi
    ensures RowsWritten(idx, index, chain, n, hi)
  {
    var end := Min(hi, |stored|);
    forall h | h in idx && lo <= h < hi
      ensures h < |chain| && idx[h] == IndexRowAt(chain, n, h)
    {
      assert stored[h] == stored[..end][h] == chain[..end][h] == chain[h];
    }
  }

  /** Dropping a segment's rows and writing the new chunk's leaves only right rows below its end. */
  lemma RewrittenRows(idx: IndexTable, idx': IndexTable, index: IndexTable, stored: seq<Block>,
                      chain: seq<Block>, n: pos, id: nat, lo: nat, hi: nat)
    requires Linked(chain) && lo == Start(id, n) < |chain| && hi == Min(lo + n, |chain|) && SubIndex(index, stored, n)
    requires RowsWritten(idx, index, chain, n, lo)
    requires WithRows(idx', WithoutSegment(idx, id), chain[lo..hi], id, lo)
    ensures RowsWritten(idx', index, chain, n, lo + n)
  {
    SegmentHeights(n, id);
    forall h | h in idx' && h < lo + n
      ensures h < |chain| && idx'[h] == IndexRowAt(chain, n, h)
    {
      RewrittenRow(idx, idx', index, stored, chain, n, id, lo, hi, h);
    }
    forall h | h in idx' && h >= lo + n
      ensures h in index && idx'[h] == index[h]
    {
      assert h in idx;
    }
  }

  lemma RewrittenRow(idx: IndexTable, idx': IndexTable, index: IndexTable, stored: seq<Block>, chain: seq<Block>,
                     n: pos, id: nat, lo: nat, hi: nat, h: nat)
    requires lo == Start(id, n) < |chain| && hi == Min(lo + n, |chain|) && SubIndex(index, stored, n)
    requires RowsWritten(idx, index, chain, n, lo)
    requires WithRows(idx', WithoutSegment(idx, id), chain[lo..hi], id, lo) && h in idx' && h < lo + n
    ensures h < |chain| && idx'[h] == IndexRowAt(chain, n, h)
  {
    if h < lo {
      assert h in idx;
    } else {
      SegmentOfHeight(h, n, id);
      SegmentBounds(h, n);
      assert h in index ==> index[h].segmentId == id;
      assert h < hi && chain[lo..hi][h - lo] == chain[h];
    }
  }

  function WithoutSegment(idx: IndexTable, id: nat): (r: IndexTable)
    ensures KeyedByHeight(idx) ==> KeyedByHeight(r)
  {
    map h | h in idx && idx[h].segmentId != id :: idx[h]
  }

  /** A stored segment that ends in the same hash as the new chunk is that chunk and can be kept. */
  lemma SegmentKept(segs: SegmentTable, idx: IndexTable, segments: SegmentTable, index: IndexTable,
                    stored: seq<Block>, chain: seq<Block>, n: pos, id: nat)
    requires Linked(stored) && Linked(chain) && Start(id, n) < |chain|
    requires segments == SegmentsOf(stored, n) && SubIndex(index, stored, n)
    requires SegmentsWritten(segs, segments, chain, n, id)
    requires RowsWritten(idx, index, chain, n, Start(id, n))
    requires id in segs && segs[id].endHash == SegmentAt(chain, n, id).endHash
    ensures SegmentsWritten(segs, segments, chain, n, id + 1)
    ensures RowsWritten(idx, index, chain, n, Start(id, n) + n)
  {
    var lo := Start(id, n);
    assert segs[id] == SegmentAt(stored, n, id);
    SameEnd(stored, chain, n, id, lo);
    SameEndSameSegment(stored, chain, n, id, lo, Min(lo + n, |stored|));
    SegmentStays(segs, segments, chain, n, id);
    SharedRowsWritten(idx, index, stored, chain, n, lo, lo + n);
  }

  lemma SameEndSameSegment(stored: seq<Block>, chain: seq<Block>, n: pos, id: nat, lo: nat, end: nat)
    requires lo == Start(id, n) < |stored| && lo < |chain| && end == Min(lo + n, |stored|) == Min(lo + n, |chain|)
    requires stored[..end] == chain[..end]
    ensures SegmentAt(stored, n, id) == SegmentAt(chain, n, id)
  {
    SamePrefixSameRow(stored, chain, lo, end, end);
  }

  lemma SegmentStays(segs: SegmentTable, segments: SegmentTable, chain: seq<Block>, n: pos, id: nat)
    requires Start(id, n) < |chain| && SegmentsWritten(segs, segments, chain, n, id)
    requires id in segs && segs[id] == SegmentAt(chain, n, id)
    ensures SegmentsWritten(segs, segments, chain, n, id + 1)
  {
  }

  lemma SegmentReplaced(segs: SegmentTable, segments: SegmentTable, chain: seq<Block>, n: pos, id: nat)
    requires Start(id, n) < |chain|
    requires SegmentsWritten(segs, segments, chain, n, id)
    ensures SegmentsWritten(segs[id := SegmentAt(chain, n, id)], segments, chain, n, id + 1)
  {
  }

  /** One step of the segment loop: keep a chunk whose stored end hash is the new one, else rewrite it. */
  method WriteSegment(chain: seq<Block>, n: pos, id: nat, segs: SegmentTable, idx: IndexTable,
                      ghost segments: SegmentTable, ghost index: IndexTable, ghost stored: seq<Block>)
    returns (segs': SegmentTable, idx': IndexTable)
    requires Linked(stored) && Linked(chain) && Start(id, n) < |chain|
    requires segments == SegmentsOf(stored, n) && SubIndex(index, stored, n) && KeyedByHeight(idx)
    requires SegmentsWritten(segs, segments, chain, n, id)
    requires RowsWritten(idx, index, chain, n, Start(id, n))
    ensures SegmentsWritten(segs', segments, chain, n, id + 1)
    ensures RowsWritten(idx', index, chain, n, Start(id, n) + n)
    ensures KeyedByHeight(idx')
  {
    var blocks := Chunk(chain, n, id);
    ChunkRow(chain, n, id, blocks);
    if id in segs && segs[id].endHash == blocks[|blocks| - 1].hash {
      SegmentKept(segs, idx, segments, index, stored, chain, n, id);
      segs', idx' := segs, idx;
    } else {
      idx' := IndexSegment(WithoutSegment(idx, id), blocks, id, true, Start(id, n));
      RewrittenRows(idx, idx', index, stored, chain, n, id, Start(id, n), Min(Start(id, n) + n, |chain|));
      SegmentReplaced(segs, segments, chain, n, id);
      segs' := segs[id := RowOf(blocks)];
    }
  }

  lemma ChunkRow(chain: seq<Block>, n: pos, id: nat, blocks: seq<Block>)
    requires Linked(chain) && Start(id, n) < |chain| && blocks == Chunk(chain, n, id)
    ensures blocks != [] && Consecutive(blocks, Start(id, n)) && RowOf(blocks) == SegmentAt(chain, n, id)
    ensures SegmentAt(chain, n, id).endHash == blocks[|blocks| - 1].hash
  {
    RowOfRange(chain, Start(id, n), Min(Start(id, n) + n, |chain|));
  }

  /** The segment loop of a full save: rewrite every chunk whose stored end hash differs. */
  method WriteSegments(chain: seq<Block>, n: pos, first: nat, segments: SegmentTable,
                       index: IndexTable, ghost stored: seq<Block>)
    returns (segs: SegmentTable, idx: IndexTable)
    requires Linked(stored) && Linked(chain)
    requires segments == SegmentsOf(stored, n) && SubIndex(index, stored, n)
    requires SharesSegments(stored, chain, n, first)
    ensures SegmentsWritten(segs, segments, chain, n, SegmentCount(|chain|, n))
    ensures forall h :: h in idx && h < |chain| ==> idx[h] == IndexRowAt(chain, n, h)
  {
    segs, idx := segments, index;
    SubIndexKeyed(index, stored, n);
    SharedSegmentsWritten(segments, stored, chain, n, first);
    SharedRowsWritten(idx, index, stored, chain, n, 0, Start(first, n));
    var id, lo := first, Start(first, n);
    ghost var count := SegmentCount(|chain|, n);
    FirstWithinCount(|chain|, n, first);
    while id < SegmentCount(|chain|, n)
      invariant id <= count && lo == Start(id, n)
      invariant SegmentsWritten(segs, segments, chain, n, id)
      invariant RowsWritten(idx, index, chain, n, lo)
      invariant KeyedByHeight(idx)
    {
      SegmentCountBound(|chain|, n, id);
      segs, idx := WriteSegment(chain, n, id, segs, idx, segments, index, stored);
      id, lo := id + 1, lo + n;
    }
    SegmentCountBound(|chain|, n, id);
  }

  lemma FirstWithinCount(length: nat, n: pos, first: nat)
    requires Start(first, n) <= length
    ensures first <= SegmentCount(length, n)
  {
    if first > 0 {
      SegmentCountBound(length, n, first - 1);
    }
  }

  lemma SegmentsTrimmed(segs: SegmentTable, segments: SegmentTable, chain: seq<Block>, n: pos)
    requires SegmentsWritten(segs, segments, chain, n, SegmentCount(|chain|, n))
    ensures (map id | id in segs && id < SegmentCount(|chain|, n) :: segs[id]) == SegmentsOf(chain, n)
  {
    var trimmed := map id | id in segs && id < SegmentCount(|chain|, n) :: segs[id];
    forall id: nat
      ensures id in trimmed <==> id in SegmentsOf(chain, n)
      ensures id in trimmed ==> trimmed[id] == SegmentsOf(chain, n)[id]
    {
      SegmentCountBound(|chain|, n, id);
    }
  }

  /** The fallback that re-inserts every index row after deleting them all. */
  method RebuildIndex(chain: seq<Block>, n: pos) returns (out: IndexTable)
    requires Linked(chain)
    ensures out == IndexOf(chain, n)
  {
    out := map[];
    for h := 0 to |chain|
      invariant out == IndexOf(chain[..h], n)
    {
      assert LinkedAt(chain, h);
      SubIndexKeyed(out, chain, n);
      var written := Insert(out, chain[h].height, IndexRow(chain[h].hash, SegmentId(h, n), SegmentOffset(h, n)));
      assert written.Ok?;
      out := written.value;
      assert out == IndexOf(chain[..h + 1], n);
    }
    assert chain[..|chain|] == chain;
  }

  /** The table writes of a full save, from the segment loop to the index count check. */
  method WriteChain(chain: seq<Block>, n: pos, first: nat, segments: SegmentTable,
                    index: IndexTable, ghost stored: seq<Block>)
    returns (segs: SegmentTable, idx: IndexTable)
    requires Linked(stored) && Linked(chain)
    requires segments == SegmentsOf(stored, n) && SubIndex(index, stored, n)
    requires SharesSegments(stored, chain, n, first)
    ensures segs == SegmentsOf(chain, n) && idx == IndexOf(chain, n)
  {
    segs, idx := WriteSegments(chain, n, first, segments, index, stored);
    SegmentsTrimmed(segs, segments, chain, n);
    segs := map id | id in segs && id < SegmentCount(|chain|, n) :: segs[id];
    idx := map h | h in idx && h < |chain| :: idx[h];
    CompleteByCount(idx, chain, n);
    if |idx| != |chain| {
      idx := RebuildIndex(chain, n);
    }
  }

  lemma IndexGrown(idx: IndexTable, out: IndexTable, chain: seq<Block>, n: pos, id: nat, lo: nat, hi: nat)
    requires Linked(chain) && lo == Start(id, n) < |chain| && hi == Min(lo + n, |chain|)
    requires idx == IndexOf(chain[..lo], n) && WithRows(out, idx, chain[lo..hi], id, lo)
    ensures out == IndexOf(chain[..hi], n)
  {
    SegmentHeights(n, id);
    forall h | h in out
      ensures h < hi && out[h] == IndexRowAt(chain[..hi], n, h)
    {
      if h >= lo {
        assert SegmentId(h, n) == id;
        assert chain[lo..hi][h - lo] == chain[h];
      } else {
        assert h in idx && chain[..lo][h] == chain[h];
      }
    }
  }

  /** Index one stored segment after those before it. */
  method IndexStored(n: pos, row: SegmentRow, id: nat, idx: IndexTable, ghost chain: seq<Block>, ghost lo: nat,
                     ghost hi: nat)
    returns (out: IndexTable)
    requires Linked(chain) && lo == Start(id, n) < |chain| && hi == Min(lo + n, |chain|)
    requires row == SegmentAt(chain, n, id) && idx == IndexOf(chain[..lo], n)
    ensures out == IndexOf(chain[..hi], n)
  {
    RowOfRange(chain, lo, hi);
    LinkedPrefix(chain, lo);
    SubIndexKeyed(idx, chain[..lo], n);
    out := IndexSegment(idx, row.blocks, id, false, lo);
    IndexGrown(idx, out, chain, n, id, lo, hi);
  }

  method StoredSegment(n: pos, segments: SegmentTable, id: nat, ghost chain: seq<Block>, ghost lo: nat)
    returns (row: Option<SegmentRow>)
    requires segments == SegmentsOf(chain, n) && lo == Start(id, n)
    ensures row.Some? <==> lo < |chain|
    ensures row.Some? ==> row.value == SegmentAt(chain, n, id)
  {
    SegmentCountBound(|chain|, n, id);
    return if id in segments then Some(segments[id]) else None;
  }

  /** Rebuild the whole index by walking the stored segments in order. */
  method IndexFromSegments(n: pos, segments: SegmentTable, ghost chain: seq<Block>) returns (idx: IndexTable)
    requires Linked(chain) && segments == SegmentsOf(chain, n)
    ensures idx == IndexOf(chain, n)
  {
    idx := map[];
    var id := 0;
    ghost var lo, done := 0, chain[..0];
    var row := StoredSegment(n, segments, id, chain, lo);
    while row.Some?
      invariant lo == Start(id, n) && done == chain[..Min(lo, |chain|)] && idx == IndexOf(done, n)
      invariant row.Some? <==> lo < |chain|
      invariant row.Some? ==> row.value == SegmentAt(chain, n, id)
      decreases |chain| - lo
    {
      ghost var hi := Min(lo + n, |chain|);
      idx := IndexStored(n, row.value, id, idx, chain, lo, hi);
      id, lo, done := id + 1, lo + n, chain[..hi];
      row := StoredSegment(n, segments, id, chain, lo);
    }
    assert done == chain;
  }
}
