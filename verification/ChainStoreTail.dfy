/** Writing a resident tail over a stored chain: only the segments the tail touches are rewritten. */
module ChainStoreTail {
  import opened Results
  import opened Chain
  import opened Segments
  import opened ChainTables
  import opened ChainStoreWrites

  function FilterHeights(blocks: seq<Block>, lo: nat, hi: nat): seq<Block> {
    if blocks == [] then []
    else (if lo <= blocks[0].height < hi then [blocks[0]] else []) + FilterHeights(blocks[1..], lo, hi)
  }

  function Clamp(x: int, top: nat): nat {
    if x < 0 then 0 else if x > top then top else x
  }

  /** Filtering consecutive heights is slicing. */
  lemma {:induction false} FilterIsSlice(blocks: seq<Block>, base: nat, lo: nat, hi: nat)
    requires forall k :: 0 <= k < |blocks| ==> blocks[k].height == base + k
    requires lo <= hi
    ensures FilterHeights(blocks, lo, hi) == blocks[Clamp(lo - base, |blocks|)..Clamp(hi - base, |blocks|)]
  {
    if blocks != [] {
      FilterIsSlice(blocks[1..], base + 1, lo, hi);
      var a, b := Clamp(lo - base, |blocks|), Clamp(hi - base, |blocks|);
      if base < lo {
        SliceShift(blocks, a, b);
      } else if base < hi {
        SliceCons(blocks, b);
      }
    }
  }

  lemma SliceShift(blocks: seq<Block>, a: nat, b: nat)
    requires 0 < a <= b <= |blocks|
    ensures blocks[1..][a - 1..b - 1] == blocks[a..b]
  {
  }

  lemma SliceCons(blocks: seq<Block>, b: nat)
    requires 0 < b <= |blocks|
    ensures [blocks[0]] + blocks[1..][0..b - 1] == blocks[0..b]
  {
  }

  /** Filtering a linked chain's tail from a height on cuts the tail there. */
  lemma FilterTail(chain: seq<Block>, start: nat, from: nat, k: nat)
    requires Linked(chain) && start <= |chain| && from <= |chain| && k == Max(start, from)
    ensures FilterHeights(chain[start..], from, |chain|) == chain[k..]
  {
    var tail := chain[start..];
    forall i | 0 <= i < |tail|
      ensures tail[i].height == start + i
    {
      assert LinkedAt(chain, start + i);
    }
    FilterIsSlice(tail, start, from, |chain|);
    SliceOfTail(chain, start, k);
  }

  lemma SliceOfTail(chain: seq<Block>, start: nat, k: nat)
    requires start <= k <= |chain|
    ensures chain[start..][k - start..|chain| - start] == chain[k..]
  {
  }

  function KeptPrefix(stored: seq<Block>, ts: nat, lo: nat): seq<Block>
    requires ts <= |stored|
  {
    if lo <= ts then stored[lo..ts] else []
  }

  /** The blocks rewritten into a segment from `lo` on: the kept stored prefix, then the tail's part. */
  lemma SegmentBlocks(stored: seq<Block>, tail: seq<Block>, ts: nat, lo: nat, n: pos)
    requires ts <= |stored| && lo < ts + |tail|
    requires forall k :: 0 <= k < |tail| ==> tail[k].height == ts + k
    requires lo + n > ts
    ensures KeptPrefix(stored, ts, lo) + FilterHeights(tail, lo, lo + n)
            == (stored[..ts] + tail)[lo..Min(lo + n, ts + |tail|)]
  {
    var hi := Min(lo + n, ts + |tail|);
    FilterIsSlice(tail, ts, lo, lo + n);
    if lo <= ts {
      SpliceAcross(stored, tail, ts, lo, hi);
    } else {
      SpliceWithin(stored, tail, ts, lo, hi);
    }
  }

  lemma SpliceAcross(stored: seq<Block>, tail: seq<Block>, ts: nat, lo: nat, hi: nat)
    requires lo <= ts <= |stored| && ts <= hi <= ts + |tail|
    ensures (stored[..ts] + tail)[lo..hi] == stored[lo..ts] + tail[0..hi - ts]
  {
  }

  lemma SpliceWithin(stored: seq<Block>, tail: seq<Block>, ts: nat, lo: nat, hi: nat)
    requires ts <= |stored| && ts <= lo <= hi <= ts + |tail|
    ensures (stored[..ts] + tail)[lo..hi] == tail[lo - ts..hi - ts]
  {
  }

  /** Rows below `lo` are complete; any row from `lo` on is a stored row below the tail. */
  ghost predicate TailRows(idx: IndexTable, stored: seq<Block>, chain: seq<Block>, n: pos, ts: nat, lo: nat) {
    && SubIndex(idx, chain, n)
    && (forall h: nat {:trigger h in idx} :: h < lo && h < |chain| ==> h in idx)
    && (forall h :: h in idx ==> h < lo || h < ts)
  }

  lemma TailRowsRewritten(idx: IndexTable, idx': IndexTable, stored: seq<Block>, chain: seq<Block>,
                          n: pos, ts: nat, id: nat, lo: nat, hi: nat)
    requires Linked(chain) && lo == Start(id, n) < |chain| && hi == Min(lo + n, |chain|)
    requires ts < lo + n && TailRows(idx, stored, chain, n, ts, lo)
    requires WithRows(idx', WithoutSegment(idx, id), chain[lo..hi], id, lo)
    ensures TailRows(idx', stored, chain, n, ts, lo + n)
  {
    SegmentHeights(n, id);
    RewrittenRowsRight(idx, idx', chain, n, id, lo, hi);
    forall h: nat | h < lo + n && h < |chain|
      ensures h in idx'
    {
      if h < lo {
        assert h in idx && idx[h].segmentId == SegmentId(h, n) != id;
      }
    }
  }

  lemma RewrittenRowsRight(idx: IndexTable, idx': IndexTable, chain: seq<Block>, n: pos, id: nat, lo: nat, hi: nat)
    requires Linked(chain) && lo == Start(id, n) < |chain| && hi == Min(lo + n, |chain|)
    requires SubIndex(idx, chain, n) && WithRows(idx', WithoutSegment(idx, id), chain[lo..hi], id, lo)
    ensures SubIndex(idx', chain, n)
  {
    SegmentHeights(n, id);
    forall h | h in idx'
      ensures h < |chain| && idx'[h] == IndexRowAt(chain, n, h)
    {
      if lo <= h < hi {
        assert SegmentId(h, n) == id;
        assert chain[lo..hi][h - lo] == chain[h];
      } else {
        assert h in idx;
      }
    }
  }

  lemma TailFreesSegment(idx: IndexTable, stored: seq<Block>, chain: seq<Block>, n: pos, ts: nat, id: nat)
    requires TailRows(idx, stored, chain, n, ts, Start(id, n))
    ensures forall h :: Start(id, n) <= h < Start(id, n) + n ==> h !in WithoutSegment(idx, id)
  {
    SegmentHeights(n, id);
  }

  /** One step of the tail loop. The inserts are plain: no primary or unique key is in the way. */
  method WriteTailSegment(prefix: seq<Block>, tail: seq<Block>, n: pos, id: nat, lo: nat,
                          segs: SegmentTable, idx: IndexTable,
                          ghost segments: SegmentTable, ghost stored: seq<Block>, ghost chain: seq<Block>,
                          ghost ts: nat)
    returns (segs': SegmentTable, idx': IndexTable)
    requires Linked(chain) && ts <= |stored| && chain == stored[..ts] + tail
    requires forall k :: 0 <= k < |tail| ==> tail[k].height == ts + k
    requires SegmentId(ts, n) <= id && lo == Start(id, n) < |chain| && ts < lo + n
    requires prefix == KeptPrefix(stored, ts, lo)
    requires SegmentsWritten(segs, segments, chain, n, id)
    requires TailRows(idx, stored, chain, n, ts, lo)
    ensures SegmentsWritten(segs', segments, chain, n, id + 1)
    ensures TailRows(idx', stored, chain, n, ts, lo + n)
  {
    SegmentBlocks(stored, tail, ts, lo, n);
    var blocks := prefix + FilterHeights(tail, lo, lo + n);
    assert blocks == Chunk(chain, n, id);
    ChunkRow(chain, n, id, blocks);
    SubIndexKeyed(idx, chain, n);
    TailFreesSegment(idx, stored, chain, n, ts, id);
    idx' := IndexSegment(WithoutSegment(idx, id), blocks, id, false, lo);
    TailRowsRewritten(idx, idx', stored, chain, n, ts, id, lo, Min(lo + n, |chain|));
    SegmentReplaced(segs, segments, chain, n, id);
    segs' := segs[id := RowOf(blocks)];
  }

  lemma TailStartsWritten(segments: SegmentTable, index: IndexTable, stored: seq<Block>, chain: seq<Block>,
                          n: pos, ts: nat)
    requires segments == SegmentsOf(stored, n) && index == IndexOf(stored, n)
    requires ts <= |stored| && ts <= |chain| && stored[..ts] == chain[..ts]
    ensures SegmentsWritten(segments, segments, chain, n, SegmentId(ts, n))
    ensures TailRows(map h | h in index && h < ts :: index[h], stored, chain, n, ts, Start(SegmentId(ts, n), n))
  {
    var first := SegmentId(ts, n);
    SegmentBounds(ts, n);
    assert stored[..Start(first, n)] == stored[..ts][..Start(first, n)];
    assert chain[..Start(first, n)] == chain[..ts][..Start(first, n)];
    SharedSegmentsWritten(segments, stored, chain, n, first);
    forall h: nat | h < ts
      ensures stored[h] == chain[h]
    {
      assert stored[h] == stored[..ts][h] == chain[..ts][h];
    }
  }

  lemma KeptNothing(stored: seq<Block>, ts: nat, lo: nat)
    requires ts <= |stored| && ts < lo
    ensures KeptPrefix(stored, ts, lo) == []
  {
  }

  /** The segment loop of a resident save, from the tail's first segment to its last. */
  method WriteTailSegments(tail: seq<Block>, ts: nat, n: pos, segments: SegmentTable, index: IndexTable,
                           ghost stored: seq<Block>, ghost chain: seq<Block>, ghost count: nat)
    returns (segs: SegmentTable, idx: IndexTable)
    requires segments == SegmentsOf(stored, n) && index == IndexOf(stored, n)
    requires 0 < ts <= |stored| && tail != [] && Linked(stored) && Linked(chain) && chain == stored[..ts] + tail
    requires forall k :: 0 <= k < |tail| ==> tail[k].height == ts + k
    requires count == SegmentCount(|chain|, n)
    ensures SegmentsWritten(segs, segments, chain, n, count)
    ensures TailRows(idx, stored, chain, n, ts, Start(count, n))
  {
    var first, last := SegmentId(ts, n), SegmentId(tail[|tail| - 1].height, n);
    var prefix := LoadPrefix(ts, n, segments, stored);
    segs := segments;
    idx := map h | h in index && h < ts :: index[h];
    assert stored[..ts] == chain[..ts];
    TailStartsWritten(segments, index, stored, chain, n, ts);
    LastSegment(|chain|, n);
    SegmentBounds(ts, n);
    FirstWithinCount(|chain|, n, first);
    segs, idx := RewriteFrom(first, last, Start(first, n), prefix, tail, ts, n, segs, idx, segments, stored, chain);
  }

  method RewriteFrom(first: nat, last: nat, start: nat, kept: seq<Block>, tail: seq<Block>, ts: nat, n: pos,
                     before: SegmentTable, rows: IndexTable,
                     ghost segments: SegmentTable, ghost stored: seq<Block>, ghost chain: seq<Block>)
    returns (segs: SegmentTable, idx: IndexTable)
    requires ts <= |stored| && Linked(chain) && chain == stored[..ts] + tail
    requires forall k :: 0 <= k < |tail| ==> tail[k].height == ts + k
    requires SegmentId(ts, n) <= first <= last + 1 == SegmentCount(|chain|, n) && start == Start(first, n)
    requires ts < start + n
    requires kept == KeptPrefix(stored, ts, start)
    requires SegmentsWritten(before, segments, chain, n, first) && TailRows(rows, stored, chain, n, ts, start)
    ensures SegmentsWritten(segs, segments, chain, n, last + 1)
    ensures TailRows(idx, stored, chain, n, ts, Start(last + 1, n))
  {
    segs, idx := before, rows;
    var id, lo, prefix := first, start, kept;
    while id <= last
      invariant first <= id <= last + 1 && lo == Start(id, n) && ts < lo + n
      invariant prefix == KeptPrefix(stored, ts, lo)
      invariant SegmentsWritten(segs, segments, chain, n, id)
      invariant TailRows(idx, stored, chain, n, ts, lo)
    {
      SegmentCountBound(|chain|, n, id);
      segs, idx := WriteTailSegment(prefix, tail, n, id, lo, segs, idx, segments, stored, chain, ts);
      KeptNothing(stored, ts, lo + n);
      prefix, id, lo := [], id + 1, lo + n;
    }
  }

  /** The table writes of a resident save: `tail` replaces the stored chain from height `ts` on. */
  method WriteTail(tail: seq<Block>, ts: nat, n: pos, segments: SegmentTable, index: IndexTable,
                   ghost stored: seq<Block>, ghost chain: seq<Block>)
    returns (segs: SegmentTable, idx: IndexTable)
    requires segments == SegmentsOf(stored, n) && index == IndexOf(stored, n)
    requires 0 < ts <= |stored| && tail != [] && Linked(stored) && Linked(chain) && chain == stored[..ts] + tail
    ensures segs == SegmentsOf(chain, n) && idx == IndexOf(chain, n)
  {
    TailHeights(stored, tail, ts);
    ghost var count := SegmentCount(|chain|, n);
    segs, idx := WriteTailSegments(tail, ts, n, segments, index, stored, chain, count);
    segs, idx := TrimAbove(tail[|tail| - 1].height, n, segs, idx, segments, stored, chain, ts);
  }

  /** Delete the segments and rows above the new tip. */
  method TrimAbove(tip: nat, n: pos, segs: SegmentTable, idx: IndexTable, ghost segments: SegmentTable,
                   ghost stored: seq<Block>, ghost chain: seq<Block>, ghost ts: nat)
    returns (segs': SegmentTable, idx': IndexTable)
    requires chain != [] && tip == |chain| - 1 && SegmentsWritten(segs, segments, chain, n, SegmentCount(|chain|, n))
    requires TailRows(idx, stored, chain, n, ts, Start(SegmentCount(|chain|, n), n))
    ensures segs' == SegmentsOf(chain, n) && idx' == IndexOf(chain, n)
  {
    TailTrimmed(segs, idx, segments, stored, chain, n, ts);
    segs' := map k | k in segs && k <= SegmentId(tip, n) :: segs[k];
    idx' := map h | h in idx && h <= tip :: idx[h];
  }

  lemma TailTrimmed(segs: SegmentTable, idx: IndexTable, segments: SegmentTable, stored: seq<Block>,
                    chain: seq<Block>, n: pos, ts: nat)
    requires chain != [] && SegmentsWritten(segs, segments, chain, n, SegmentCount(|chain|, n))
    requires TailRows(idx, stored, chain, n, ts, Start(SegmentCount(|chain|, n), n))
    ensures (map k | k in segs && k <= SegmentId(|chain| - 1, n) :: segs[k]) == SegmentsOf(chain, n)
    ensures (map h | h in idx && h <= |chain| - 1 :: idx[h]) == IndexOf(chain, n)
  {
    LastSegment(|chain|, n);
    SegmentsTrimmed(segs, segments, chain, n);
    SameCut(segs, SegmentId(|chain| - 1, n));
    SegmentCountBound(|chain|, n, SegmentCount(|chain|, n));
    RowsTrimmed(idx, stored, chain, n, ts, Start(SegmentCount(|chain|, n), n));
  }

  lemma SameCut(segs: SegmentTable, last: nat)
    ensures (map k | k in segs && k <= last :: segs[k]) == (map k | k in segs && k < last + 1 :: segs[k])
  {
  }

  lemma RowsTrimmed(idx: IndexTable, stored: seq<Block>, chain: seq<Block>, n: pos, ts: nat, lo: nat)
    requires chain != [] && |chain| <= lo && TailRows(idx, stored, chain, n, ts, lo)
    ensures (map h | h in idx && h <= |chain| - 1 :: idx[h]) == IndexOf(chain, n)
  {
  }

  lemma TailHeights(stored: seq<Block>, tail: seq<Block>, ts: nat)
    requires ts <= |stored| && Linked(stored[..ts] + tail)
    ensures forall k :: 0 <= k < |tail| ==> tail[k].height == ts + k
  {
    var chain := stored[..ts] + tail;
    forall k | 0 <= k < |tail|
      ensures tail[k].height == ts + k
    {
      assert LinkedAt(chain, ts + k);
    }
  }

  lemma LastSegment(length: nat, n: pos)
    requires length > 0
    ensures SegmentCount(length, n) == SegmentId(length - 1, n) + 1
  {
  }

  lemma PrefixOfRow(stored: seq<Block>, lo: nat, hi: nat, ts: nat)
    requires Linked(stored) && lo < ts <= hi <= |stored|
    ensures FilterHeights(stored[lo..hi], 0, ts) == stored[lo..ts]
  {
    RowOfRange(stored, lo, hi);
    FilterIsSlice(stored[lo..hi], lo, 0, ts);
    assert stored[lo..hi][0..ts - lo] == stored[lo..ts];
  }

  /** The blocks of the tail's first segment that stay; its row exists because the predecessor is stored. */
  method LoadPrefix(ts: nat, n: pos, segments: SegmentTable, ghost stored: seq<Block>) returns (prefix: seq<Block>)
    requires 0 < ts <= |stored| && Linked(stored) && segments == SegmentsOf(stored, n)
    ensures prefix == KeptPrefix(stored, ts, Start(SegmentId(ts, n), n))
  {
    SegmentBounds(ts, n);
    var first := SegmentId(ts, n);
    ghost var lo := Start(first, n);
    if SegmentOffset(ts, n) == 0 {
      return [];
    }
    var row := StoredSegment(n, segments, first, stored, lo);
    PrefixOfRow(stored, lo, Min(lo + n, |stored|), ts);
    prefix := FilterHeights(row.value.blocks, 0, ts);
  }
}
