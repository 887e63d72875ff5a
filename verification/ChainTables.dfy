/** The chain database as tables: fixed-size segments, a block index, a metadata row and a
    verification row, each a function of the chain they store. */
module ChainTables {
  import opened Results
  import opened Chain
  import opened Segments

  datatype Header = Header(allocations: map<string, nat>, vdfRounds: nat, profile: string)

  datatype Snapshot = Snapshot(header: Header, blocks: seq<Block>)

  datatype SegmentRow = SegmentRow(firstHeight: nat, lastHeight: nat, endHash: Hash, blocks: seq<Block>)

  datatype IndexRow = IndexRow(hash: Hash, segmentId: nat, segmentOffset: nat)

  datatype MetaRow = MetaRow(height: nat, tipHash: Hash, header: Header)

  datatype VerificationRow = VerificationRow(tipHash: Hash, ruleset: string)

  type SegmentTable = map<nat, SegmentRow>
  type IndexTable = map<nat, IndexRow>

  const CURRENT_CONSENSUS_RULESET := "iuna-consensus-v3"

  function SegmentCount(length: nat, n: pos): nat {
    SegmentId(length + n - 1, n)
  }

  function Chunk(chain: seq<Block>, n: pos, id: nat): seq<Block>
    requires Start(id, n) <= |chain|
  {
    chain[Start(id, n)..Min(Start(id, n) + n, |chain|)]
  }

  /** Repeated addition computes the source's quotient and remainder. */
  lemma SegmentArithmetic(chain: seq<Block>, n: pos, h: nat)
    requires h < |chain|
    ensures IndexRowAt(chain, n, h) == IndexRow(chain[h].hash, h / n, h % n)
  {
    QuotientAndRemainder(h, n);
  }

  lemma SegmentCountBound(length: nat, n: pos, id: nat)
    ensures id < SegmentCount(length, n) <==> Start(id, n) < length
    ensures id <= Start(id, n)
  {
    var count := SegmentCount(length, n);
    SegmentBounds(length + n - 1, n);
    StartMonotone(id, count, n);
    StartMonotone(count, id, n);
  }

  // ----- the tables a chain is stored as

  function RowOf(blocks: seq<Block>): SegmentRow
    requires blocks != []
  {
    var last := blocks[|blocks| - 1];
    SegmentRow(blocks[0].height, last.height, last.hash, blocks)
  }

  /** The segment row for the blocks at heights lo..hi-1. */
  ghost function Row(chain: seq<Block>, lo: nat, hi: nat): SegmentRow
    requires lo < hi <= |chain|
  {
    SegmentRow(lo, hi - 1, chain[hi - 1].hash, chain[lo..hi])
  }

  /** Segment `id` holds the blocks at heights id*n to id*n+n-1 that the chain reaches. */
  ghost function SegmentAt(chain: seq<Block>, n: pos, id: nat): SegmentRow
    requires Start(id, n) < |chain|
  {
    Row(chain, Start(id, n), Min(Start(id, n) + n, |chain|))
  }

  ghost function SegmentsOf(chain: seq<Block>, n: pos): SegmentTable {
    map id: nat | id < |chain| && Start(id, n) < |chain| :: SegmentAt(chain, n, id)
  }

  function IndexRowAt(chain: seq<Block>, n: pos, h: nat): IndexRow
    requires h < |chain|
  {
    IndexRow(chain[h].hash, SegmentId(h, n), SegmentOffset(h, n))
  }

  ghost function IndexOf(chain: seq<Block>, n: pos): IndexTable {
    map h: nat | h < |chain| :: IndexRowAt(chain, n, h)
  }

  ghost function MetaOf(header: Header, chain: seq<Block>): Option<MetaRow> {
    if chain == [] then None
    else Some(MetaRow(|chain| - 1, chain[|chain| - 1].hash, header))
  }

  // ----- what one SQL row write may do

  predicate HashTaken(index: IndexTable, height: nat, hash: Hash) {
    exists h :: h in index && h != height && index[h].hash == hash
  }

  /** INSERT: refused by the primary key on the height and by the unique hash. */
  function Insert(index: IndexTable, height: nat, row: IndexRow): Result<IndexTable> {
    if height in index then Err("primary key")
    else if HashTaken(index, height, row.hash) then Err("unique hash")
    else Ok(index[height := row])
  }

  /** INSERT .. ON CONFLICT(height) DO UPDATE: still refused by the unique hash. */
  function Upsert(index: IndexTable, height: nat, row: IndexRow): Result<IndexTable> {
    if HashTaken(index, height, row.hash) then Err("unique hash")
    else Ok(index[height := row])
  }

  /** Every row's hash commits to the height it is filed under. */
  ghost predicate KeyedByHeight(index: IndexTable) {
    forall h :: h in index ==> index[h].hash.Digest? && index[h].hash.height == h
  }

  ghost predicate Consecutive(blocks: seq<Block>, base: nat) {
    forall k :: 0 <= k < |blocks| ==> blocks[k].height == base + k && Sealed(blocks[k])
  }

  /** `out` is `index` with the rows of `blocks`, filed from height `base` on, written over it. */
  ghost predicate WithRows(out: IndexTable, index: IndexTable, blocks: seq<Block>, id: nat, base: nat) {
    && (forall h :: h in out <==> h in index || base <= h < base + |blocks|)
    && (forall h :: h in out && base <= h < base + |blocks| ==>
          out[h] == IndexRow(blocks[h - base].hash, id, h - base))
    && (forall h :: h in out && !(base <= h < base + |blocks|) ==> out[h] == index[h])
  }

  /** Index one segment's blocks. No write is refused, whatever rows other segments left behind. */
  method IndexSegment(index: IndexTable, blocks: seq<Block>, id: nat, upsert: bool, ghost base: nat)
    returns (out: IndexTable)
    requires KeyedByHeight(index) && Consecutive(blocks, base)
    requires !upsert ==> forall h :: base <= h < base + |blocks| ==> h !in index
    ensures WithRows(out, index, blocks, id, base)
    ensures KeyedByHeight(out)
  {
    out := index;
    for offset := 0 to |blocks|
      invariant WithRows(out, index, blocks[..offset], id, base)
      invariant KeyedByHeight(out)
    {
      var block := blocks[offset];
      var row := IndexRow(block.hash, id, offset);
      var written := if upsert then Upsert(out, block.height, row) else Insert(out, block.height, row);
      assert written.Ok?;
      out := written.value;
    }
  }

  lemma {:induction false} IndexSize(chain: seq<Block>, n: pos)
    ensures |IndexOf(chain, n)| == |chain|
  {
    if chain != [] {
      var last := |chain| - 1;
      IndexSize(chain[..last], n);
      assert IndexOf(chain, n).Keys == IndexOf(chain[..last], n).Keys + {last};
      assert |IndexOf(chain, n)| == |IndexOf(chain, n).Keys|;
    }
  }

  /** Index rows that all belong to `chain` are complete as soon as there are enough of them. */
  lemma CompleteByCount(index: IndexTable, chain: seq<Block>, n: pos)
    requires SubIndex(index, chain, n)
    ensures |index| == |chain| <==> index == IndexOf(chain, n)
  {
    IndexSize(chain, n);
    var all := IndexOf(chain, n);
    assert |index| == |index.Keys| && |all| == |all.Keys|;
    assert |all.Keys - index.Keys| == |all.Keys| - |index.Keys|;
    if |index| == |chain| {
      assert all.Keys - index.Keys == {};
      assert all.Keys == index.Keys;
    }
  }

  /** Every row is right, but some may be missing. */
  ghost predicate SubIndex(index: IndexTable, chain: seq<Block>, n: pos) {
    forall h :: h in index ==> h < |chain| && index[h] == IndexRowAt(chain, n, h)
  }

  lemma SubIndexKeyed(index: IndexTable, chain: seq<Block>, n: pos)
    requires Linked(chain) && SubIndex(index, chain, n)
    ensures KeyedByHeight(index)
  {
    forall h | h in index
      ensures index[h].hash.Digest? && index[h].hash.height == h
    {
      assert LinkedAt(chain, h);
    }
  }

  /** Exactly the heights of a segment's range belong to it, at their distance from its start. */
  lemma SegmentHeights(n: pos, id: nat)
    ensures forall h: nat :: SegmentId(h, n) == id <==> Start(id, n) <= h < Start(id, n) + n
    ensures forall h: nat :: SegmentId(h, n) == id ==> SegmentOffset(h, n) == h - Start(id, n)
  {
    forall h: nat
      ensures SegmentId(h, n) == id <==> Start(id, n) <= h < Start(id, n) + n
      ensures SegmentId(h, n) == id ==> SegmentOffset(h, n) == h - Start(id, n)
    {
      SegmentOfHeight(h, n, id);
      SegmentBounds(h, n);
    }
  }

  lemma RowOfRange(chain: seq<Block>, lo: nat, hi: nat)
    requires Linked(chain) && lo < hi <= |chain|
    ensures Consecutive(chain[lo..hi], lo)
    ensures RowOf(chain[lo..hi]) == Row(chain, lo, hi)
  {
    forall k | 0 <= k < hi - lo
      ensures chain[lo..hi][k].height == lo + k && Sealed(chain[lo..hi][k])
    {
      assert LinkedAt(chain, lo + k);
    }
  }
}
