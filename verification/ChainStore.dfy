/** The chain database: the full save, the resident-tail save and the reset, each one transaction. */
module ChainStore {
  import opened Results
  import opened Chain
  import opened Segments
  import opened ChainTables
  import opened ChainStoreWrites
  import opened ChainStoreTail

  predicate IsFull(blocks: seq<Block>) {
    forall i :: 0 <= i < |blocks| ==> blocks[i].height == i
  }

  predicate Contiguous(tail: seq<Block>) {
    forall i {:trigger ParentHash(tail, i)} :: 0 < i < |tail| ==>
      tail[i].height == tail[i - 1].height + 1 && tail[i].prevHash == ParentHash(tail, i)
  }

  /** What holds of the blocks of any ledger, pruned or not: they are sealed, only genesis has height
      zero, and neighbours of consecutive height are parent-linked. */
  ghost predicate LedgerBlocks(blocks: seq<Block>) {
    && (forall i :: 0 <= i < |blocks| ==>
          Sealed(blocks[i]) && (blocks[i].height == 0 ==> i == 0 && blocks[i].prevHash == Zero))
    && (forall i {:trigger ParentHash(blocks, i)} ::
          0 < i < |blocks| && blocks[i].height == blocks[i - 1].height + 1 ==>
          blocks[i].prevHash == ParentHash(blocks, i))
  }

  lemma FullIsLinked(blocks: seq<Block>)
    requires LedgerBlocks(blocks) && IsFull(blocks)
    ensures Linked(blocks)
  {
    forall i | 0 <= i < |blocks|
      ensures LinkedAt(blocks, i)
    {
      assert ParentHash(blocks, i) == ParentHash(blocks, i);
    }
  }

  /** When a resident save succeeds, given the stored chain and its header. */
  ghost predicate ResidentAccepts(stored: seq<Block>, header: Option<Header>, snapshot: Snapshot) {
    var blocks := snapshot.blocks;
    if IsFull(blocks) then
      blocks != []
    else
      && blocks[0].height == 0
      && 2 <= |blocks|
      && Contiguous(blocks[1..])
      && header == Some(snapshot.header)
      && 0 < blocks[1].height <= |stored|
      && stored[blocks[1].height - 1].hash == blocks[1].prevHash
  }

  /** The chain a resident save leaves: the tail replaces everything from its first height on. */
  ghost function ResidentResult(stored: seq<Block>, snapshot: Snapshot): seq<Block>
    requires !IsFull(snapshot.blocks) ==> 2 <= |snapshot.blocks| && snapshot.blocks[1].height <= |stored|
  {
    if IsFull(snapshot.blocks) then snapshot.blocks
    else stored[..snapshot.blocks[1].height] + snapshot.blocks[1..]
  }

  lemma ResidentResultLinked(stored: seq<Block>, header: Option<Header>, snapshot: Snapshot)
    requires Linked(stored) && LedgerBlocks(snapshot.blocks)
    requires ResidentAccepts(stored, header, snapshot)
    ensures Linked(ResidentResult(stored, snapshot))
    ensures ResidentResult(stored, snapshot) != []
  {
    var blocks := snapshot.blocks;
    if IsFull(blocks) {
      FullIsLinked(blocks);
    } else {
      var tail := blocks[1..];
      ContiguousHeights(tail);
      assert ParentHash(stored, tail[0].height) == tail[0].prevHash;
      LinkedSplice(stored, tail[0].height, tail);
    }
  }

  lemma ContiguousHeights(tail: seq<Block>)
    requires Contiguous(tail) && tail != []
    ensures forall i :: 0 <= i < |tail| ==> tail[i].height == tail[0].height + i
  {
    for k := 0 to |tail|
      invariant forall i :: 0 <= i < k ==> tail[i].height == tail[0].height + i
    {
      if k > 0 {
        assert ParentHash(tail, k) == tail[k - 1].hash;
      }
    }
  }

  /** The checks a resident save makes before it writes, in the source's order. */
  function ResidentRefusal(meta: Option<MetaRow>, index: IndexTable, snapshot: Snapshot): Option<string>
    requires !IsFull(snapshot.blocks)
  {
    var blocks := snapshot.blocks;
    if blocks[0].height != 0 then Some("resident chain does not start with genesis")
    else if |blocks| < 2 then Some("pruned resident chain has no recent blocks")
    else if !Contiguous(blocks[1..]) then Some("resident chain tail is not contiguous")
    else if meta.None? then Some("cannot append a resident tail before the full chain is persisted")
    else if meta.value.header != snapshot.header then Some("resident chain header does not match persisted chain")
    else
      var predecessor := if blocks[1].height == 0 then 0 else blocks[1].height - 1;
      if predecessor !in index then Some("persisted chain does not reach the resident tail")
      else if index[predecessor].hash != blocks[1].prevHash then
        Some("resident tail does not extend its persisted predecessor")
      else None
  }

  lemma RefusalIsExact(stored: seq<Block>, meta: Option<MetaRow>, index: IndexTable, n: pos, snapshot: Snapshot)
    requires !IsFull(snapshot.blocks) && LedgerBlocks(snapshot.blocks)
    requires index == IndexOf(stored, n)
    requires stored == [] <==> meta.None?
    ensures ResidentRefusal(meta, index, snapshot).None? <==>
            ResidentAccepts(stored, if meta.Some? then Some(meta.value.header) else None, snapshot)
  {
  }

  class ChainStore {
    const n: pos
    var segments: SegmentTable
    var index: IndexTable
    var meta: Option<MetaRow>
    var verification: Option<VerificationRow>
    /** The chain the tables store. */
    ghost var contents: seq<Block>

    ghost function StoredHeader(): Option<Header>
      reads this
    {
      if meta.Some? then Some(meta.value.header) else None
    }

    /** Segments and metadata describe `contents`; index rows are right but may be missing. */
    ghost predicate Recoverable()
      reads this
    {
      && Linked(contents)
      && segments == SegmentsOf(contents, n)
      && SubIndex(index, contents, n)
      && (contents == [] ==> meta == None)
      && (contents != [] ==> meta.Some? && meta == MetaOf(meta.value.header, contents))
    }

    ghost predicate Valid()
      reads this
    {
      Recoverable() && index == IndexOf(contents, n)
    }

    constructor (n: pos)
      ensures Valid() && contents == [] && this.n == n && verification == None
    {
      this.n := n;
      segments, index, meta, verification, contents := map[], map[], None, None, [];
    }

    /** Which segments a full save may skip because the stored tip is still on the new chain. */
    function FirstSegmentToCheck(snapshot: Snapshot): nat
      reads this
    {
      if && meta.Some?
         && meta.value.header == snapshot.header
         && meta.value.height < |snapshot.blocks|
         && snapshot.blocks[meta.value.height].hash == meta.value.tipHash
      then SegmentId(meta.value.height + 1, n)
      else 0
    }

    lemma SkippedSegmentsShared(snapshot: Snapshot)
      requires Recoverable() && Linked(snapshot.blocks)
      ensures SharesSegments(contents, snapshot.blocks, n, FirstSegmentToCheck(snapshot))
    {
      var first := FirstSegmentToCheck(snapshot);
      if first > 0 {
        SegmentBounds(meta.value.height + 1, n);
        SameHashSamePrefix(contents, snapshot.blocks, meta.value.height, meta.value.height);
        var end := Start(first, n);
        assert contents[..end] == contents[..meta.value.height + 1][..end];
        assert snapshot.blocks[..end] == snapshot.blocks[..meta.value.height + 1][..end];
      }
    }

    /** Save a complete chain. Every segment and index row ends up describing the new chain, whatever
        the old one was and whichever segments the end-hash comparison skipped. */
    method SaveWithVerificationStatus(snapshot: Snapshot, verified: bool) returns (r: Outcome)
      requires Recoverable() && Linked(snapshot.blocks)
      modifies this
      ensures r.Pass? <==> snapshot.blocks != []
      ensures r.Fail? ==> unchanged(this)
      ensures r.Pass? ==> Valid() && contents == snapshot.blocks && meta == MetaOf(snapshot.header, contents)
      ensures r.Pass? && verified ==>
                verification == Some(VerificationRow(contents[|contents| - 1].hash, "iuna-consensus-v3"))
      ensures r.Pass? && !verified ==> verification == None
    {
      var blocks := snapshot.blocks;
      if blocks == [] {
        return Fail("cannot persist empty chain");
      }
      var tip := blocks[|blocks| - 1];
      assert LinkedAt(blocks, |blocks| - 1);
      SkippedSegmentsShared(snapshot);
      var segs, idx := WriteChain(blocks, n, FirstSegmentToCheck(snapshot), segments, index, contents);
      segments, index, contents := segs, idx, blocks;
      meta := Some(MetaRow(tip.height, tip.hash, snapshot.header));
      verification := if verified then Some(VerificationRow(tip.hash, CURRENT_CONSENSUS_RULESET)) else None;
      return Pass;
    }

    /** Save genesis plus a resident tail. It succeeds exactly when the tail extends its stored
        predecessor, and then stores the stored prefix followed by the tail. */
    method SaveVerifiedResident(snapshot: Snapshot) returns (r: Outcome)
      requires Valid() && LedgerBlocks(snapshot.blocks)
      modifies this
      ensures r.Pass? <==> ResidentAccepts(old(contents), old(StoredHeader()), snapshot)
      ensures r.Fail? ==> unchanged(this)
      ensures r.Pass? ==> Valid() && contents == ResidentResult(old(contents), snapshot)
      ensures r.Pass? ==> contents != [] && meta == MetaOf(snapshot.header, contents)
      ensures r.Pass? ==> verification == Some(VerificationRow(contents[|contents| - 1].hash, "iuna-consensus-v3"))
    {
      var blocks := snapshot.blocks;
      if IsFull(blocks) {
        FullIsLinked(blocks);
        r := SaveWithVerificationStatus(snapshot, true);
        return;
      }
      var refusal := ResidentRefusal(meta, index, snapshot);
      RefusalIsExact(contents, meta, index, n, snapshot);
      if refusal.Some? {
        return Fail(refusal.value);
      }
      var tail, tailStart := blocks[1..], blocks[1].height;
      ResidentResultLinked(contents, StoredHeader(), snapshot);
      ghost var chain := contents[..tailStart] + tail;
      var segs, idx := WriteTail(tail, tailStart, n, segments, index, contents, chain);
      var tip := tail[|tail| - 1];
      segments, index, contents := segs, idx, chain;
      assert LinkedAt(contents, |contents| - 1);
      meta := Some(meta.value.(height := tip.height, tipHash := tip.hash));
      verification := Some(VerificationRow(tip.hash, CURRENT_CONSENSUS_RULESET));
      return Pass;
    }

    method ClearChain()
      modifies this
      ensures Valid() && contents == [] && verification == None
    {
      segments, index, meta, verification, contents := map[], map[], None, None, [];
    }

    /** Opening a database re-derives a missing index from the segments; a complete one is left alone. */
    method EnsureChainBlockIndex()
      requires Recoverable()
      modifies this`index
      ensures Valid()
      ensures old(Valid()) ==> index == old(index)
    {
      CompleteByCount(index, contents, n);
      if meta.None? {
        assert index == map[];
      } else if |index| != meta.value.height + 1 {
        index := IndexFromSegments(n, segments, contents);
      }
    }
  }
}
