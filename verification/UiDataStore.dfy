/** Projecting a live ledger whose older blocks may have been pruned from memory: continue after the
    projected tip, or rewind to the newest shared block, and stream what is missing from the store. */
module UiDataStore {
  import opened Results
  import opened Chain
  import opened Utxo
  import opened UiRows
  import opened Leaderboards
  import opened UiOutputs
  import opened UiTables
  import opened NodeLifecycle
  import ChainTables
  import ChainReads
  import Store = ChainStore
  import Protocol = NodeProtocol
  import Tail = ChainStoreTail
  import Metrics
  import History = WalletHistory

  const CHAIN_SEGMENT_BLOCKS: nat := 256

  datatype Start = Start(from: nat, previousHash: Hash, rewind: Option<nat>)

  /** A pruned ledger beside a store, which may hold any chain. */
  ghost predicate PrunedOver(window: seq<Block>, store: Store.ChainStore, live: seq<Block>, tailStart: nat)
    reads store
  {
    store.Valid() && Linked(live) && 1 < tailStart < |live| && window == Window(live, tailStart)
  }

  /** What the node takes for the live hash at a height: memory answers for genesis and the window, the
      store for the heights between. */
  ghost function Seen(stored: seq<Block>, live: seq<Block>, tailStart: nat, h: nat): Option<Hash> {
    if 0 < h < tailStart then HashAt(stored, h) else HashAt(live, h)
  }

  ghost function HashAt(chain: seq<Block>, h: nat): Option<Hash> {
    if h < |chain| then Some(chain[h].hash) else None
  }

  /** The node takes the projected block at a height for a live one. */
  ghost predicate SeenCommon(projected: seq<Block>, stored: seq<Block>, live: seq<Block>, tailStart: nat, h: nat) {
    h < |projected| && Seen(stored, live, tailStart, h) == Some(projected[h].hash)
  }

  lemma StoreMatches(stored: seq<Block>, live: seq<Block>, tailStart: nat, h: nat)
    requires Protocol.AgreesBelow(stored, live, tailStart) && 1 < tailStart && h < tailStart
    ensures h < |stored| && h < |live| && stored[h] == live[h]
  {
    assert stored[h] == stored[..tailStart][h] && live[h] == live[..tailStart][h];
  }

  /** In the window, and everywhere if the store agrees below it, what the node sees is the live chain. */
  lemma SeenIsLive(projected: seq<Block>, stored: seq<Block>, live: seq<Block>, tailStart: nat, h: nat)
    requires 1 < tailStart && (tailStart <= h || Protocol.AgreesBelow(stored, live, tailStart))
    ensures SeenCommon(projected, stored, live, tailStart, h) <==> CommonAt(projected, live, h)
  {
    if h < tailStart {
      StoreMatches(stored, live, tailStart, h);
    }
  }

  lemma WindowCarries(live: seq<Block>, tailStart: nat, h: nat)
    requires 1 < tailStart < |live| && h < |live| && (h == 0 || tailStart <= h)
    ensures live[h] in Window(live, tailStart)
  {
    var window := Window(live, tailStart);
    assert window[if h == 0 then 0 else h - tailStart + 1] == live[h];
  }

  /** The height of a block: looked up in memory, else in the store below the window. */
  method LiveHeight(window: seq<Block>, store: Store.ChainStore, hash: Hash, ghost live: seq<Block>,
                    ghost tailStart: nat)
    returns (r: Option<nat>)
    requires PrunedOver(window, store, live, tailStart)
    ensures r.Some? ==>
              || Seen(store.contents, live, tailStart, r.value) == Some(hash)
              || (r.value == 0 && HashAt(store.contents, 0) == Some(hash))
    ensures r.None? ==> forall h: nat :: Seen(store.contents, live, tailStart, h) != Some(hash)
  {
    var resident := ChainReads.FindHash(window, hash);
    if resident.Some? {
      ResidentHeight(live, tailStart, resident.value);
      return Some(resident.value.height);
    }
    var stored := ChainReads.BlockByHash(store, hash);
    assert LinkedAt(live, tailStart);
    if stored.Some? && stored.value.height < window[1].height {
      HashAtOneHeight(store.contents, stored.value);
      return Some(stored.value.height);
    }
    if stored.Some? {
      HashAtOneHeight(store.contents, stored.value);
    }
    NotSeen(window, store.contents, live, tailStart, hash);
    return None;
  }

  lemma ResidentHeight(live: seq<Block>, tailStart: nat, block: Block)
    requires Linked(live) && 1 < tailStart < |live| && block in Window(live, tailStart)
    ensures block.height < |live| && live[block.height] == block
    ensures block.height == 0 || tailStart <= block.height
  {
    var window := Window(live, tailStart);
    var i :| 0 <= i < |window| && window[i] == block;
    var h := if i == 0 then 0 else tailStart + i - 1;
    assert LinkedAt(live, h);
  }

  /** A hash found neither in memory nor, below the window, in the store is seen nowhere. */
  lemma NotSeen(window: seq<Block>, stored: seq<Block>, live: seq<Block>, tailStart: nat, hash: Hash)
    requires 1 < tailStart < |live| && window == Window(live, tailStart)
    requires forall k :: 0 <= k < |window| ==> window[k].hash != hash
    requires forall h :: 0 <= h < |stored| && stored[h].hash == hash ==> tailStart <= h
    ensures forall h: nat :: Seen(stored, live, tailStart, h) != Some(hash)
  {
    forall h: nat
      ensures Seen(stored, live, tailStart, h) != Some(hash)
    {
      if (h == 0 || tailStart <= h) && h < |live| {
        WindowCarries(live, tailStart, h);
      }
    }
  }

  lemma HashAtOneHeight(chain: seq<Block>, block: Block)
    requires Linked(chain) && block in chain
    ensures block.height < |chain| && chain[block.height] == block
    ensures forall h :: 0 <= h < |chain| && chain[h].hash == block.hash ==> h == block.height
  {
    var i :| 0 <= i < |chain| && chain[i] == block;
    assert LinkedAt(chain, i);
    forall h | 0 <= h < |chain| && chain[h].hash == block.hash
      ensures h == block.height
    {
      SameHashSamePrefix(chain, chain, h, i);
    }
  }

  // ----- the fork search

  predicate Newest(heights: set<nat>, h: nat) {
    h in heights && forall k :: k in heights ==> k <= h
  }

  lemma {:induction false} NewestExists(heights: set<nat>)
    requires heights != {}
    ensures exists h :: Newest(heights, h)
  {
    var h :| h in heights;
    var rest := heights - {h};
    assert heights == rest + {h};
    if rest == {} {
      assert Newest(heights, h);
    } else {
      NewestExists(rest);
      var m :| Newest(rest, m);
      assert Newest(heights, if m < h then h else m);
    }
  }

  /** The live hash at a height: from memory at genesis and in the window, else from the blocks read
      from the store. */
  function LiveHashAt(window: seq<Block>, persisted: map<nat, Block>, tailHeight: nat, h: nat): Option<Hash> {
    if h == 0 || h >= tailHeight then
      var resident := ResidentBlockAt(window, h);
      if resident.Some? then Some(resident.value.hash) else None
    else if h in persisted then Some(persisted[h].hash) else None
  }

  lemma LiveHashIsSeen(live: seq<Block>, tailStart: nat, stored: seq<Block>, persisted: map<nat, Block>, h: nat)
    requires Linked(live) && 1 < tailStart < |live|
    requires 0 < h < tailStart ==> (h in persisted <==> h < |stored|)
    requires 0 < h < tailStart && h < |stored| ==> persisted[h] == stored[h]
    ensures LiveHashAt(Window(live, tailStart), persisted, tailStart, h) == Seen(stored, live, tailStart, h)
  {
    if h == 0 || h >= tailStart {
      ResidentBlockIsLive(live, tailStart, h);
    }
  }

  /** Walk the projected blocks from the newest down to the first one that is still live. */
  method NewestShared(recent: RecentTable, window: seq<Block>, persisted: map<nat, Block>, tailHeight: nat)
    returns (fork: Option<nat>)
    ensures fork.Some? ==> fork.value in recent && Shared(recent, window, persisted, tailHeight, fork.value)
    ensures fork.Some? ==> forall h: nat :: h in recent && fork.value < h ==>
            !Shared(recent, window, persisted, tailHeight, h)
    ensures fork.None? ==> forall h: nat :: h in recent ==> !Shared(recent, window, persisted, tailHeight, h)
  {
    var remaining := recent.Keys;
    while remaining != {}
      invariant remaining <= recent.Keys
      invariant forall h: nat :: h in recent && h !in remaining ==> !Shared(recent, window, persisted, tailHeight, h)
    {
      NewestExists(remaining);
      var h :| h in remaining && Newest(remaining, h);
      if Shared(recent, window, persisted, tailHeight, h) {
        return Some(h);
      }
      remaining := remaining - {h};
    }
    return None;
  }

  predicate Shared(recent: RecentTable, window: seq<Block>, persisted: map<nat, Block>, tailHeight: nat, h: nat)
    requires h in recent
  {
    LiveHashAt(window, persisted, tailHeight, h) == Some(recent[h])
  }

  /** The newest projected block that the node takes for a live one, if the projected-block table still
      lists it. */
  method FindFork(recent: RecentTable, window: seq<Block>, store: Store.ChainStore,
                  ghost projected: seq<Block>, ghost oldest: nat, ghost live: seq<Block>, ghost tailStart: nat)
    returns (fork: Option<nat>)
    requires PrunedOver(window, store, live, tailStart) && RecentFrom(recent, projected, oldest)
    ensures fork.Some? ==> oldest <= fork.value && SeenCommon(projected, store.contents, live, tailStart, fork.value)
    ensures fork.Some? ==> forall h: nat :: fork.value < h ==>
            !SeenCommon(projected, store.contents, live, tailStart, h)
    ensures fork.None? ==> forall h: nat :: oldest <= h ==> !SeenCommon(projected, store.contents, live, tailStart, h)
  {
    assert LinkedAt(live, tailStart);
    var tailHeight := window[1].height;
    var persisted := ChainReads.BlocksAtHeights(store, set h | h in recent && 0 < h < tailHeight);
    fork := NewestShared(recent, window, persisted, tailHeight);
    forall h: nat | h in recent
      ensures Shared(recent, window, persisted, tailHeight, h) <==>
              SeenCommon(projected, store.contents, live, tailStart, h)
    {
      LiveHashIsSeen(live, tailStart, store.contents, persisted, h);
    }
  }

  // ----- where to continue

  ghost function TipOf(chain: seq<Block>): Option<Hash> {
    if chain == [] then None else Some(chain[|chain| - 1].hash)
  }

  /** The projected-block table lists a live block, and what lies between that block and the window
      can be had: the block is in the window itself, or the store agrees with the live chain below it. */
  ghost predicate Continues(projected: seq<Block>, oldest: nat, stored: seq<Block>, live: seq<Block>, tailStart: nat) {
    exists h: nat :: oldest <= h && CommonAt(projected, live, h)
                     && (tailStart <= h || Protocol.AgreesBelow(stored, live, tailStart))
  }

  /** A projected block to continue after: on the live chain if it lies in the window, on the stored
      one if it is the last block below. */
  ghost predicate Placed(start: Start, projected: seq<Block>, oldest: nat, stored: seq<Block>, live: seq<Block>,
                         tailStart: nat) {
    && oldest < start.from <= |projected| && start.previousHash == projected[start.from - 1].hash
    && (if start.rewind.None? then start.from == |projected| else start.rewind.value == start.from - 1)
    && (tailStart < start.from ==> CommonAt(projected, live, start.from - 1))
    && (start.from == tailStart ==> CommonAt(projected, stored, start.from - 1))
  }

  /** The last common block, in the window or over a store that agrees below it. */
  ghost predicate AfterFork(start: Start, projected: seq<Block>, stored: seq<Block>, live: seq<Block>, tailStart: nat) {
    && 0 < start.from && CommonAt(projected, live, start.from - 1)
    && (forall h: nat :: start.from <= h ==> !CommonAt(projected, live, h))
    && (tailStart < start.from || Protocol.AgreesBelow(stored, live, tailStart))
  }

  /** The projected block at a height was found in memory or in the store. */
  ghost predicate Found(projected: seq<Block>, stored: seq<Block>, live: seq<Block>, tailStart: nat, h: nat) {
    || SeenCommon(projected, stored, live, tailStart, h)
    || (h == 0 && projected != [] && HashAt(stored, 0) == Some(projected[0].hash))
  }

  /** Where the projected tip is seen, there it stands in the projected chain. */
  lemma TipSeenAt(projected: seq<Block>, stored: seq<Block>, live: seq<Block>, tailStart: nat, h: nat)
    requires Linked(projected) && Linked(stored) && Linked(live) && projected != []
    requires var tip := projected[|projected| - 1].hash;
             Seen(stored, live, tailStart, h) == Some(tip) || (h == 0 && HashAt(stored, 0) == Some(tip))
    ensures h == |projected| - 1
  {
    if HashAt(stored, h) == Some(projected[|projected| - 1].hash) {
      SameHashSamePrefix(stored, projected, h, |projected| - 1);
    } else {
      SameHashSamePrefix(live, projected, h, |projected| - 1);
    }
  }

  /** If the projection can be continued at all, the last block found is the last common one. */
  lemma ForkIsLast(start: Start, projected: seq<Block>, oldest: nat, stored: seq<Block>, live: seq<Block>,
                   tailStart: nat)
    requires 1 < tailStart && Continues(projected, oldest, stored, live, tailStart) && 0 < start.from
    requires Found(projected, stored, live, tailStart, start.from - 1)
    requires forall h: nat :: start.from <= h ==> !SeenCommon(projected, stored, live, tailStart, h)
    ensures AfterFork(start, projected, stored, live, tailStart)
  {
    var agrees := Protocol.AgreesBelow(stored, live, tailStart);
    var h: nat :| oldest <= h && CommonAt(projected, live, h) && (tailStart <= h || agrees);
    SeenIsLive(projected, stored, live, tailStart, h);
    forall k: nat | tailStart <= k || agrees
      ensures SeenCommon(projected, stored, live, tailStart, k) <==> CommonAt(projected, live, k)
    {
      SeenIsLive(projected, stored, live, tailStart, k);
    }
    if agrees {
      StoreMatches(stored, live, tailStart, 0);
    }
  }

  lemma PlacedAt(start: Start, h: nat, projected: seq<Block>, oldest: nat, stored: seq<Block>, live: seq<Block>,
                 tailStart: nat)
    requires 1 < tailStart && oldest <= h < |projected| && start.from == h + 1
    requires start.previousHash == projected[h].hash
    requires Found(projected, stored, live, tailStart, h)
    requires forall k: nat :: h < k ==> !SeenCommon(projected, stored, live, tailStart, k)
    requires if start.rewind.None? then h + 1 == |projected| else start.rewind.value == h
    ensures Placed(start, projected, oldest, stored, live, tailStart)
    ensures Continues(projected, oldest, stored, live, tailStart) ==>
            AfterFork(start, projected, stored, live, tailStart)
  {
    if Continues(projected, oldest, stored, live, tailStart) {
      ForkIsLast(start, projected, oldest, stored, live, tailStart);
    }
  }

  /** Where to continue. It finds the last common block whenever the projection can be continued from it. */
  method PrunedProjectionStart(tip: Option<Hash>, recent: RecentTable, window: seq<Block>, store: Store.ChainStore,
                               ghost projected: seq<Block>, ghost oldest: nat, ghost live: seq<Block>,
                               ghost tailStart: nat)
    returns (r: Result<Start>)
    requires PrunedOver(window, store, live, tailStart) && RecentFrom(recent, projected, oldest)
    requires Linked(projected) && tip == TipOf(projected)
    ensures r.Ok? ==> Placed(r.value, projected, oldest, store.contents, live, tailStart)
    ensures Continues(projected, oldest, store.contents, live, tailStart) ==>
              r.Ok? && AfterFork(r.value, projected, store.contents, live, tailStart)
  {
    if tip.None? {
      return Err("no tip to continue from");
    }
    ghost var stored := store.contents;
    var height := LiveHeight(window, store, tip.value, live, tailStart);
    if height.Some? {
      TipSeenAt(projected, stored, live, tailStart, height.value);
      var start := Start(height.value + 1, tip.value, None);
      PlacedAt(start, height.value, projected, oldest, stored, live, tailStart);
      return Ok(start);
    }
    var fork := FindFork(recent, window, store, projected, oldest, live, tailStart);
    if fork.None? {
      if Continues(projected, oldest, stored, live, tailStart) {
        CommonIsSeen(projected, oldest, stored, live, tailStart);
      }
      return Err("no shared block");
    }
    var start := Start(fork.value + 1, recent[fork.value], Some(fork.value));
    PlacedAt(start, fork.value, projected, oldest, stored, live, tailStart);
    return Ok(start);
  }

  lemma CommonIsSeen(projected: seq<Block>, oldest: nat, stored: seq<Block>, live: seq<Block>, tailStart: nat)
    requires 1 < tailStart && Continues(projected, oldest, stored, live, tailStart)
    ensures exists h: nat :: oldest <= h && SeenCommon(projected, stored, live, tailStart, h)
  {
    var h: nat :| oldest <= h && CommonAt(projected, live, h)
        && (tailStart <= h || Protocol.AgreesBelow(stored, live, tailStart));
    SeenIsLive(projected, stored, live, tailStart, h);
  }

  // ----- appending blocks that extend the projected chain

  /** The tables are those of `done`, which ends in `previousHash`; balances are not in yet. Of the blocks
      from `first` on the newest are listed. */
  ghost predicate Reached(t: Tables, previousHash: Hash, done: seq<Block>, src: Source, named: Naming, first: nat) {
    && done != [] && Linked(done) && previousHash == done[|done| - 1].hash
    && Listed(t, done, src, named, first)
  }

  ghost predicate Listed(t: Tables, done: seq<Block>, src: Source, named: Naming, first: nat) {
    exists oldest: nat :: Holds(t, done, map[], src, named, oldest) && Keeps(oldest, first, |done|)
  }

  function ParentAfter(previousHash: Hash, blocks: seq<Block>, i: nat): Hash
    requires i <= |blocks|
  {
    if i == 0 then previousHash else blocks[i - 1].hash
  }

  /** Every block names the one before it as its parent, the first one `previousHash`. */
  ghost predicate Extends(previousHash: Hash, blocks: seq<Block>) {
    forall i {:trigger ParentAfter(previousHash, blocks, i)} :: 0 <= i < |blocks| ==>
      blocks[i].prevHash == ParentAfter(previousHash, blocks, i)
  }

  /** Sealed blocks of the heights that follow `done`. */
  ghost predicate Follows(done: seq<Block>, blocks: seq<Block>) {
    forall i :: 0 <= i < |blocks| ==> blocks[i].height == |done| + i && Sealed(blocks[i])
  }

  /** Sealed blocks of the right heights are linked exactly if each names its parent. */
  lemma ExtendsIsLinked(previousHash: Hash, done: seq<Block>, blocks: seq<Block>, longer: seq<Block>)
    requires done != [] && Linked(done) && previousHash == done[|done| - 1].hash
    requires Follows(done, blocks) && longer == done + blocks
    ensures Extends(previousHash, blocks) <==> Linked(longer)
    ensures ParentAfter(previousHash, blocks, |blocks|) == longer[|longer| - 1].hash
  {
    forall i | 0 <= i < |blocks|
      ensures ParentAfter(previousHash, blocks, i) == ParentHash(longer, |done| + i)
      ensures longer[|done| + i] == blocks[i]
    {
    }
    if Extends(previousHash, blocks) {
      forall i | 0 <= i < |longer|
        ensures LinkedAt(longer, i)
      {
        if i < |done| {
          assert LinkedAt(done, i) && ParentHash(longer, i) == ParentHash(done, i);
        } else {
          assert blocks[i - |done|].prevHash == ParentAfter(previousHash, blocks, i - |done|);
        }
      }
    }
    if Linked(longer) {
      forall i | 0 <= i < |blocks|
        ensures blocks[i].prevHash == ParentAfter(previousHash, blocks, i)
      {
        assert LinkedAt(longer, |done| + i);
      }
    }
  }

  /** Check every parent hash of a run of blocks; the result is the last hash if all fit. */
  method CheckLinks(previousHash: Hash, blocks: seq<Block>, ghost done: seq<Block>, ghost longer: seq<Block>)
    returns (r: Option<Hash>)
    requires done != [] && Linked(done) && previousHash == done[|done| - 1].hash
    requires Follows(done, blocks) && longer == done + blocks
    ensures r == if Linked(longer) then Some(longer[|longer| - 1].hash) else None
  {
    ExtendsIsLinked(previousHash, done, blocks, longer);
    var previous := previousHash;
    for i := 0 to |blocks|
      invariant previous == ParentAfter(previousHash, blocks, i)
      invariant forall k {:trigger ParentAfter(previousHash, blocks, k)} :: 0 <= k < i ==>
                  blocks[k].prevHash == ParentAfter(previousHash, blocks, k)
    {
      if blocks[i].prevHash != previous {
        assert blocks[i].prevHash != ParentAfter(previousHash, blocks, i);
        return None;
      }
      previous := blocks[i].hash;
    }
    return Some(previous);
  }

  /** Check that a run of blocks extends the projected chain, then append it. */
  method AppendLinked(t: Tables, previousHash: Hash, blocks: seq<Block>, src: Source,
                      ghost done: seq<Block>, ghost longer: seq<Block>, ghost named: Naming, ghost first: nat)
    returns (r: Result<Tables>, last: Hash)
    requires Reached(t, previousHash, done, src, named, first) && longer == done + blocks && Follows(done, blocks)
    ensures r.Ok? <==> Linked(longer) && Projectable(longer, src)
    ensures r.Ok? ==> Reached(r.value, last, longer, src, named, first)
  {
    var checked := CheckLinks(previousHash, blocks, done, longer);
    if checked.None? {
      return Err("blocks do not extend the chain"), previousHash;
    }
    last := checked.value;
    r := AppendListed(t, blocks, src, done, longer, named, first);
  }

  method AppendListed(t: Tables, blocks: seq<Block>, src: Source, ghost done: seq<Block>, ghost longer: seq<Block>,
                      ghost named: Naming, ghost first: nat)
    returns (r: Result<Tables>)
    requires Listed(t, done, src, named, first) && done != [] && Linked(longer) && longer == done + blocks
    ensures r.Ok? <==> Projectable(longer, src)
    ensures r.Ok? ==> Listed(r.value, longer, src, named, first)
  {
    ghost var oldest: nat :| Holds(t, done, map[], src, named, oldest) && Keeps(oldest, first, |done|);
    r, oldest := AppendBlocks(t, blocks, src, done, longer, named, oldest);
  }

  lemma ProjectablePrefix(live: seq<Block>, done: seq<Block>, src: Source)
    requires done <= live && Projectable(live, src)
    ensures Projectable(done, src)
  {
    var rest := live[|done|..];
    assert live == done + rest;
    ScratchAppend(src.rows, done, rest);
    ScratchAppend(src.rowsV2, done, rest);
  }

  /** The last block of `done` is stored. */
  ghost predicate EndsOn(done: seq<Block>, stored: seq<Block>) {
    done != [] && CommonAt(done, stored, |done| - 1)
  }

  lemma StoredRun(stored: seq<Block>, done: seq<Block>, count: nat, blocks: seq<Block>)
    requires Linked(stored) && 0 < count && blocks == ChainReads.Slice(stored, |done|, count)
    ensures |blocks| == count <==> |done| + count <= |stored|
    ensures Follows(done, blocks) && forall i :: 0 <= i < |blocks| ==> blocks[i] == stored[|done| + i]
    ensures |blocks| == count ==> EndsOn(done + blocks, stored)
  {
    forall i | 0 <= i < |blocks|
      ensures blocks[i].height == |done| + i && Sealed(blocks[i]) && blocks[i] == stored[|done| + i]
    {
      assert LinkedAt(stored, |done| + i);
    }
    if |blocks| == count {
      assert (done + blocks)[|done| + count - 1] == blocks[count - 1];
    }
  }

  /** Below the window, a store that agrees delivers the live blocks. */
  lemma StoredRunIsLive(stored: seq<Block>, live: seq<Block>, tailStart: nat, done: seq<Block>, blocks: seq<Block>)
    requires Protocol.AgreesBelow(stored, live, tailStart) && 1 < tailStart && Linked(live) && done <= live
    requires |done| + |blocks| <= tailStart && |done| + |blocks| <= |stored|
    requires forall i :: 0 <= i < |blocks| ==> blocks[i] == stored[|done| + i]
    ensures done + blocks <= live && Linked(done + blocks)
  {
    forall i | 0 <= i < |blocks|
      ensures |done| + i < |live| && blocks[i] == live[|done| + i]
    {
      StoreMatches(stored, live, tailStart, |done| + i);
    }
    var longer := done + blocks;
    assert longer == live[..|longer|];
    LinkedPrefix(live, |longer|);
  }

  method HeightsRun(blocks: seq<Block>, next: nat) returns (ok: bool)
    ensures ok <==> forall i :: 0 <= i < |blocks| ==> blocks[i].height == next + i
  {
    for i := 0 to |blocks|
      invariant forall k :: 0 <= k < i ==> blocks[k].height == next + k
    {
      if blocks[i].height != next + i {
        return false;
      }
    }
    return true;
  }

  /** The store agrees below the window, and what is projected so far is live. */
  ghost predicate Along(done: seq<Block>, stored: seq<Block>, live: seq<Block>, tailStart: nat) {
    Protocol.AgreesBelow(stored, live, tailStart) && done <= live
  }

  /** Read one segment's worth of blocks below the window and check that none is missing. */
  method ReadRun(next: nat, count: nat, store: Store.ChainStore, ghost done: seq<Block>, ghost live: seq<Block>,
                 ghost tailStart: nat)
    returns (r: Result<seq<Block>>, ghost longer: seq<Block>)
    requires store.Valid() && Linked(live) && 1 < tailStart && next == |done| && next + count <= tailStart && 0 < count
    ensures r.Ok? ==> longer == done + r.value && |r.value| == count
    ensures r.Ok? ==> Follows(done, r.value) && EndsOn(longer, store.contents)
    ensures Along(done, store.contents, live, tailStart) ==>
              r.Ok? && Along(longer, store.contents, live, tailStart) && Linked(longer)
  {
    longer := done;
    var read := ChainReads.BlocksFrom(store, next, count);
    if read.Err? {
      return Err(read.reason), done;
    }
    var blocks := read.value;
    StoredRun(store.contents, done, count, blocks);
    var inOrder := HeightsRun(blocks, next);
    if |blocks| != count || !inOrder {
      return Err("missing blocks"), done;
    }
    if Along(done, store.contents, live, tailStart) {
      StoredRunIsLive(store.contents, live, tailStart, done, blocks);
    }
    return Ok(blocks), done + blocks;
  }

  /** Read one segment's worth of blocks, check that they extend the projected chain, and append them. */
  method StreamSegment(t: Tables, previousHash: Hash, next: nat, count: nat, store: Store.ChainStore, src: Source,
                       ghost kept: seq<Block>, ghost done: seq<Block>, ghost live: seq<Block>,
                       ghost tailStart: nat, ghost named: Naming, ghost first: nat)
    returns (r: Result<Tables>, last: Hash, ghost longer: seq<Block>)
    requires store.Valid() && Linked(live) && 1 < tailStart && next + count <= tailStart && 0 < count
    requires Reached(t, previousHash, done, src, named, first) && next == |done| && kept <= done
    ensures r.Ok? ==> Reached(r.value, last, longer, src, named, first)
    ensures r.Ok? ==> kept <= longer && |longer| == next + count && EndsOn(longer, store.contents)
    ensures Along(done, store.contents, live, tailStart) ==>
              if r.Ok? then Along(longer, store.contents, live, tailStart) else !Projectable(live, src)
  {
    var blocks;
    blocks, longer := ReadRun(next, count, store, done, live, tailStart);
    if blocks.Err? {
      return Err(blocks.reason), previousHash, done;
    }
    PrefixOn(kept, done, longer);
    r, last := AppendLinked(t, previousHash, blocks.value, src, done, longer, named, first);
    if r.Err? && longer <= live && Projectable(live, src) {
      ProjectablePrefix(live, longer, src);
    }
  }

  lemma PrefixOn(a: seq<Block>, b: seq<Block>, c: seq<Block>)
    requires a <= b && b <= c
    ensures a <= c
  {
  }

  /** Stream the blocks below the resident window from the store. */
  method StreamFromStore(t: Tables, from: nat, previousHash: Hash, tailHeight: nat, store: Store.ChainStore,
                         src: Source, ghost kept: seq<Block>, ghost live: seq<Block>, ghost named: Naming,
                         ghost first: nat)
    returns (r: Result<Tables>, last: Hash, ghost done: seq<Block>)
    requires store.Valid() && Linked(live) && 1 < tailHeight
    requires Reached(t, previousHash, kept, src, named, first) && from == |kept|
    requires from == tailHeight ==> EndsOn(kept, store.contents)
    ensures r.Ok? ==> Reached(r.value, last, done, src, named, first)
    ensures r.Ok? ==> kept <= done && |done| == Max(from, tailHeight)
    ensures r.Ok? && from <= tailHeight ==> EndsOn(done, store.contents)
    ensures tailHeight <= from ==> r.Ok?
    ensures Along(kept, store.contents, live, tailHeight) ==>
              if r.Ok? then Along(done, store.contents, live, tailHeight) else !Projectable(live, src)
  {
    var next, tables := from, t;
    last, done := previousHash, kept;
    while next < tailHeight
      invariant from <= next && (next <= tailHeight || next == from)
      invariant kept <= done && |done| == next
      invariant Reached(tables, last, done, src, named, first)
      invariant from < next || from == tailHeight ==> EndsOn(done, store.contents)
      invariant Along(kept, store.contents, live, tailHeight) ==> Along(done, store.contents, live, tailHeight)
    {
      var count := Min(tailHeight - next, CHAIN_SEGMENT_BLOCKS);
      r, last, done := StreamSegment(tables, last, next, count, store, src, kept, done, live, tailHeight, named, first);
      if r.Err? {
        return;
      }
      next, tables := next + count, r.value;
    }
    r := Ok(tables);
  }

  /** Reload the tables without balances and rewind them to the fork. */
  method Reopen(t: Tables, start: Start, ghost projected: seq<Block>, ghost utxos: Utxos,
                ghost src: Source, ghost named: Naming, ghost oldest: nat)
    returns (r: Tables, ghost kept: seq<Block>)
    requires Linked(projected) && Tagged(src.rows) && Tagged(src.rowsV2) && BlocksNamed(projected, src.created, named)
    requires Holds(t, projected, utxos, src, named, oldest) && oldest < start.from <= |projected|
    requires if start.rewind.None? then start.from == |projected| else start.rewind.value == start.from - 1
    ensures kept == projected[..start.from] && Holds(r, kept, map[], src, named, oldest)
  {
    ActivityOnly(t.boards, t.wallet, utxos);
    r, kept := t.(boards := Activity(t.boards)), projected[..start.from];
    if start.rewind.Some? {
      r := Rewind(r, start.rewind.value, projected, kept, src, named, oldest);
    } else {
      assert kept == projected;
    }
  }

  lemma WindowTail(live: seq<Block>, tailStart: nat, window: seq<Block>)
    requires 1 < tailStart < |live| && window == Window(live, tailStart)
    ensures window[1..] == live[tailStart..] && window[|window| - 1] == live[|live| - 1]
  {
  }

  lemma WholeWindow(live: seq<Block>)
    requires live != []
    ensures Window(live, 1) == live
  {
  }

  method MissingResident(window: seq<Block>, from: nat, ghost live: seq<Block>, ghost tailStart: nat, ghost k: nat)
    returns (resident: seq<Block>)
    requires Linked(live) && 1 < tailStart < |live| && window == Window(live, tailStart) && 0 < from <= |live|
    requires k == Max(from, tailStart)
    ensures resident == live[k..] && forall i :: 0 <= i < |resident| ==>
            resident[i].height == k + i && Sealed(resident[i])
  {
    var tip := window[|window| - 1];
    assert LinkedAt(live, |live| - 1);
    WindowTail(live, tailStart, window);
    Tail.FilterTail(live, tailStart, from, k);
    resident := Tail.FilterHeights(window[1..], from, tip.height + 1);
    forall i | 0 <= i < |resident|
      ensures resident[i].height == k + i && Sealed(resident[i])
    {
      assert LinkedAt(live, k + i);
    }
  }

  /** The link check at the window's edge decides whether what was appended below it is the live chain. */
  lemma EdgeDecides(done: seq<Block>, live: seq<Block>, resident: seq<Block>)
    requires Linked(done) && Linked(live) && 0 < |done| <= |live| && resident == live[|done|..]
    requires |done| == |live| ==> done <= live
    ensures Linked(done + resident) <==> done <= live
    ensures done <= live ==> done + resident == live
  {
    var longer, k := done + resident, |done|;
    if Linked(longer) && k < |live| {
      assert LinkedAt(longer, k) && LinkedAt(live, k);
      assert longer[k] == live[k];
      SameHashSamePrefix(done, live, k - 1, k - 1);
      assert done[..k] == done;
    }
    if done <= live {
      assert longer == live;
    }
  }

  /** Append the resident blocks the tables do not have yet. */
  method AppendResident(t: Tables, previousHash: Hash, from: nat, window: seq<Block>, src: Source,
                        ghost done: seq<Block>, ghost live: seq<Block>, ghost tailStart: nat, ghost named: Naming,
                        ghost first: nat)
    returns (r: Result<Tables>, ghost oldest: nat)
    requires Linked(live) && 1 < tailStart < |live| && window == Window(live, tailStart) && 0 < from <= |live|
    requires Reached(t, previousHash, done, src, named, first) && |done| == Max(from, tailStart)
    requires tailStart < from ==> done <= live
    ensures r.Ok? <==> done <= live && Projectable(live, src)
    ensures r.Ok? ==> Holds(r.value, live, map[], src, named, oldest) && Keeps(oldest, first, |live|)
  {
    oldest := 0;
    var resident := MissingResident(window, from, live, tailStart, |done|);
    EdgeDecides(done, live, resident);
    var last; ghost var whole := done + resident;
    r, last := AppendLinked(t, previousHash, resident, src, done, whole, named, first);
    if r.Ok? {
      oldest :| Holds(r.value, whole, map[], src, named, oldest) && Keeps(oldest, first, |whole|);
    }
  }

  /** A chain that ends below the window in a stored and in a live block shows that the store agrees. */
  lemma StoreVouched(stored: seq<Block>, done: seq<Block>, live: seq<Block>, tailStart: nat)
    requires Linked(stored) && Linked(live) && 1 < tailStart == |done| < |live| && done <= live
    requires EndsOn(done, stored)
    ensures Protocol.AgreesBelow(stored, live, tailStart)
  {
    SameHashSamePrefix(stored, live, tailStart - 1, tailStart - 1);
  }

  lemma KeptIsLive(projected: seq<Block>, live: seq<Block>, k: nat)
    requires Linked(projected) && Linked(live) && 0 < k <= |projected|
    ensures projected[..k] <= live <==> CommonAt(projected, live, k - 1)
  {
    if CommonAt(projected, live, k - 1) {
      SameHashSamePrefix(projected, live, k - 1, k - 1);
    }
    if projected[..k] <= live {
      assert projected[..k][k - 1] == live[k - 1];
    }
  }

  /** Stream what lies below the window, then append the resident blocks: it goes through exactly from a
      live block that is in the window, or below it over a store that agrees. */
  method AppendMissing(t: Tables, start: Start, window: seq<Block>, tailHeight: nat, store: Store.ChainStore,
                       src: Source, ghost kept: seq<Block>, ghost live: seq<Block>, ghost named: Naming,
                       ghost first: nat)
    returns (r: Result<Tables>, ghost oldest: nat)
    requires PrunedOver(window, store, live, tailHeight) && start.from <= |live|
    requires Reached(t, start.previousHash, kept, src, named, first) && start.from == |kept|
    requires start.from == tailHeight ==> EndsOn(kept, store.contents)
    requires tailHeight < start.from ==> kept <= live
    ensures r.Ok? <==>
              && Projectable(live, src) && kept <= live
              && (tailHeight < start.from || Protocol.AgreesBelow(store.contents, live, tailHeight))
    ensures r.Ok? ==> Holds(r.value, live, map[], src, named, oldest) && Keeps(oldest, first, |live|)
  {
    oldest := 0;
    var last; ghost var done;
    r, last, done :=
      StreamFromStore(t, start.from, start.previousHash, tailHeight, store, src, kept, live, named, first);
    if r.Err? {
      return;
    }
    if tailHeight < start.from {
      assert done == kept;
    }
    r, oldest := AppendResident(r.value, last, start.from, window, src, done, live, tailHeight, named, first);
    if r.Ok? && start.from <= tailHeight {
      StoreVouched(store.contents, done, live, tailHeight);
    }
  }

  lemma PlacedKept(start: Start, projected: seq<Block>, oldest: nat, stored: seq<Block>, live: seq<Block>,
                   tailStart: nat, kept: seq<Block>)
    requires Placed(start, projected, oldest, stored, live, tailStart) && kept == projected[..start.from]
    requires Linked(projected) && Linked(live) && 1 < tailStart < |live|
    ensures Linked(kept) && kept != [] && start.previousHash == kept[|kept| - 1].hash
    ensures start.from <= |live| && (start.from == tailStart ==> EndsOn(kept, stored))
    ensures (tailStart < start.from ==> kept <= live) && (kept <= live <==> CommonAt(projected, live, start.from - 1))
  {
    LinkedPrefix(projected, start.from);
    KeptIsLive(projected, live, start.from);
  }

  /** The write transaction of a pruned projection, from a placed block on. */
  method ContinueProjection(t: Tables, start: Start, window: seq<Block>, tailHeight: nat, store: Store.ChainStore,
                            src: Source, utxos: Utxos, ghost projected: seq<Block>, ghost projectedUtxos: Utxos,
                            ghost live: seq<Block>, ghost named: Naming, ghost oldest: nat)
    returns (r: Result<Tables>, ghost oldest': nat)
    requires PrunedOver(window, store, live, tailHeight) && BlocksNamed(projected, src.created, named)
    requires Linked(projected) && Tagged(src.rows) && Tagged(src.rowsV2)
    requires Holds(t, projected, projectedUtxos, src, named, oldest)
    requires Placed(start, projected, oldest, store.contents, live, tailHeight)
    ensures r.Ok? <==>
              && Projectable(live, src) && CommonAt(projected, live, start.from - 1)
              && (tailHeight < start.from || Protocol.AgreesBelow(store.contents, live, tailHeight))
    ensures r.Ok? ==> Holds(r.value, live, utxos, src, named, oldest') && Keeps(oldest', oldest, |live|)
  {
    var reopened; ghost var kept;
    reopened, kept := Reopen(t, start, projected, projectedUtxos, src, named, oldest);
    PlacedKept(start, projected, oldest, store.contents, live, tailHeight, kept);
    r, oldest' := AppendMissing(reopened, start, window, tailHeight, store, src, kept, live, named, oldest);
    if r.Ok? {
      var finished := AddBalances(r.value, utxos, live, src, named, oldest');
      r := Ok(finished);
    }
  }

  method AddBalances(t: Tables, utxos: Utxos, ghost live: seq<Block>, ghost src: Source, ghost named: Naming,
                     ghost oldest: nat)
    returns (r: Tables)
    requires Holds(t, live, map[], src, named, oldest)
    ensures Holds(r, live, utxos, src, named, oldest)
  {
    var boards := AccumulateBalances(t.boards, utxos, t.wallet);
    r := t.(boards := boards);
  }

  /** The tables of a complete chain; those at hand when the projected tip is its tip. */
  method SnapshotTables(tip: Option<Hash>, tables: Tables, blocks: seq<Block>, utxos: Utxos, src: Source,
                        ghost projected: seq<Block>, ghost projectedUtxos: Utxos, ghost named: Naming,
                        ghost oldest: nat)
    returns (r: Result<Tables>, ghost oldest': nat)
    requires blocks != [] && Linked(blocks) && BlocksNamed(blocks, src.created, named)
    requires Linked(projected) && tip == TipOf(projected)
    requires Holds(tables, projected, projectedUtxos, src, named, oldest)
    requires projected == blocks ==> projectedUtxos == utxos
    requires Inside(src.genesis, src.genesis.Keys, named)
    ensures r.Ok? <==> Projectable(blocks, src)
    ensures r.Ok? ==> Holds(r.value, blocks, utxos, src, named, oldest') && Keeps(oldest', oldest, |blocks|)
  {
    var position := if tip.None? then None else PositionOf(blocks, tip.value);
    if position.None? {
      r, oldest' := ProjectFromScratch(blocks, utxos, src, named);
      return;
    }
    TipPosition(projected, blocks, position.value);
    if position.value + 1 == |blocks| {
      assert projected == blocks;
      return Ok(tables), oldest;
    }
    r, oldest' := ExtendProjection(tables, blocks, position.value + 1, utxos, src, projected, named, oldest);
  }

  /** The tables of the live chain; those at hand when the projected tip is the live tip. */
  method PrunedTables(tip: Option<Hash>, tables: Tables, window: seq<Block>, utxos: Utxos, store: Store.ChainStore,
                      src: Source, ghost projected: seq<Block>, ghost projectedUtxos: Utxos,
                      ghost named: Naming, ghost oldest: nat, ghost live: seq<Block>, ghost tailStart: nat)
    returns (r: Result<Tables>, ghost oldest': nat)
    requires PrunedOver(window, store, live, tailStart) && BlocksNamed(projected, src.created, named)
    requires Configured(src, named)
    requires Linked(projected) && tip == TipOf(projected)
    requires Holds(tables, projected, projectedUtxos, src, named, oldest)
    requires projected == live ==> projectedUtxos == utxos
    ensures r.Ok? <==> Projectable(live, src) && Continues(projected, oldest, store.contents, live, tailStart)
    ensures r.Ok? ==> Holds(r.value, live, utxos, src, named, oldest') && Keeps(oldest', oldest, |live|)
  {
    oldest' := oldest;
    assert LinkedAt(live, tailStart) && LinkedAt(live, |live| - 1);
    var start := PrunedProjectionStart(tip, tables.recent, window, store, projected, oldest, live, tailStart);
    if start.Err? {
      return Err(start.reason), oldest;
    }
    if start.value.rewind.None? && start.value.from > window[|window| - 1].height {
      WholeChainShared(projected, live, start.value.from);
      return Ok(tables), oldest;
    }
    r, oldest' := ContinueProjection(tables, start.value, window, window[1].height, store, src, utxos,
                                     projected, projectedUtxos, live, named, oldest);
  }

  lemma WholeChainShared(projected: seq<Block>, live: seq<Block>, k: nat)
    requires Linked(projected) && Linked(live) && 0 < k && k == |projected| && k >= |live|
    requires CommonAt(projected, live, k - 1)
    ensures projected == live
  {
    SameHashSamePrefix(projected, live, k - 1, k - 1);
    assert projected[..|projected|] == projected && live[..|live|] == live;
  }

  ghost predicate Configured(src: Source, named: Naming) {
    Tagged(src.rows) && Tagged(src.rowsV2) && Inside(src.genesis, src.genesis.Keys, named)
  }

  class UiDataStore {
    const src: Source
    var tip: Option<Hash>
    var tables: Tables
    var utxos: Utxos
    /** What every outpoint names, the chain the tables hold, and the oldest block the projected-block
        table lists. */
    ghost const named: Naming
    ghost var projected: seq<Block>
    ghost var oldest: nat

    ghost predicate Valid()
      reads this
    {
      && Configured(src, named)
      && Linked(projected) && BlocksNamed(projected, src.created, named)
      && Holds(tables, projected, utxos, src, named, oldest)
      && tip == TipOf(projected)
      && (projected != [] ==> src.ledger(projected) == Ok(utxos))
    }

    constructor (allocations: seq<Metrics.Allocation>, ghost named: Naming)
      requires NamedBy(Metrics.GenesisCreated(allocations), named)
      ensures Valid() && projected == [] && src == SourceOf(allocations) && this.named == named
    {
      src, this.named := SourceOf(allocations), named;
      tip, tables, utxos := None, Tables(map[], map[], map[], map[], map[]), map[];
      projected, oldest := [], 0;
      new;
      EmptyBoards();
      PutAllInside(map[], Metrics.GenesisCreated(allocations), named);
    }

    method ClearAll()
      requires Valid()
      modifies this
      ensures Valid() && projected == []
    {
      tip, tables, utxos := None, Tables(map[], map[], map[], map[], map[]), map[];
      projected, oldest := [], 0;
      EmptyBoards();
    }

    /** Project a complete chain: append when the projected tip is on it, else start over. */
    method ProjectSnapshot(blocks: seq<Block>, ledgerUtxos: Utxos) returns (r: Outcome)
      requires Valid() && Linked(blocks) && BlocksNamed(blocks, src.created, named)
      requires src.ledger(blocks) == Ok(ledgerUtxos)
      modifies this
      ensures r.Pass? <==> blocks != [] && Projectable(blocks, src)
      ensures r.Pass? ==> Valid() && projected == blocks && utxos == ledgerUtxos
      ensures r.Pass? ==> Keeps(oldest, old(oldest), |blocks|)
      ensures r.Fail? ==> unchanged(this)
    {
      if blocks == [] {
        return Fail("chain snapshot is empty");
      }
      var t; ghost var o;
      t, o := SnapshotTables(tip, tables, blocks, ledgerUtxos, src, projected, utxos, named, oldest);
      if t.Err? {
        return Fail(t.reason);
      }
      Commit(blocks[|blocks| - 1].hash, t.value, ledgerUtxos, blocks, o);
      return Pass;
    }

    method Commit(tipHash: Hash, t: Tables, ledgerUtxos: Utxos, ghost chain: seq<Block>, ghost o: nat)
      requires Configured(src, named) && Linked(chain) && chain != [] && TipOf(chain) == Some(tipHash)
      requires BlocksNamed(chain, src.created, named)
      requires Holds(t, chain, ledgerUtxos, src, named, o) && src.ledger(chain) == Ok(ledgerUtxos)
      modifies this
      ensures Valid() && projected == chain && utxos == ledgerUtxos && oldest == o
    {
      tip, tables, utxos, projected, oldest := Some(tipHash), t, ledgerUtxos, chain, o;
    }

    /** Project a live ledger whose older blocks are pruned, beside a store that may hold any chain. It
        succeeds exactly when the projected-block table still lists a live block, in the window or over
        a store that agrees below it; then every table is that of the complete live chain, as if
        projected from scratch. */
    method ProjectPruned(window: seq<Block>, ledgerUtxos: Utxos, store: Store.ChainStore,
                         ghost live: seq<Block>, ghost tailStart: nat)
      returns (r: Outcome)
      requires Valid() && PrunedOver(window, store, live, tailStart) && BlocksNamed(live, src.created, named)
      requires src.ledger(live) == Ok(ledgerUtxos)
      modifies this
      ensures r.Pass? <==>
                && Projectable(live, src)
                && Continues(old(projected), old(oldest), store.contents, live, tailStart)
      ensures r.Pass? ==> Valid() && projected == live && utxos == ledgerUtxos
      ensures r.Pass? ==> Keeps(oldest, old(oldest), |live|)
      ensures r.Fail? ==> unchanged(this)
    {
      var t; ghost var o;
      t, o :=
        PrunedTables(tip, tables, window, ledgerUtxos, store, src, projected, utxos, named, oldest, live, tailStart);
      if t.Err? {
        return Fail(t.reason);
      }
      WindowTail(live, tailStart, window);
      Commit(window[|window| - 1].hash, t.value, ledgerUtxos, live, o);
      return Pass;
    }

    /** The wallet tables say of every address exactly what the projected chain's transactions and rewards
        say, each row with its block's data; and the leaderboards list exactly what it mined, burned and
        holds. */
    lemma HistoryIsExact(allocations: seq<Metrics.Allocation>)
      requires Valid() && src == SourceOf(allocations)
      ensures forall a, s :: History.LegacyKey(tables.wallet, projected, a, s)
      ensures forall a, p :: History.RewardKey(tables.wallet, projected, a, p)
      ensures forall a, s :: History.EnvelopeKey(tables.walletV2, projected, a, s)
      ensures forall h: nat, j: nat, a, s :: History.LegacyAt(projected, h, j, a, s) ==>
                && RowKey(a, TxId(s)) in tables.wallet
                && History.LegacyRow(tables.wallet[RowKey(a, TxId(s))], projected[h], j)
      ensures forall h: nat, i: nat, a, p :: History.RewardAt(projected, h, i, a, p) ==>
                && RowKey(a, RewardId(p)) in tables.wallet
                && History.RewardRow(tables.wallet[RowKey(a, RewardId(p))], projected[h], i)
      ensures forall h: nat, j: nat, a, s :: History.EnvelopeAt(projected, h, j, a, s) ==>
                && RowKey(a, TxId(s)) in tables.walletV2
                && History.EnvelopeRow(tables.walletV2[RowKey(a, TxId(s))], projected[h], j)
      ensures forall a :: History.EntriesAre(tables.boards, projected, utxos, a)
    {
      History.WalletIsHistory(projected, tables.wallet);
      History.WalletV2IsHistory(projected, tables.walletV2);
      History.BoardsAreTotals(tables.boards, projected, tables.wallet, utxos);
    }

    /** Every unspent output of the projected chain is indexed with its value. */
    lemma OutputsIndexed(allocations: seq<Metrics.Allocation>)
      requires Valid() && projected != [] && src == SourceOf(allocations)
      ensures forall p :: p in utxos ==> p in tables.outputs && tables.outputs[p] == utxos[p]
    {
      ReplayInside(src.genesis, projected, |projected|, tables.outputs.Keys, named);
    }
  }

  function PositionOf(blocks: seq<Block>, hash: Hash): (r: Option<nat>)
    ensures r.Some? ==> r.value < |blocks| && blocks[r.value].hash == hash
    ensures r.None? ==> forall i :: 0 <= i < |blocks| ==> blocks[i].hash != hash
  {
    if blocks == [] then None
    else if blocks[0].hash == hash then Some(0)
    else
      var rest := PositionOf(blocks[1..], hash);
      if rest.None? then None else Some(rest.value + 1)
  }

  lemma TipPosition(projected: seq<Block>, blocks: seq<Block>, position: nat)
    requires Linked(projected) && Linked(blocks) && projected != [] && position < |blocks|
    requires TipOf(projected) == Some(blocks[position].hash)
    ensures position + 1 == |projected| && projected == blocks[..position + 1]
  {
    SameHashSamePrefix(projected, blocks, |projected| - 1, position);
    assert projected[..|projected|] == projected;
  }

  /** Two databases that hold the same chain hold the same rows, whatever each went through: appends,
      rewinds and streamed blocks leave what projecting from scratch does. */
  lemma ProjectionsCoincide(a: UiDataStore, b: UiDataStore)
    requires a.Valid() && b.Valid() && a.src == b.src && a.projected == b.projected != []
    ensures a.tip == b.tip && a.utxos == b.utxos
    ensures a.tables.wallet == b.tables.wallet && a.tables.walletV2 == b.tables.walletV2
            && a.tables.boards == b.tables.boards
  {
    BoardsUnique(a.tables.boards, b.tables.boards, a.tables.wallet, a.utxos);
  }
}
