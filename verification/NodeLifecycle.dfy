/** The node's resident history: genesis plus a tail, pruned only behind the persisted tip. */
module NodeLifecycle {
  import opened Results
  import opened Chain
  import opened BoundedLoader
  import opened ChainTables
  import opened ChainStoreTail

  const RESIDENT_CHAIN_BLOCKS: nat := 64

  datatype Tip = Tip(height: nat, hash: Hash)

  /** What a ledger keeps in memory of its chain: genesis and the blocks from `tailStart` on. */
  function Window(live: seq<Block>, tailStart: nat): seq<Block>
    requires 1 <= tailStart <= |live|
  {
    [live[0]] + live[tailStart..]
  }

  /** A pruned window still holds the tip. */
  predicate WindowFits(live: seq<Block>, tailStart: nat) {
    1 <= tailStart <= |live| && (tailStart > 1 ==> tailStart < |live|)
  }

  /** Window lookup, by the offset from the first resident tail block. */
  function ResidentBlockAt(window: seq<Block>, height: nat): Option<Block> {
    if window == [] then None
    else if height == window[0].height then Some(window[0])
    else if |window| < 2 || height < window[1].height then None
    else
      var position := height - window[1].height + 1;
      if position < |window| && window[position].height == height then Some(window[position]) else None
  }

  lemma ResidentBlockIsLive(live: seq<Block>, tailStart: nat, height: nat)
    requires Linked(live) && 1 <= tailStart <= |live|
    ensures ResidentBlockAt(Window(live, tailStart), height) ==
            if height == 0 || tailStart <= height < |live| then Some(live[height]) else None
  {
    var window := Window(live, tailStart);
    assert LinkedAt(live, 0);
    if tailStart < |live| {
      assert LinkedAt(live, tailStart);
      assert window[1] == live[tailStart];
      if tailStart <= height < |live| {
        assert LinkedAt(live, height);
        assert window[height - tailStart + 1] == live[height];
      }
    }
  }

  /** The persisted tip is resident and still on the live chain. */
  ghost predicate TipResident(live: seq<Block>, tailStart: nat, tip: Option<Tip>) {
    tip.Some? && tip.value.height < |live| && live[tip.value.height].hash == tip.value.hash
    && (tip.value.height == 0 || tailStart <= tip.value.height)
  }

  /** Where the tail starts after pruning: everything above the persisted tip stays resident, and at
      least `resident` blocks do. */
  ghost function PrunedStart(live: seq<Block>, tailStart: nat, bounded: bool, tip: Option<Tip>, resident: nat): nat {
    if bounded && TipResident(live, tailStart, tip) then
      var keep := Max(|live| - 1 - tip.value.height, Max(resident, 1));
      if |live| - tailStart <= keep then tailStart else |live| - keep
    else tailStart
  }

  /** Pruning moves the start only behind a resident persisted tip. When it moves it, it leaves exactly
      the blocks above that tip, or a full window if they are fewer; otherwise no more than that. */
  lemma PrunedStartKeeps(live: seq<Block>, tailStart: nat, bounded: bool, tip: Option<Tip>, resident: nat)
    requires WindowFits(live, tailStart)
    ensures var start := PrunedStart(live, tailStart, bounded, tip, resident);
            && tailStart <= start <= |live|
            && (start > tailStart ==>
                  && bounded && TipResident(live, tailStart, tip)
                  && |live| - start == Max(|live| - 1 - tip.value.height, Max(resident, 1)))
            && (bounded && TipResident(live, tailStart, tip) ==>
                  |live| - start <= Max(|live| - 1 - tip.value.height, Max(resident, 1)))
  {
  }

  lemma RetainIsPrunedStart(live: seq<Block>, tailStart: nat, keep: nat)
    requires 1 <= tailStart <= |live|
    ensures var start := if |live| - tailStart <= Max(keep, 1) then tailStart else |live| - Max(keep, 1);
            1 <= start <= |live| && Retain(Window(live, tailStart), keep) == Window(live, start)
  {
  }

  /** Blocks that follow each other from a parent named by its hash. */
  ghost predicate Extension(suffix: seq<Block>) {
    && suffix != [] && suffix[0].prevHash.Digest? && suffix[0].height == suffix[0].prevHash.height + 1
    && (forall i :: 0 <= i < |suffix| ==> Sealed(suffix[i]) && suffix[i].height == suffix[0].height + i)
    && forall i {:trigger ParentHash(suffix, i)} :: 0 < i < |suffix| ==> suffix[i].prevHash == ParentHash(suffix, i)
  }

  lemma ExtensionLinks(chain: seq<Block>, suffix: seq<Block>, k: nat)
    requires Linked(chain) && Extension(suffix) && k < |chain| && chain[k].hash == suffix[0].prevHash
    ensures suffix[0].height == k + 1 && Linked(chain[..k + 1] + suffix)
  {
    assert LinkedAt(chain, k);
    LinkedSplice(chain, k + 1, suffix);
  }

  method FindPosition(window: seq<Block>, hash: Hash) returns (r: Option<nat>)
    ensures r.Some? ==> r.value < |window| && window[r.value].hash == hash
    ensures r.None? ==> forall i :: 0 <= i < |window| ==> window[i].hash != hash
  {
    for i := 0 to |window|
      invariant forall j :: 0 <= j < i ==> window[j].hash != hash
    {
      if window[i].hash == hash {
        return Some(i);
      }
    }
    return None;
  }

  lemma TruncatedWindow(live: seq<Block>, tailStart: nat, position: nat)
    requires WindowFits(live, tailStart) && position < |Window(live, tailStart)|
    ensures position > 0 ==>
              Window(live, tailStart)[..position + 1] == [live[0]] + live[tailStart..tailStart + position]
    ensures Window(live, tailStart)[..1] == [live[0]] == live[..1]
  {
  }

  class NodeCore {
    var bounded: bool
    var persistedTip: Option<Tip>
    var window: seq<Block>
    var pruned: bool
    /** The complete chain the ledger stands for, and where its resident tail starts. */
    ghost var live: seq<Block>
    ghost var tailStart: nat

    ghost predicate Valid()
      reads this
    {
      Linked(live) && WindowFits(live, tailStart) && window == Window(live, tailStart) && (pruned <==> tailStart > 1)
    }

    constructor (chain: seq<Block>)
      requires Linked(chain) && chain != []
      ensures Valid() && live == chain && tailStart == 1 && !bounded && persistedTip == None
    {
      bounded, persistedTip, window, pruned := false, None, chain, false;
      live, tailStart := chain, 1;
    }

    /** A block that extends the tip. */
    method AppendBlock(block: Block)
      requires Valid() && Linked(live + [block])
      modifies this`window, this`live
      ensures Valid() && live == old(live) + [block]
    {
      window, live := window + [block], live + [block];
    }

    /** Replace everything above a resident ancestor; a page whose ancestor is not resident is refused.
        From genesis the page is a complete chain. */
    method Reorganize(suffix: seq<Block>) returns (r: Outcome)
      requires Valid() && Extension(suffix)
      modifies this`window, this`pruned, this`live, this`tailStart
      ensures r.Fail? <==> forall i :: 0 <= i < |old(window)| ==> old(window)[i].hash != suffix[0].prevHash
      ensures r.Fail? ==> unchanged(this)
      ensures r.Pass? ==> Valid() && suffix[0].height <= |old(live)| && live == old(live)[..suffix[0].height] + suffix
      ensures r.Pass? ==> tailStart == if suffix[0].height == 1 then 1 else old(tailStart)
      ensures r.Pass? ==> suffix[0].height == 1 || old(tailStart) <= suffix[0].height
    {
      var position := FindPosition(window, suffix[0].prevHash);
      if position.None? {
        return Fail("block page has no common ancestor");
      }
      ghost var k := if position.value == 0 then 0 else tailStart + position.value - 1;
      ExtensionLinks(live, suffix, k);
      TruncatedWindow(live, tailStart, position.value);
      ghost var chain := live[..k + 1] + suffix;
      if position.value == 0 {
        Adopt(window[..1] + suffix, false, chain, 1);
      } else {
        Adopt(window[..position.value + 1] + suffix, pruned, chain, tailStart);
      }
      return Pass;
    }

    /** Take over a ledger built elsewhere, with its window. */
    method Adopt(newWindow: seq<Block>, newPruned: bool, ghost chain: seq<Block>, ghost start: nat)
      requires Valid() && Linked(chain) && WindowFits(chain, start) && newWindow == Window(chain, start)
      requires newPruned <==> start > 1
      modifies this`window, this`pruned, this`live, this`tailStart
      ensures Valid() && live == chain && tailStart == start
    {
      window, pruned, live, tailStart := newWindow, newPruned, chain, start;
    }

    method PrunePersistedHistory()
      requires Valid()
      modifies this`window, this`pruned, this`tailStart
      ensures Valid() && tailStart == PrunedStart(live, old(tailStart), bounded, persistedTip, RESIDENT_CHAIN_BLOCKS)
      ensures tailStart >= old(tailStart)
      ensures tailStart > old(tailStart) ==>
                && bounded && TipResident(live, old(tailStart), persistedTip)
                && |window| - 1 == Max(|live| - 1 - persistedTip.value.height, RESIDENT_CHAIN_BLOCKS)
      ensures bounded && TipResident(live, old(tailStart), persistedTip) ==>
                |window| - 1 <= Max(|live| - 1 - persistedTip.value.height, RESIDENT_CHAIN_BLOCKS)
    {
      PrunedStartKeeps(live, tailStart, bounded, persistedTip, RESIDENT_CHAIN_BLOCKS);
      if !bounded || persistedTip.None? {
        return;
      }
      window, pruned, tailStart := PruneBehind(window, pruned, persistedTip.value, live, tailStart);
    }

    method BoundResidentChainHistory()
      requires Valid()
      modifies this
      ensures Valid() && bounded && live == old(live) && persistedTip == old(persistedTip)
      ensures tailStart == PrunedStart(live, old(tailStart), true, persistedTip, RESIDENT_CHAIN_BLOCKS)
      ensures tailStart >= old(tailStart)
      ensures tailStart > old(tailStart) ==>
                && TipResident(live, old(tailStart), persistedTip)
                && |window| - 1 == Max(|live| - 1 - persistedTip.value.height, RESIDENT_CHAIN_BLOCKS)
      ensures TipResident(live, old(tailStart), persistedTip) ==>
                |window| - 1 <= Max(|live| - 1 - persistedTip.value.height, RESIDENT_CHAIN_BLOCKS)
    {
      bounded := true;
      PrunePersistedHistory();
    }

    method KeepCompleteChainHistory()
      requires Valid()
      modifies this`bounded
      ensures Valid() && !bounded
    {
      bounded := false;
    }

    method MarkChainPersisted(height: nat, hash: Hash)
      requires Valid()
      modifies this
      ensures Valid() && live == old(live) && bounded == old(bounded) && persistedTip == Some(Tip(height, hash))
      ensures tailStart == PrunedStart(live, old(tailStart), bounded, persistedTip, RESIDENT_CHAIN_BLOCKS)
      ensures tailStart >= old(tailStart)
      ensures tailStart > old(tailStart) ==>
                && bounded && TipResident(live, old(tailStart), persistedTip)
                && |window| - 1 == Max(|live| - 1 - persistedTip.value.height, RESIDENT_CHAIN_BLOCKS)
      ensures bounded && TipResident(live, old(tailStart), persistedTip) ==>
                |window| - 1 <= Max(|live| - 1 - persistedTip.value.height, RESIDENT_CHAIN_BLOCKS)
    {
      persistedTip := Some(Tip(height, hash));
      PrunePersistedHistory();
    }

    /** Reattach pruned history loaded from the store. A stored chain that reaches the window is attached
        exactly when it is a prefix of the live one, and the window then is the complete live chain; a
        shorter one is refused. A store of genesis alone meets the resident genesis, so it is refused
        only if a resident block fails to replay on it: otherwise the gap is taken for complete history. */
    method RestoreCompleteChainHistory(complete: seq<Block>, trusted: Replayer) returns (r: Result<bool>)
      requires Valid() && Linked(complete) && complete != [] && Trusts(trusted, live)
      modifies this`window, this`pruned, this`tailStart
      ensures r == if old(tailStart) == 1 then Ok(true)
                   else RestoreResult(complete, live, old(tailStart), trusted)
      ensures r == Ok(true) && !Gap(complete, old(tailStart)) ==> Valid() && window == live
      ensures r != Ok(true) ==> Valid() && tailStart == old(tailStart)
      ensures r == Ok(true) && Gap(complete, old(tailStart)) ==>
                tailStart == old(tailStart) && window == Window(live, tailStart) && !pruned
    {
      if !pruned {
        assert Window(live, 1) == live;
        return Ok(true);
      }
      if complete[0].hash != window[0].hash {
        return Err("other genesis");
      }
      var attached := Reattach(window, complete, trusted, live, tailStart);
      if attached.Err? {
        return Err(attached.reason);
      }
      if attached.value.None? {
        return Ok(false);
      }
      window, pruned := attached.value.value, false;
      if |complete| > 1 {
        tailStart := 1;
        assert Window(live, 1) == live;
      }
      return Ok(true);
    }
  }

  /** Whether a block this node validated before replays on the ledger of a chain. */
  type Replayer = (seq<Block>, Block) -> bool

  /** Every block of the live chain replays on the blocks before it. */
  ghost predicate Trusts(trusted: Replayer, live: seq<Block>) {
    forall k {:trigger live[..k]} :: 0 < k < |live| ==> trusted(live[..k], live[k])
  }

  /** The blocks replay one after the other on the ledger of `base`. */
  predicate ReplaysOnto(base: seq<Block>, newer: seq<Block>, trusted: Replayer)
    decreases |newer|
  {
    newer == [] || (trusted(base, newer[0]) && ReplaysOnto(base + [newer[0]], newer[1..], trusted))
  }

  /** Pruned memory beside a store of genesis alone. */
  predicate Gap(complete: seq<Block>, tailStart: nat) { |complete| == 1 && 1 < tailStart }

  /** What restoring pruned history answers. */
  ghost function RestoreResult(complete: seq<Block>, live: seq<Block>, tailStart: nat, trusted: Replayer): Result<bool>
    requires complete != [] && 1 < tailStart < |live|
  {
    if complete[0].hash != live[0].hash then Err("other genesis")
    else if |complete| == 1 then
      if ReplaysOnto(complete, live[tailStart..], trusted) then Ok(true) else Err("no replay")
    else Ok(tailStart <= |complete| && complete <= live)
  }

  /** What a gap leaves is not a chain: a restore that meets only genesis must not be trusted. */
  lemma GapIsNoChain(live: seq<Block>, tailStart: nat)
    requires Linked(live) && 1 < tailStart < |live|
    ensures !Linked(Window(live, tailStart)) && Window(live, tailStart) != live
  {
    var window := Window(live, tailStart);
    assert LinkedAt(live, tailStart) && window[1] == live[tailStart];
    assert !LinkedAt(window, 1);
  }

  /** Drop what lies behind the persisted tip, if the tip is resident and still on the chain. */
  method PruneBehind(window: seq<Block>, pruned: bool, tip: Tip, ghost live: seq<Block>, ghost tailStart: nat)
    returns (window': seq<Block>, pruned': bool, ghost start: nat)
    requires Linked(live) && WindowFits(live, tailStart) && window == Window(live, tailStart)
    requires (pruned <==> tailStart > 1)
    ensures start == PrunedStart(live, tailStart, true, Some(tip), RESIDENT_CHAIN_BLOCKS)
    ensures WindowFits(live, start) && window' == Window(live, start) && (pruned' <==> start > 1)
    ensures tailStart <= start
    ensures start > tailStart ==> TipResident(live, tailStart, Some(tip))
    ensures start > tailStart ==> |window'| - 1 == Max(|live| - 1 - tip.height, RESIDENT_CHAIN_BLOCKS)
    ensures TipResident(live, tailStart, Some(tip)) ==>
              |window'| - 1 <= Max(|live| - 1 - tip.height, RESIDENT_CHAIN_BLOCKS)
  {
    PrunedStartKeeps(live, tailStart, true, Some(tip), RESIDENT_CHAIN_BLOCKS);
    ResidentBlockIsLive(live, tailStart, tip.height);
    var block := ResidentBlockAt(window, tip.height);
    if block.None? || block.value.hash != tip.hash {
      return window, pruned, tailStart;
    }
    assert LinkedAt(live, |live| - 1);
    var height := window[|window| - 1].height;
    var keep := Max(SaturatingSub(height, tip.height), RESIDENT_CHAIN_BLOCKS);
    RetainIsPrunedStart(live, tailStart, keep);
    window' := Retain(window, keep);
    pruned' := pruned || |window| > keep + 1;
    start := if |live| - tailStart <= keep then tailStart else |live| - keep;
  }

  /** Whether the stored tip is resident, or the parent of a resident block. */
  method Meets(window: seq<Block>, restoredTip: Block, ghost live: seq<Block>, ghost tailStart: nat,
               ghost complete: seq<Block>)
    returns (meets: bool)
    requires Linked(live) && 1 < tailStart < |live| && window == Window(live, tailStart)
    requires Linked(complete) && complete != [] && restoredTip == complete[|complete| - 1]
    requires complete[0].hash == live[0].hash
    ensures meets <==> |complete| == 1 || (tailStart <= |complete| && complete <= live)
  {
    assert LinkedAt(complete, |complete| - 1);
    ResidentBlockIsLive(live, tailStart, restoredTip.height);
    ResidentBlockIsLive(live, tailStart, restoredTip.height + 1);
    var same := ResidentBlockAt(window, restoredTip.height);
    var next := ResidentBlockAt(window, restoredTip.height + 1);
    meets := if same.Some? then same.value.hash == restoredTip.hash
             else next.Some? && next.value.prevHash == restoredTip.hash;
    if tailStart <= |complete| {
      RestoreMeets(live, tailStart, complete, meets);
    }
  }

  /** Replay blocks one by one. */
  method ReplayNewer(base: seq<Block>, newer: seq<Block>, trusted: Replayer) returns (r: Result<seq<Block>>)
    ensures r == if ReplaysOnto(base, newer, trusted) then Ok(base + newer) else Err("no replay")
  {
    var chain, rest := base, newer;
    while rest != []
      invariant ReplaysOnto(base, newer, trusted) == ReplaysOnto(chain, rest, trusted) && chain + rest == base + newer
      decreases |rest|
    {
      if !trusted(chain, rest[0]) {
        return Err("no replay");
      }
      MoveOver(chain, rest);
      chain, rest := chain + [rest[0]], rest[1..];
    }
    assert chain + [] == chain;
    return Ok(chain);
  }

  lemma MoveOver(chain: seq<Block>, rest: seq<Block>)
    requires rest != []
    ensures chain + [rest[0]] + rest[1..] == chain + rest
  {
  }

  /** A prefix of the live chain takes the rest of it. */
  lemma {:induction false} LiveReplays(live: seq<Block>, front: seq<Block>, rest: seq<Block>, trusted: Replayer)
    requires front != [] && live == front + rest && Trusts(trusted, live)
    ensures ReplaysOnto(front, rest, trusted)
    decreases |rest|
  {
    if rest != [] {
      var k := |front|;
      assert live[..k] == front && live[k] == rest[0];
      MoveOver(front, rest);
      LiveReplays(live, front + [rest[0]], rest[1..], trusted);
    }
  }

  /** The stored chain followed by the resident blocks above its tip, if the two meet. */
  method Reattach(window: seq<Block>, complete: seq<Block>, trusted: Replayer, ghost live: seq<Block>,
                  ghost tailStart: nat)
    returns (r: Result<Option<seq<Block>>>)
    requires Linked(live) && 1 < tailStart < |live| && window == Window(live, tailStart) && Trusts(trusted, live)
    requires Linked(complete) && complete != [] && complete[0].hash == live[0].hash
    ensures |complete| > 1 ==> r == Ok(if tailStart <= |complete| && complete <= live then Some(live) else None)
    ensures |complete| == 1 ==>
              r == if ReplaysOnto(complete, live[tailStart..], trusted) then Ok(Some(window)) else Err("no replay")
  {
    var restoredTip := complete[|complete| - 1];
    assert LinkedAt(complete, |complete| - 1) && LinkedAt(live, |live| - 1);
    var meets := Meets(window, restoredTip, live, tailStart, complete);
    if !meets {
      return Ok(None);
    }
    var tip := window[|window| - 1];
    var newer := FilterHeights(window, restoredTip.height + 1, tip.height + 1);
    ghost var from := Max(tailStart, |complete|);
    NewerIsLive(live, tailStart, complete, window, from);
    if |complete| == 1 {
      GenesisShared(live, complete);
      assert complete + newer == window;
    } else {
      Rejoin(live, complete, newer);
      LiveReplays(live, complete, newer, trusted);
    }
    var replayed := ReplayNewer(complete, newer, trusted);
    if replayed.Err? {
      return Err(replayed.reason);
    }
    var whole := replayed.value;
    if whole[|whole| - 1].hash != tip.hash {
      return Ok(None);
    }
    return Ok(Some(whole));
  }

  lemma GenesisShared(live: seq<Block>, complete: seq<Block>)
    requires Linked(live) && Linked(complete) && |complete| == 1 && live != [] && complete[0].hash == live[0].hash
    ensures complete == [live[0]]
  {
    SameHashSamePrefix(live, complete, 0, 0);
    assert complete[0] == complete[..1][0] && live[0] == live[..1][0];
  }

  lemma RestoreMeets(live: seq<Block>, tailStart: nat, complete: seq<Block>, meets: bool)
    requires Linked(live) && Linked(complete) && 1 < tailStart < |live| && tailStart <= |complete|
    requires var h := |complete| - 1;
             meets == if tailStart <= h < |live| then live[h].hash == complete[h].hash
                        else h + 1 < |live| && live[h + 1].prevHash == complete[h].hash
    ensures meets <==> complete <= live
  {
    var h := |complete| - 1;
    if h + 1 < |live| {
      assert LinkedAt(live, h + 1);
    }
    if meets {
      SameHashSamePrefix(live, complete, h, h);
    }
  }

  lemma NewerIsLive(live: seq<Block>, tailStart: nat, complete: seq<Block>, window: seq<Block>, from: nat)
    requires Linked(live) && 1 < tailStart < |live| && 0 < |complete| <= |live| && window == Window(live, tailStart)
    requires from == Max(tailStart, |complete|)
    ensures FilterHeights(window, |complete|, |live|) == live[from..]
  {
    var tail := live[tailStart..];
    assert LinkedAt(live, 0);
    FilterCons(live[0], tail, |complete|, |live|);
    FilterTail(live, tailStart, |complete|, from);
    var rest := live[from..];
    assert [] + rest == rest;
  }

  lemma Rejoin(live: seq<Block>, front: seq<Block>, rest: seq<Block>)
    requires front <= live && rest == live[|front|..]
    ensures front + rest == live
  {
  }

  lemma FilterCons(first: Block, rest: seq<Block>, lo: nat, hi: nat)
    ensures FilterHeights([first] + rest, lo, hi) ==
            (if lo <= first.height < hi then [first] else []) + FilterHeights(rest, lo, hi)
  {
    assert ([first] + rest)[1..] == rest;
  }
}
