/** Rebuilding consensus state from the stored segments while keeping only a recent window of blocks. */
module BoundedLoader {
  import opened Results
  import opened Chain
  import opened Segments
  import opened ChainTables
  import opened ChainReads
  import Store = ChainStore

  const AUTHORIZATION_AGGREGATION_HEIGHT: nat := 4_500
  const HYBRID_LINEAGE_IDENTITY_HEIGHT: nat := 4_750

  /** The first block a chain verified under `ruleset` must be checked from again; none if current. */
  function RevalidationFromHeight(ruleset: Option<string>): Option<nat> {
    match ruleset
    case None => Some(1)
    case Some(name) =>
      if name == CURRENT_CONSENSUS_RULESET then None
      else if name == "0.4.10" || name == "iuna-consensus-v1" then Some(AUTHORIZATION_AGGREGATION_HEIGHT)
      else if name == "iuna-consensus-v2" then Some(HYBRID_LINEAGE_IDENTITY_HEIGHT)
      else Some(1)
  }

  function RulesetOf(row: Option<VerificationRow>, tipHash: Hash): Option<string> {
    if row.Some? && row.value.tipHash == tipHash then Some(row.value.ruleset) else None
  }

  /** Consensus as the loader sees it: state transitions, the checks every apply makes, and the delay
      proof that only a full validation checks. */
  datatype Rules<!S> = Rules(
    genesis: Block -> S,
    apply: (S, Block) -> S,
    accepts: (S, Block) -> bool,
    proof: Block -> bool)

  datatype Ledger<+S> = Ledger(state: S, window: seq<Block>)

  datatype Loaded<+S> = Loaded(ledger: Ledger<S>, revalidationFrom: Option<nat>)

  /** Keep genesis and the last `limit` blocks, at least one. */
  function Retain(window: seq<Block>, limit: nat): seq<Block> {
    var keep := if limit == 0 then 1 else limit;
    if |window| <= keep + 1 then window else [window[0]] + window[|window| - keep..]
  }

  /** Pruning after every block keeps the same window as pruning the whole chain once. */
  lemma RetainStep(chain: seq<Block>, block: Block, limit: nat)
    requires chain != []
    ensures Retain(Retain(chain, limit) + [block], limit) == Retain(chain + [block], limit)
  {
    var keep := if limit == 0 then 1 else limit;
    if |chain| > keep + 1 {
      var tail := chain[|chain| - keep..];
      assert ([chain[0]] + tail + [block])[2..] == tail[1..] + [block];
      assert (chain + [block])[|chain| + 1 - keep..] == tail[1..] + [block];
    }
  }

  function Replay<S>(rules: Rules<S>, chain: seq<Block>): S
    requires chain != []
  {
    if |chain| == 1 then rules.genesis(chain[0])
    else rules.apply(Replay(rules, chain[..|chain| - 1]), chain[|chain| - 1])
  }

  predicate NeedsProof(block: Block, from: Option<nat>) {
    from.Some? && block.height >= from.value
  }

  ghost predicate PassesAt<S>(rules: Rules<S>, chain: seq<Block>, from: Option<nat>, i: nat)
    requires 0 < i < |chain|
  {
    rules.accepts(Replay(rules, chain[..i]), chain[i]) && (NeedsProof(chain[i], from) ==> rules.proof(chain[i]))
  }

  /** Every non-genesis block below height `end` passes; those from the revalidation height on also prove. */
  ghost predicate Passes<S>(rules: Rules<S>, chain: seq<Block>, from: Option<nat>, end: nat)
    requires end <= |chain|
  {
    forall i :: 0 < i < end ==> PassesAt(rules, chain, from, i)
  }

  /** Every non-genesis block below height `end` is accepted, and those from `first` on also prove. */
  ghost predicate ProvedFrom<S>(rules: Rules<S>, chain: seq<Block>, first: nat, end: nat)
    requires end <= |chain|
  {
    forall i {:trigger chain[i]} :: 0 < i < end ==>
      rules.accepts(Replay(rules, chain[..i]), chain[i]) && (first <= i ==> rules.proof(chain[i]))
  }

  lemma PassesIsProved<S>(rules: Rules<S>, chain: seq<Block>, from: Option<nat>, first: nat, end: nat)
    requires Linked(chain) && end <= |chain| && (if from.Some? then first == from.value else end <= first)
    ensures Passes(rules, chain, from, end) <==> ProvedFrom(rules, chain, first, end)
  {
    forall i | 0 < i < end
      ensures PassesAt(rules, chain, from, i) <==>
              rules.accepts(Replay(rules, chain[..i]), chain[i]) && (first <= i ==> rules.proof(chain[i]))
    {
      assert LinkedAt(chain, i);
    }
  }

  /** The stored marker vouches for the stored tip under a ruleset. */
  ghost predicate MarkedAs(row: Option<VerificationRow>, tipHash: Hash, ruleset: string) {
    row == Some(VerificationRow(tipHash, ruleset))
  }

  /** What the stored marker is trusted for: everything under the current rules, the blocks before the
      first affected height under the two older ones, and nothing if it is missing, for another tip, or
      unknown. */
  lemma MarkerIsTrustedFor<S>(rules: Rules<S>, chain: seq<Block>, row: Option<VerificationRow>, tipHash: Hash, end: nat)
    requires Linked(chain) && end <= |chain|
    ensures var from := RevalidationFromHeight(RulesetOf(row, tipHash));
            && (MarkedAs(row, tipHash, "iuna-consensus-v3") ==>
                  (Passes(rules, chain, from, end) <==> ProvedFrom(rules, chain, end, end)))
            && (MarkedAs(row, tipHash, "iuna-consensus-v2") ==>
                  (Passes(rules, chain, from, end) <==> ProvedFrom(rules, chain, 4_750, end)))
            && (MarkedAs(row, tipHash, "iuna-consensus-v1") || MarkedAs(row, tipHash, "0.4.10") ==>
                  (Passes(rules, chain, from, end) <==> ProvedFrom(rules, chain, 4_500, end)))
            && (!MarkedAs(row, tipHash, "iuna-consensus-v3") && !MarkedAs(row, tipHash, "iuna-consensus-v2")
                && !MarkedAs(row, tipHash, "iuna-consensus-v1") && !MarkedAs(row, tipHash, "0.4.10") ==>
                  (Passes(rules, chain, from, end) <==> ProvedFrom(rules, chain, 1, end)))
  {
    var from := RevalidationFromHeight(RulesetOf(row, tipHash));
    PassesIsProved(rules, chain, from, if from.Some? then from.value else end, end);
  }

  function ApplyNext<S>(rules: Rules<S>, ledger: Option<Ledger<S>>, block: Block, limit: nat, from: Option<nat>)
    : Result<Option<Ledger<S>>>
  {
    match ledger
    case None => Ok(Some(Ledger(rules.genesis(block), [block])))
    case Some(current) =>
      if !rules.accepts(current.state, block) then Err("block is invalid")
      else if NeedsProof(block, from) && !rules.proof(block) then Err("block VDF output is invalid")
      else Ok(Some(Ledger(rules.apply(current.state, block), Retain(current.window + [block], limit))))
  }

  ghost function After<S>(rules: Rules<S>, chain: seq<Block>, end: nat, limit: nat): Option<Ledger<S>>
    requires end <= |chain|
  {
    if end == 0 then None else Some(Ledger(Replay(rules, chain[..end]), Retain(chain[..end], limit)))
  }

  /** Applying the next stored block to the ledger of a prefix gives the ledger of the longer prefix. */
  lemma ApplyNextReplays<S>(rules: Rules<S>, chain: seq<Block>, end: nat, limit: nat, from: Option<nat>)
    requires end < |chain|
    ensures var r := ApplyNext(rules, After(rules, chain, end, limit), chain[end], limit, from);
            && (r.Ok? <==> end == 0 || PassesAt(rules, chain, from, end))
            && (r.Ok? ==> r.value == After(rules, chain, end + 1, limit))
  {
    assert chain[..end + 1] == chain[..end] + [chain[end]];
    if end > 0 {
      assert chain[..end + 1][..end] == chain[..end];
      RetainStep(chain[..end], chain[end], limit);
    }
  }

  /** The window always ends in the block applied last. */
  lemma TipOf<S>(rules: Rules<S>, chain: seq<Block>, end: nat, limit: nat)
    requires Linked(chain) && 0 < end <= |chain|
    ensures var window := After(rules, chain, end, limit).value.window;
            && window != []
            && window[|window| - 1] == chain[end - 1]
            && window[|window| - 1].height == end - 1
  {
    assert LinkedAt(chain, end - 1);
  }

  datatype Progress<+S> = Reached(ledger: Ledger<S>) | More(partial: Option<Ledger<S>>) | Rejected(reason: string)

  /** What a replay that has consumed the first `end` blocks may report. */
  ghost predicate Reports<S>(p: Progress<S>, rules: Rules<S>, chain: seq<Block>, end: nat, limit: nat,
                             from: Option<nat>, target: nat)
    requires target < |chain|
  {
    match p
    case Rejected(_) => !Passes(rules, chain, from, target + 1)
    case Reached(ledger) => Passes(rules, chain, from, target + 1)
        && Some(ledger) == After(rules, chain, target + 1, limit)
    case More(partial) => end <= target && Passes(rules, chain, from, end) && partial == After(rules, chain, end, limit)
  }

  lemma PassesGrows<S>(rules: Rules<S>, chain: seq<Block>, from: Option<nat>, end: nat, target: nat)
    requires end <= target < |chain| && Passes(rules, chain, from, end)
    ensures end == 0 || PassesAt(rules, chain, from, end) ==> Passes(rules, chain, from, end + 1)
    ensures !(end == 0 || PassesAt(rules, chain, from, end)) ==> !Passes(rules, chain, from, target + 1)
  {
  }

  /** Apply the next stored block to the ledger of the blocks before it. */
  method ApplyStored<S>(block: Block, start: Option<Ledger<S>>, rules: Rules<S>, limit: nat, from: Option<nat>,
                        ghost chain: seq<Block>, ghost end: nat)
    returns (next: Result<Ledger<S>>)
    requires end < |chain| && block == chain[end] && start == After(rules, chain, end, limit)
    ensures next.Ok? <==> end == 0 || PassesAt(rules, chain, from, end)
    ensures next.Ok? ==> Some(next.value) == After(rules, chain, end + 1, limit)
  {
    ApplyNextReplays(rules, chain, end, limit, from);
    var applied := ApplyNext(rules, start, block, limit, from);
    return if applied.Err? then Err(applied.reason) else Ok(applied.value.value);
  }

  method ReplayBlock<S>(block: Block, start: Option<Ledger<S>>, rules: Rules<S>, limit: nat, from: Option<nat>,
                        target: nat, targetHash: Hash, ghost chain: seq<Block>, ghost end: nat)
    returns (p: Progress<S>)
    requires Linked(chain) && target < |chain| && chain[target].hash == targetHash
    requires end <= target && block == chain[end]
    requires Reports(More(start), rules, chain, end, limit, from, target)
    ensures Reports(p, rules, chain, end + 1, limit, from, target)
  {
    var next := ApplyStored(block, start, rules, limit, from, chain, end);
    PassesGrows(rules, chain, from, end, target);
    if next.Err? {
      return Rejected(next.reason);
    }
    TipOf(rules, chain, end + 1, limit);
    var window := next.value.window;
    var tip := window[|window| - 1];
    return if tip.height == target && tip.hash == targetHash then Reached(next.value) else More(Some(next.value));
  }

  /** Apply one segment's blocks, stopping at the target block. */
  method ReplaySegment<S>(blocks: seq<Block>, start: Option<Ledger<S>>, rules: Rules<S>, limit: nat, from: Option<nat>,
                          target: nat, targetHash: Hash, ghost chain: seq<Block>, ghost done: nat)
    returns (p: Progress<S>)
    requires Linked(chain) && target < |chain| && chain[target].hash == targetHash
    requires done + |blocks| <= |chain| && blocks == chain[done..done + |blocks|]
    requires Reports(More(start), rules, chain, done, limit, from, target)
    ensures Reports(p, rules, chain, done + |blocks|, limit, from, target)
  {
    p := More(start);
    var k := 0;
    while k < |blocks| && p.More?
      invariant k <= |blocks| && (p.More? || k > 0)
      invariant Reports(p, rules, chain, done + k, limit, from, target)
    {
      p := ReplayBlock(blocks[k], p.partial, rules, limit, from, target, targetHash, chain, done + k);
      k := k + 1;
    }
  }

  /** Stream the segments into a ledger until the target block is its tip. */
  method ReplaySegments<S>(n: pos, segments: SegmentTable, rules: Rules<S>, limit: nat, from: Option<nat>,
                           target: nat, targetHash: Hash, ghost chain: seq<Block>)
    returns (r: Result<Ledger<S>>)
    requires Linked(chain) && segments == SegmentsOf(chain, n)
    requires target < |chain| && chain[target].hash == targetHash
    ensures r.Ok? <==> Passes(rules, chain, from, target + 1)
    ensures r.Ok? ==> Some(r.value) == After(rules, chain, target + 1, limit)
  {
    var ledger: Option<Ledger<S>> := None;
    var id := 0;
    ghost var lo := 0;
    while true
      invariant lo == Start(id, n) && Reports(More(ledger), rules, chain, lo, limit, from, target)
      decreases target + 1 - lo
    {
      var segment := LoadChainSegment(n, segments, id, chain);
      ghost var hi := lo + |segment.value|;
      var progress := ReplaySegment(segment.value, ledger, rules, limit, from, target, targetHash, chain, lo);
      assert progress.More? ==> hi == lo + n;
      match progress {
        case Reached(final) => return Ok(final);
        case Rejected(reason) => return Err(reason);
        case More(partial) => ledger := partial;
      }
      id, lo := id + 1, lo + n;
    }
  }

  /** Which stored block a load aims at: the given one if it is indexed there, else nothing. */
  ghost predicate TargetStored(chain: seq<Block>, target: Option<(nat, Hash)>) {
    chain != [] && (target.Some? ==> target.value.0 < |chain| && chain[target.value.0].hash == target.value.1)
  }

  ghost function TargetHeight(chain: seq<Block>, target: Option<(nat, Hash)>): nat
    requires chain != []
  {
    if target.Some? then target.value.0 else |chain| - 1
  }

  method LoadReplayed<S>(store: Store.ChainStore, rules: Rules<S>, residentBlocks: nat,
                         target: Option<(nat, Hash)>)
    returns (r: Result<Option<Loaded<S>>>)
    requires store.Valid()
    ensures r == Ok(None) <==> !TargetStored(store.contents, target)
    ensures TargetStored(store.contents, target) ==>
              var chain := store.contents;
              var height := TargetHeight(chain, target);
              var from := RevalidationFromHeight(RulesetOf(store.verification, chain[|chain| - 1].hash));
              && (r.Ok? <==> Passes(rules, chain, from, height + 1))
              && (r.Ok? ==> r.value == Some(Loaded(
                    Ledger(Replay(rules, chain[..height + 1]), Retain(chain[..height + 1], residentBlocks)), from)))
  {
    if store.meta.None? {
      return Ok(None);
    }
    var meta := store.meta.value;
    var height := if target.Some? then target.value.0 else meta.height;
    var hash := if target.Some? then target.value.1 else meta.tipHash;
    if height > meta.height {
      return Ok(None);
    }
    var indexed := HeightOfHash(store.index, hash, store.contents, store.n);
    if indexed != Some(height) {
      if height < |store.contents| && store.contents[height].hash == hash {
        SameHashSamePrefix(store.contents, store.contents, height, indexed.value);
        assert false;
      }
      return Ok(None);
    }
    var from := RevalidationFromHeight(RulesetOf(store.verification, meta.tipHash));
    var replayed := ReplaySegments(store.n, store.segments, rules, residentBlocks, from, height, hash, store.contents);
    if replayed.Err? {
      return Err(replayed.reason);
    }
    return Ok(Some(Loaded(replayed.value, from)));
  }

  /** Load the state at the stored tip, or at one stored block. A target that is not indexed at its
      height yields nothing; otherwise the load succeeds exactly when every replayed block passes,
      and yields the replayed state with genesis and the last `residentBlocks` blocks. Which blocks
      must prove again depends on the stored marker alone. */
  method LoadBoundedLedgerThrough<S>(store: Store.ChainStore, rules: Rules<S>, residentBlocks: nat,
                                     target: Option<(nat, Hash)>)
    returns (r: Result<Option<Loaded<S>>>)
    requires store.Valid()
    ensures r == Ok(None) <==> !TargetStored(store.contents, target)
    ensures TargetStored(store.contents, target) ==>
              var chain := store.contents;
              var height := TargetHeight(chain, target);
              var from := RevalidationFromHeight(RulesetOf(store.verification, chain[|chain| - 1].hash));
              && (r.Ok? <==> Passes(rules, chain, from, height + 1))
              && (r.Ok? ==> r.value == Some(Loaded(
                    Ledger(Replay(rules, chain[..height + 1]), Retain(chain[..height + 1], residentBlocks)), from)))
    ensures TargetStored(store.contents, target) ==>
              var chain, row := store.contents, store.verification;
              var end, tip := TargetHeight(chain, target) + 1, chain[|chain| - 1].hash;
              && (MarkedAs(row, tip, "iuna-consensus-v3") ==> (r.Ok? <==> ProvedFrom(rules, chain, end, end)))
              && (MarkedAs(row, tip, "iuna-consensus-v2") ==> (r.Ok? <==> ProvedFrom(rules, chain, 4_750, end)))
              && (MarkedAs(row, tip, "iuna-consensus-v1") || MarkedAs(row, tip, "0.4.10") ==>
                    (r.Ok? <==> ProvedFrom(rules, chain, 4_500, end)))
              && (!MarkedAs(row, tip, "iuna-consensus-v3") && !MarkedAs(row, tip, "iuna-consensus-v2")
                  && !MarkedAs(row, tip, "iuna-consensus-v1") && !MarkedAs(row, tip, "0.4.10") ==>
                    (r.Ok? <==> ProvedFrom(rules, chain, 1, end)))
  {
    r := LoadReplayed(store, rules, residentBlocks, target);
    if TargetStored(store.contents, target) {
      var chain := store.contents;
      MarkerIsTrustedFor(rules, chain, store.verification, chain[|chain| - 1].hash, TargetHeight(chain, target) + 1);
    }
  }

  /** Reopening a chain saved in full: after a verified save no block needs its proof, after an
      unverified one every block does. */
  method ReopenAfterSave<S>(store: Store.ChainStore, snapshot: Snapshot, verified: bool, rules: Rules<S>,
                            residentBlocks: nat)
    returns (r: Result<Option<Loaded<S>>>)
    requires store.Recoverable() && Linked(snapshot.blocks) && snapshot.blocks != []
    modifies store
    ensures var chain := snapshot.blocks;
            && (r.Ok? <==> ProvedFrom(rules, chain, if verified then |chain| else 1, |chain|))
            && (r.Ok? ==> r.value.Some?)
            && (r.Ok? ==> r.value.value.ledger == Ledger(Replay(rules, chain), Retain(chain, residentBlocks)))
  {
    var saved := store.SaveWithVerificationStatus(snapshot, verified);
    assert snapshot.blocks[..|snapshot.blocks|] == snapshot.blocks;
    r := LoadBoundedLedgerThrough(store, rules, residentBlocks, None);
  }

  /** A chain whose marker vouches for its tip under the current rules loads without any proof. */
  method ReopenMarked<S>(store: Store.ChainStore, rules: Rules<S>, residentBlocks: nat)
    returns (r: Result<Option<Loaded<S>>>)
    requires store.Valid() && store.contents != []
    requires MarkedAs(store.verification, store.contents[|store.contents| - 1].hash, "iuna-consensus-v3")
    ensures var chain := store.contents;
            && (r.Ok? <==> ProvedFrom(rules, chain, |chain|, |chain|))
            && (r.Ok? ==> r.value.Some?)
            && (r.Ok? ==> r.value.value.ledger == Ledger(Replay(rules, chain), Retain(chain, residentBlocks)))
  {
    ghost var chain := store.contents;
    assert chain[..|chain|] == chain;
    r := LoadBoundedLedgerThrough(store, rules, residentBlocks, None);
  }

  /** Reopening after a resident save: the spliced chain is loaded, and no block needs its proof. */
  method ReopenAfterResidentSave<S>(store: Store.ChainStore, snapshot: Snapshot, rules: Rules<S>, residentBlocks: nat)
    returns (r: Result<Option<Loaded<S>>>, ghost chain: seq<Block>)
    requires store.Valid() && Store.LedgerBlocks(snapshot.blocks)
    requires Store.ResidentAccepts(store.contents, store.StoredHeader(), snapshot)
    modifies store
    ensures chain == Store.ResidentResult(old(store.contents), snapshot) && chain != []
    ensures r.Ok? <==> ProvedFrom(rules, chain, |chain|, |chain|)
    ensures r.Ok? ==>
              r.value.Some? && r.value.value.ledger == Ledger(Replay(rules, chain), Retain(chain, residentBlocks))
  {
    chain := Store.ResidentResult(store.contents, snapshot);
    var saved := store.SaveVerifiedResident(snapshot);
    r := ReopenMarked(store, rules, residentBlocks);
  }
}
