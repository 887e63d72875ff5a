/** The node and its chain database as objects. Every operation of the two performs steps of the
    protocol, so what is proved over its runs holds of them. */
module NodeSystem {
  import opened Results
  import opened Chain
  import opened ChainTables
  import opened ChainReads
  import opened BoundedLoader
  import opened NodeLifecycle
  import opened NodeProtocol
  import Store = ChainStore

  /** A bounded ledger loaded at a common ancestor. */
  datatype ForkBase = ForkBase(window: seq<Block>, pruned: bool)

  /** What the save in flight leaves in memory. */
  ghost predicate InPhase(phase: Phase, snapshot: Option<Snapshot>, saved: Option<Tip>, header: Header,
                          stored: seq<Block>) {
    match phase
    case Idle => snapshot.None? && saved.None?
    case Snapped(snap, start) =>
      && Linked(snap) && WindowFits(snap, start)
      && snapshot == Some(Snapshot(header, Window(snap, start))) && saved.None?
    case Committed => snapshot.None? && stored != [] && saved == Some(TipOfChain(stored))
  }

  ghost predicate IsBase(base: Option<Base>, loaded: Option<ForkBase>) {
    match base
    case None => loaded.None?
    case Some(b) =>
      && Linked(b.chain) && WindowFits(b.chain, b.start)
      && loaded == Some(ForkBase(Window(b.chain, b.start), b.start > 1))
  }

  class NodeSystem {
    const header: Header
    const core: NodeCore
    const store: Store.ChainStore
    var snapshot: Option<Snapshot>
    var saved: Option<Tip>
    var loaded: Option<ForkBase>
    /** The protocol's phase and fork base. */
    ghost var phase: Phase
    ghost var base: Option<Base>

    /** The protocol state the objects stand for. */
    ghost function Abstract(): State
      reads this, core, store
    {
      State(header, core.live, core.tailStart, core.bounded, core.persistedTip, store.contents, phase, base)
    }

    ghost predicate Valid()
      reads this, core, store
    {
      && core.Valid() && store.Valid()
      && store.StoredHeader() == StoredHeader(Abstract())
      && InPhase(phase, snapshot, saved, header, store.contents)
      && IsBase(base, loaded)
    }

    /** A node over an empty database. */
    constructor (header: Header, genesis: seq<Block>, n: Segments.pos)
      requires Linked(genesis) && genesis != []
      ensures Valid() && fresh(core) && fresh(store) && Init(Abstract())
      ensures core.live == genesis && store.contents == []
    {
      this.header := header;
      core := new NodeCore(genesis);
      store := new Store.ChainStore(n);
      snapshot, saved, loaded, phase, base := None, None, None, Idle, None;
    }

    method ApplyBlock(block: Block)
      requires Valid() && Linked(core.live + [block])
      modifies core
      ensures Valid() && Abstract() == Apply(old(Abstract()), Extend(block), RESIDENT_CHAIN_BLOCKS)
    {
      core.AppendBlock(block);
    }

    /** Replace everything above a resident ancestor; a page whose ancestor is not resident is refused.
        From genesis the page is a complete chain. */
    method Reorganize(suffix: seq<Block>) returns (r: Outcome)
      requires Valid() && Extension(suffix)
      modifies core
      ensures r.Fail? <==> forall i :: 0 <= i < |old(core.window)| ==> old(core.window)[i].hash != suffix[0].prevHash
      ensures r.Fail? ==> unchanged(core)
      ensures r.Pass? ==> Valid()
      ensures r.Pass? ==>
                var s, fork := old(Abstract()), suffix[0].height;
                var step := if fork == 1 then ImportComplete(s.live[..1] + suffix) else ReorgResident(fork, suffix);
                Enabled(s, step, RESIDENT_CHAIN_BLOCKS) && Abstract() == Apply(s, step, RESIDENT_CHAIN_BLOCKS)
    {
      r := core.Reorganize(suffix);
    }

    /** Rebuild the state at a stored ancestor, with a bounded window, by streaming the segments. */
    method LoadForkBase<S>(ancestor: Hash, rules: Rules<S>) returns (r: Outcome)
      requires Valid()
      modifies this`loaded, this`base
      ensures r.Fail? ==> unchanged(this)
      ensures r.Fail? ==> forall h: nat {:trigger store.contents[h]} ::
                h < |store.contents| && store.contents[h].hash == ancestor ==>
                  !ProvedFrom(rules, store.contents, 1, h + 1)
      ensures r.Pass? ==> Valid() && base.Some? && base.value.chain[|base.value.chain| - 1].hash == ancestor
      ensures r.Pass? ==>
                var s, step := old(Abstract()), LoadBase(|base.value.chain|, base.value.start);
                Enabled(s, step, RESIDENT_CHAIN_BLOCKS) && Abstract() == Apply(s, step, RESIDENT_CHAIN_BLOCKS)
    {
      var window; ghost var h;
      window, h := LoadWindow(store, ancestor, rules);
      if window.None? {
        return Fail("fork history unavailable");
      }
      ghost var start := BaseWindow(store.contents, h + 1, window.value);
      var blocks := window.value;
      loaded := Some(ForkBase(blocks, blocks[|blocks| - 1].height + 1 > |blocks|));
      base := Some(Base(store.contents[..h + 1], start));
      return Pass;
    }

    /** Adopt a fork validated on the loaded base. */
    method ImportFork(suffix: seq<Block>)
      requires Valid() && loaded.Some? && Extension(suffix)
      requires suffix[0].prevHash == loaded.value.window[|loaded.value.window| - 1].hash
      modifies this`loaded, this`base, core
      ensures Valid()
      ensures Enabled(old(Abstract()), NodeProtocol.Step.ImportFork(suffix), RESIDENT_CHAIN_BLOCKS)
      ensures Abstract() ==
              Apply(old(Abstract()), NodeProtocol.Step.ImportFork(suffix), RESIDENT_CHAIN_BLOCKS)
    {
      ghost var chain := base.value.chain;
      assert loaded.value.window[|loaded.value.window| - 1] == chain[|chain| - 1];
      ExtensionLinks(chain, suffix, |chain| - 1);
      assert chain[..|chain| - 1 + 1] == chain;
      core.Adopt(loaded.value.window + suffix, loaded.value.pruned, chain + suffix, base.value.start);
      loaded, base := None, None;
    }

    method KeepHistory()
      requires Valid()
      modifies core
      ensures Valid() && Abstract() == Apply(old(Abstract()), SetBounded(false), RESIDENT_CHAIN_BLOCKS)
    {
      core.KeepCompleteChainHistory();
    }

    method BoundHistory()
      requires Valid()
      modifies core
      ensures Valid()
      ensures Abstract() ==
              Apply(Apply(old(Abstract()), SetBounded(true), RESIDENT_CHAIN_BLOCKS), Prune, RESIDENT_CHAIN_BLOCKS)
    {
      core.BoundResidentChainHistory();
    }

    method PruneHistory()
      requires Valid()
      modifies core
      ensures Valid() && Abstract() == Apply(old(Abstract()), Prune, RESIDENT_CHAIN_BLOCKS)
    {
      core.PrunePersistedHistory();
    }

    /** Reattach the stored chain. A store of genesis alone is the exception: see `Gap`. */
    method RestoreHistory(trusted: Replayer) returns (r: Result<bool>)
      requires Valid() && Trusts(trusted, core.live) && !Gap(store.contents, core.tailStart)
      modifies core
      ensures Valid()
      ensures r == Ok(true) && old(core.tailStart) > 1 ==>
                && Enabled(old(Abstract()), Restore, RESIDENT_CHAIN_BLOCKS)
                && Abstract() == Apply(old(Abstract()), Restore, RESIDENT_CHAIN_BLOCKS)
      ensures r != Ok(true) || old(core.tailStart) == 1 ==> Abstract() == old(Abstract())
    {
      var complete := LoadSegmentedSnapshot(store);
      if complete.None? {
        return Err("cannot restore chain history because the persisted chain is unavailable");
      }
      r := core.RestoreCompleteChainHistory(complete.value.blocks, trusted);
    }

    method TakeSnapshot()
      requires Valid() && phase.Idle?
      modifies this`snapshot, this`phase
      ensures Valid()
      ensures Abstract() == Apply(old(Abstract()), NodeProtocol.Step.TakeSnapshot, RESIDENT_CHAIN_BLOCKS)
    {
      snapshot := Some(Snapshot(header, core.window));
      phase := Snapped(core.live, core.tailStart);
    }

    /** Hand the snapshot to the database; it is stored exactly if the protocol allows the commit. */
    method Commit() returns (r: Outcome)
      requires Valid() && phase.Snapped?
      modifies this`snapshot, this`saved, this`phase, store
      ensures Valid()
      ensures r.Pass? <==> Enabled(old(Abstract()), NodeProtocol.Step.Commit, RESIDENT_CHAIN_BLOCKS)
      ensures r.Pass? ==>
                Abstract() == Apply(old(Abstract()), NodeProtocol.Step.Commit, RESIDENT_CHAIN_BLOCKS)
      ensures r.Fail? ==> Abstract() == Apply(old(Abstract()), CommitFails, RESIDENT_CHAIN_BLOCKS)
    {
      CommitOutcome(Abstract());
      r, saved := SaveWindow(store, snapshot.value, phase.snap, phase.snapStart);
      snapshot, phase := None, if r.Pass? then Committed else Idle;
    }

    /** Tell the node what is committed; it prunes behind it. */
    method MarkPersisted()
      requires Valid() && phase.Committed?
      modifies this`saved, this`phase, core
      ensures Valid()
      ensures Abstract() == Apply(Apply(old(Abstract()), Mark, RESIDENT_CHAIN_BLOCKS), Prune, RESIDENT_CHAIN_BLOCKS)
    {
      core.MarkChainPersisted(saved.value.height, saved.value.hash);
      saved, phase := None, Idle;
    }

    /** Snapshot and commit in a row. */
    method SaveLive()
      requires Valid() && phase.Idle? && Inv(Abstract())
      modifies this`snapshot, this`saved, this`phase, store
      ensures Valid() && Abstract() == old(Abstract()).(stored := core.live, phase := Committed)
      ensures Inv(Abstract())
    {
      ghost var s := Abstract();
      SnapshotCommits(s, s.(phase := Snapped(s.live, s.tailStart)));
      TakeSnapshot();
      var committed := Commit();
    }

    /** One undisturbed tick of the persistence loop, from any state a careful run reaches: the save goes
        through, the database then holds the complete live chain, and a bounded node keeps a full window. */
    method PersistTick()
      requires Valid() && phase.Idle? && Inv(Abstract())
      modifies this, core, store
      ensures Valid() && phase.Idle? && Inv(Abstract())
      ensures core.live == old(core.live) && store.contents == core.live
      ensures core.persistedTip == Some(TipOfChain(core.live))
      ensures core.bounded ==> |core.window| - 1 <= RESIDENT_CHAIN_BLOCKS
      ensures core.tailStart > old(core.tailStart) ==> |core.window| - 1 == RESIDENT_CHAIN_BLOCKS
    {
      ghost var s := Abstract();
      SaveLive();
      ghost var marked := s.(stored := s.live, persisted := Some(TipOfChain(s.live)));
      MarkKeepsInv(s.(stored := s.live, phase := Committed), marked);
      PruneAfterMark(marked);
      MarkPersisted();
    }
  }

  /** A snapshot is committed exactly if the database carries the parent of its tail; its chain is then
      the stored one. */
  lemma CommitOutcome(s: State)
    requires s.phase.Snapped? && Linked(s.stored) && Linked(s.phase.snap) && WindowFits(s.phase.snap, s.phase.snapStart)
    ensures Enabled(s, Commit, RESIDENT_CHAIN_BLOCKS) <==> CarriesParent(s.stored, s.phase.snap, s.phase.snapStart)
    ensures Enabled(s, Commit, RESIDENT_CHAIN_BLOCKS) ==>
              Apply(s, Commit, RESIDENT_CHAIN_BLOCKS) == s.(stored := s.phase.snap, phase := Committed)
  {
    SaveOfWindow(s, s.phase.snap, s.phase.snapStart);
  }

  lemma SnapshotCommits(s: State, taken: State)
    requires Inv(s) && s.phase.Idle? && taken == s.(phase := Snapped(s.live, s.tailStart))
    ensures Inv(taken) && Enabled(taken, Commit, RESIDENT_CHAIN_BLOCKS)
    ensures Apply(taken, Commit, RESIDENT_CHAIN_BLOCKS) == s.(stored := s.live, phase := Committed)
    ensures Inv(s.(stored := s.live, phase := Committed))
  {
    StepKeepsInv(s, TakeSnapshot, RESIDENT_CHAIN_BLOCKS);
    NextSaveAccepted(taken);
    SaveOfWindow(taken, s.live, s.tailStart);
    ParentDecidesAgreement(s.stored, s.live, s.tailStart);
    StepKeepsInv(taken, Commit, RESIDENT_CHAIN_BLOCKS);
  }

  lemma MarkKeepsInv(committed: State, marked: State)
    requires Inv(committed) && committed.phase.Committed?
    requires marked == committed.(persisted := Some(TipOfChain(committed.stored)), phase := Idle)
    ensures Inv(marked)
  {
    StepKeepsInv(committed, Mark, RESIDENT_CHAIN_BLOCKS);
  }

  lemma PruneAfterMark(marked: State)
    requires Inv(marked) && marked.phase.Idle? && marked.live != [] && marked.persisted == Some(TipOfChain(marked.live))
    ensures var start := Apply(marked, Prune, RESIDENT_CHAIN_BLOCKS).tailStart;
            && Inv(marked.(tailStart := start))
            && (marked.bounded ==> |marked.live| - start <= RESIDENT_CHAIN_BLOCKS)
            && (start > marked.tailStart ==> |marked.live| - start == RESIDENT_CHAIN_BLOCKS)
  {
    StepKeepsInv(marked, Prune, RESIDENT_CHAIN_BLOCKS);
    PruneKeepsWindow(marked, RESIDENT_CHAIN_BLOCKS);
  }

  /** Saving a window stores its whole chain, exactly if the database carries the parent of its tail. */
  method SaveWindow(store: Store.ChainStore, snapshot: Snapshot, ghost snap: seq<Block>, ghost start: nat)
    returns (r: Outcome, tip: Option<Tip>)
    requires store.Valid() && Linked(snap) && WindowFits(snap, start) && snapshot.blocks == Window(snap, start)
    requires store.contents != [] ==> store.StoredHeader() == Some(snapshot.header)
    modifies store
    ensures store.Valid()
    ensures r.Pass? <==> CarriesParent(old(store.contents), snap, start)
    ensures r.Pass? ==> store.contents == snap && store.StoredHeader() == Some(snapshot.header)
    ensures r.Pass? ==> tip == Some(TipOfChain(snap))
    ensures r.Fail? ==> unchanged(store) && tip.None?
  {
    ghost var s := State(snapshot.header, snap, start, false, None, store.contents, Idle, None);
    WindowBlocks(snap, start);
    SaveOfWindow(s, snap, start);
    assert store.StoredHeader() == StoredHeader(s);
    r := store.SaveVerifiedResident(snapshot);
    tip := None;
    if r.Pass? {
      var last := snapshot.blocks[|snapshot.blocks| - 1];
      assert LinkedAt(snap, |snap| - 1) && last == snap[|snap| - 1];
      tip := Some(Tip(last.height, last.hash));
    }
  }

  /** The bounded window at a stored ancestor. */
  method LoadWindow<S>(store: Store.ChainStore, ancestor: Hash, rules: Rules<S>)
    returns (window: Option<seq<Block>>, ghost h: nat)
    requires store.Valid()
    ensures window.Some? ==> h < |store.contents| && store.contents[h].hash == ancestor
    ensures window.Some? ==> window.value == Retain(store.contents[..h + 1], RESIDENT_CHAIN_BLOCKS)
    ensures window.None? ==> forall k: nat {:trigger store.contents[k]} ::
              k < |store.contents| && store.contents[k].hash == ancestor ==>
                !ProvedFrom(rules, store.contents, 1, k + 1)
  {
    var block := BlockByHash(store, ancestor);
    if block.None? {
      return None, 0;
    }
    ghost var chain := store.contents;
    h :| h < |chain| && chain[h] == block.value;
    assert LinkedAt(chain, h);
    var r := LoadBoundedLedgerThrough(store, rules, RESIDENT_CHAIN_BLOCKS, Some((block.value.height, ancestor)));
    if r.Err? {
      FailureIsUnproved(rules, chain, store.verification, h + 1);
      forall k: nat | k < |chain| && chain[k].hash == ancestor
        ensures k == h
      {
        SameHashSamePrefix(chain, chain, k, h);
      }
      return None, h;
    }
    return Some(r.value.value.ledger.window), h;
  }

  /** A load that fails has met a block that is not accepted or does not prove. */
  lemma FailureIsUnproved<S>(rules: Rules<S>, chain: seq<Block>, row: Option<VerificationRow>, end: nat)
    requires Linked(chain) && end <= |chain| && chain != []
    requires !Passes(rules, chain, RevalidationFromHeight(RulesetOf(row, chain[|chain| - 1].hash)), end)
    ensures !ProvedFrom(rules, chain, 1, end)
  {
    var i :| 0 < i < end
             && !PassesAt(rules, chain, RevalidationFromHeight(RulesetOf(row, chain[|chain| - 1].hash)), i);
    assert chain[i] == chain[i];
  }

  /** What the loader keeps of a prefix is a window of it. */
  lemma BaseWindow(stored: seq<Block>, end: nat, window: seq<Block>) returns (start: nat)
    requires Linked(stored) && 0 < end <= |stored| && window == Retain(stored[..end], RESIDENT_CHAIN_BLOCKS)
    ensures Linked(stored[..end]) && WindowFits(stored[..end], start) && window == Window(stored[..end], start)
    ensures window[|window| - 1].height + 1 > |window| <==> start > 1
  {
    var chain := stored[..end];
    LinkedPrefix(stored, end);
    assert Window(chain, 1) == chain;
    RetainIsPrunedStart(chain, 1, RESIDENT_CHAIN_BLOCKS);
    start := if |chain| - 1 <= RESIDENT_CHAIN_BLOCKS then 1 else |chain| - RESIDENT_CHAIN_BLOCKS;
    assert LinkedAt(chain, end - 1) && window[|window| - 1] == chain[end - 1];
  }
}
