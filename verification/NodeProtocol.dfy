/** The node and its store as one step system: the persistence loop's snapshot, commit and mark are
    separate steps, so are loading a fork base from the store and importing the fork, and blocks, reorgs
    and pruning interleave with them freely. */
module NodeProtocol {
  import opened Results
  import opened Chain
  import opened ChainTables
  import opened NodeLifecycle
  import Store = ChainStore

  datatype Phase =
    | Idle
    | Snapped(snap: seq<Block>, snapStart: nat)
    | Committed

  /** A chain rebuilt from the store up to a common ancestor, with its window start. */
  datatype Base = Base(chain: seq<Block>, start: nat)

  /** `stored` is the chain the tables hold; `header` is the fixed identity of the network; `base` is
      a fork base loaded and not yet used. */
  datatype State = State(
    header: Header,
    live: seq<Block>,
    tailStart: nat,
    bounded: bool,
    persisted: Option<Tip>,
    stored: seq<Block>,
    phase: Phase,
    base: Option<Base>)

  datatype Step =
    | Extend(block: Block)
    | ReorgResident(fork: nat, suffix: seq<Block>)
    | LoadBase(fork: nat, start: nat)
    | ImportFork(suffix: seq<Block>)
    | ImportComplete(chain: seq<Block>)
    | SetBounded(bounded: bool)
    | Prune
    | Restore
    | TakeSnapshot
    | Commit
    | CommitFails
    | Mark

  function TipOfChain(chain: seq<Block>): Tip
    requires chain != []
  {
    Tip(|chain| - 1, chain[|chain| - 1].hash)
  }

  /** The snapshot the persistence loop hands to the store. */
  function SnapshotOf(s: State, chain: seq<Block>, start: nat): Snapshot
    requires 1 <= start <= |chain|
  {
    Snapshot(s.header, Window(chain, start))
  }

  ghost function StoredHeader(s: State): Option<Header> {
    if s.stored == [] then None else Some(s.header)
  }

  ghost predicate Enabled(s: State, step: Step, resident: nat) {
    match step
    case Extend(block) => Linked(s.live + [block])
    case ReorgResident(fork, suffix) =>
      s.tailStart <= fork <= |s.live| && suffix != [] && Linked(s.live[..fork] + suffix)
    case LoadBase(fork, start) => 1 <= start <= fork <= |s.stored|
    case ImportFork(suffix) => s.base.Some? && suffix != [] && Linked(s.base.value.chain + suffix)
    case ImportComplete(chain) => chain != [] && Linked(chain)
    case SetBounded(_) => true
    case Prune => true
    case Restore => s.stored != [] && s.stored <= s.live
    case TakeSnapshot => s.phase.Idle?
    case Commit =>
      && s.phase.Snapped? && 1 <= s.phase.snapStart <= |s.phase.snap|
      && Store.ResidentAccepts(s.stored, StoredHeader(s), SnapshotOf(s, s.phase.snap, s.phase.snapStart))
    case CommitFails => s.phase.Snapped?
    case Mark => s.phase.Committed? && s.stored != []
  }

  ghost function Apply(s: State, step: Step, resident: nat): State
    requires Enabled(s, step, resident)
  {
    match step
    case Extend(block) => s.(live := s.live + [block])
    case ReorgResident(fork, suffix) => s.(live := s.live[..fork] + suffix)
    case LoadBase(fork, start) => s.(base := Some(Base(s.stored[..fork], start)))
    case ImportFork(suffix) => s.(live := s.base.value.chain + suffix, tailStart := s.base.value.start, base := None)
    case ImportComplete(chain) => s.(live := chain, tailStart := 1)
    case SetBounded(b) => s.(bounded := b)
    case Prune => s.(tailStart := PrunedStart(s.live, s.tailStart, s.bounded, s.persisted, resident))
    case Restore => s.(tailStart := 1)
    case TakeSnapshot => s.(phase := Snapped(s.live, s.tailStart))
    case Commit =>
      s.(stored := Store.ResidentResult(s.stored, SnapshotOf(s, s.phase.snap, s.phase.snapStart)), phase := Committed)
    case CommitFails => s.(phase := Idle)
    case Mark => s.(persisted := Some(TipOfChain(s.stored)), phase := Idle)
  }

  // ----- what holds in every reachable state

  /** The store agrees with `chain` at every height below `start`, if anything is pruned there. */
  ghost predicate AgreesBelow(stored: seq<Block>, chain: seq<Block>, start: nat) {
    1 < start ==> start <= |stored| && start <= |chain| && stored[..start] == chain[..start]
  }

  ghost predicate Inv(s: State) {
    && Linked(s.live) && WindowFits(s.live, s.tailStart)
    && Linked(s.stored)
    && AgreesBelow(s.stored, s.live, s.tailStart)
    && (s.base.Some? ==> Linked(s.base.value.chain) && 1 <= s.base.value.start <= |s.base.value.chain|)
    && (s.phase.Committed? ==> s.stored != [])
    && (!s.phase.Committed? && s.persisted.Some? ==> s.stored != [] && s.persisted.value == TipOfChain(s.stored))
    && (s.phase.Snapped? ==>
          && Linked(s.phase.snap) && WindowFits(s.phase.snap, s.phase.snapStart)
          && AgreesBelow(s.stored, s.phase.snap, s.phase.snapStart)
          && AgreesBelow(s.phase.snap, s.live, s.tailStart))
  }

  ghost predicate Init(s: State) {
    && Linked(s.live) && WindowFits(s.live, s.tailStart) && s.phase.Idle? && s.base.None?
    && ((s.stored == [] && s.tailStart == 1 && s.persisted == None)
        || (s.stored == s.live && (s.persisted == None || s.persisted == Some(TipOfChain(s.live)))))
  }

  /** The chain a save in flight is about to make, or has just made, the stored one. */
  function InFlight(s: State): seq<Block>
    requires !s.phase.Idle?
  {
    if s.phase.Snapped? then s.phase.snap else s.stored
  }

  /** What a node can check before a step. Pruning while a save is in flight: a persisted tip that
      would be pruned behind is on the chain being saved. Importing a fork: its last block below the
      window is still the stored one, and the one of the chain being saved. Nothing else is asked. */
  ghost predicate Careful(s: State, step: Step) {
    match step
    case Prune =>
      !s.phase.Idle? && s.bounded && TipResident(s.live, s.tailStart, s.persisted) ==>
        CarriesTip(InFlight(s), s.persisted.value)
    case ImportFork(_) =>
      s.base.Some? && 1 < s.base.value.start ==>
        && CommonAt(s.base.value.chain, s.stored, s.base.value.start - 1)
        && (!s.phase.Idle? ==> CommonAt(s.base.value.chain, InFlight(s), s.base.value.start - 1))
    case _ => true
  }

  ghost predicate CarriesTip(chain: seq<Block>, tip: Tip) {
    tip.height < |chain| && chain[tip.height].hash == tip.hash
  }

  /** What careful steps keep: while a save is in flight, what is no longer resident is on the chain
      being saved. */
  ghost predicate Benign(s: State) {
    !s.phase.Idle? ==> CarriesParent(InFlight(s), s.live, s.tailStart)
  }

  ghost predicate CarriesParent(chain: seq<Block>, live: seq<Block>, start: nat) {
    1 < start ==> start < |live| && start <= |chain| && chain[start - 1].hash == live[start].prevHash
  }

  /** One hash comparison at the window's edge decides agreement at every height below it. */
  lemma ParentDecidesAgreement(chain: seq<Block>, live: seq<Block>, start: nat)
    requires Linked(chain) && Linked(live) && WindowFits(live, start)
    ensures CarriesParent(chain, live, start) <==> AgreesBelow(chain, live, start)
  {
    if 1 < start {
      assert LinkedAt(live, start);
      if start <= |chain| {
        if chain[start - 1].hash == live[start - 1].hash {
          SameHashSamePrefix(chain, live, start - 1, start - 1);
        } else {
          assert chain[..start][start - 1] != live[..start][start - 1];
        }
      }
    }
  }

  lemma WindowBlocks(live: seq<Block>, start: nat)
    requires Linked(live) && WindowFits(live, start)
    ensures Store.LedgerBlocks(Window(live, start))
    ensures Store.IsFull(Window(live, start)) <==> start == 1
    ensures start == 1 ==> Window(live, start) == live
    ensures start > 1 ==> Store.Contiguous(Window(live, start)[1..])
  {
    var window := Window(live, start);
    forall i | 0 <= i < |window|
      ensures Sealed(window[i])
      ensures window[i].height == (if i == 0 then 0 else start + i - 1)
      ensures i == 0 ==> window[i].prevHash == Zero
      ensures 0 < i && (i > 1 || start == 1) ==> window[i].prevHash == ParentHash(window, i)
    {
      assert LinkedAt(live, 0) && (i > 0 ==> LinkedAt(live, start + i - 1));
    }
    if start > 1 {
      assert window[1].height != 1;
      var tail := window[1..];
      forall i | 0 < i < |tail|
        ensures tail[i].height == tail[i - 1].height + 1 && tail[i].prevHash == ParentHash(tail, i)
      {
        assert tail[i] == window[i + 1] && tail[i - 1] == window[i];
        assert ParentHash(tail, i) == ParentHash(window, i + 1);
      }
    }
  }

  /** Saving a window succeeds exactly when the stored chain carries the parent of its tail, and the
      stored chain then is the complete chain of that window if it agreed below. */
  lemma SaveOfWindow(s: State, chain: seq<Block>, start: nat)
    requires Linked(s.stored) && Linked(chain) && WindowFits(chain, start)
    ensures Store.ResidentAccepts(s.stored, StoredHeader(s), SnapshotOf(s, chain, start)) <==>
            CarriesParent(s.stored, chain, start)
    ensures CarriesParent(s.stored, chain, start) ==>
            Store.ResidentResult(s.stored, SnapshotOf(s, chain, start)) == chain
  {
    WindowBlocks(chain, start);
    if start > 1 {
      var window := Window(chain, start);
      assert LinkedAt(chain, start) && LinkedAt(chain, 0);
      assert window[1] == chain[start];
      if CarriesParent(s.stored, chain, start) {
        ParentDecidesAgreement(s.stored, chain, start);
        assert window[1..] == chain[start..];
      }
    }
  }

  /** In every state of the invariant the predecessor check of the next resident save passes. */
  lemma NextSaveAccepted(s: State)
    requires Inv(s)
    ensures Store.ResidentAccepts(s.stored, StoredHeader(s), SnapshotOf(s, s.live, s.tailStart))
    ensures s.phase.Snapped? ==>
              Store.ResidentAccepts(s.stored, StoredHeader(s), SnapshotOf(s, s.phase.snap, s.phase.snapStart))
  {
    ParentDecidesAgreement(s.stored, s.live, s.tailStart);
    SaveOfWindow(s, s.live, s.tailStart);
    if s.phase.Snapped? {
      ParentDecidesAgreement(s.stored, s.phase.snap, s.phase.snapStart);
      SaveOfWindow(s, s.phase.snap, s.phase.snapStart);
    }
  }

  /** Pruning stops at the persisted tip, so a chain that carries the tip agrees with what is pruned. */
  lemma PrunedStartBounds(live: seq<Block>, tailStart: nat, bounded: bool, tip: Option<Tip>, resident: nat)
    requires WindowFits(live, tailStart)
    ensures var start := PrunedStart(live, tailStart, bounded, tip, resident);
            && WindowFits(live, start) && tailStart <= start
            && (start > tailStart ==> TipResident(live, tailStart, tip) && start <= tip.value.height + 1)
  {
  }

  lemma TipCarriedAgrees(chain: seq<Block>, live: seq<Block>, tip: Tip, start: nat)
    requires Linked(chain) && Linked(live) && tip.height < |chain| && tip.height < |live|
    requires chain[tip.height].hash == tip.hash == live[tip.height].hash
    requires start <= tip.height + 1
    ensures AgreesBelow(chain, live, start)
  {
    SameHashSamePrefix(chain, live, tip.height, tip.height);
    assert chain[..start] == chain[..tip.height + 1][..start];
    assert live[..start] == live[..tip.height + 1][..start];
  }

  /** A pruning step leaves exactly the blocks above the persisted tip, or a full window if they are
      fewer, whenever it drops anything; and no more than that whenever it may prune. */
  lemma PruneKeepsWindow(s: State, resident: nat)
    requires WindowFits(s.live, s.tailStart)
    ensures var start := Apply(s, Prune, resident).tailStart;
            && s.tailStart <= start
            && (start > s.tailStart ==>
                  && s.bounded && TipResident(s.live, s.tailStart, s.persisted)
                  && |s.live| - start == Max(|s.live| - 1 - s.persisted.value.height, Max(resident, 1)))
            && (s.bounded && TipResident(s.live, s.tailStart, s.persisted) ==>
                  |s.live| - start <= Max(|s.live| - 1 - s.persisted.value.height, Max(resident, 1)))
  {
    PrunedStartKeeps(s.live, s.tailStart, s.bounded, s.persisted, resident);
  }

  lemma InitHolds(s: State)
    requires Init(s)
    ensures Inv(s)
  {
  }

  /** Every step but pruning and importing a fork leaves no less in memory than before. */
  lemma BenignUnlessPruning(s: State, step: Step, resident: nat)
    requires Inv(s) && Enabled(s, step, resident) && !step.Prune? && !step.ImportFork?
    ensures Benign(Apply(s, step, resident))
  {
    var s' := Apply(s, step, resident);
    if !s'.phase.Idle? && 1 < s'.tailStart {
      if step.Commit? {
        SaveOfWindow(s, s.phase.snap, s.phase.snapStart);
      }
      assert s'.live[..s'.tailStart] == s.live[..s'.tailStart];
      ParentDecidesAgreement(InFlight(s'), s'.live, s'.tailStart);
    }
  }

  /** While the chain being saved carries the persisted tip, pruning is harmless. */
  lemma BenignWhileTipCarried(s: State, resident: nat)
    requires Inv(s) && !s.phase.Idle? && s.persisted.Some? && CarriesTip(InFlight(s), s.persisted.value)
    ensures Benign(Apply(s, Prune, resident))
  {
    var s' := Apply(s, Prune, resident);
    PrunedStartBounds(s.live, s.tailStart, s.bounded, s.persisted, resident);
    if s'.tailStart > s.tailStart {
      TipCarriedAgrees(InFlight(s), s.live, s.persisted.value, s'.tailStart);
    }
    ParentDecidesAgreement(InFlight(s), s'.live, s'.tailStart);
  }

  lemma InvIsBenign(s: State)
    requires Inv(s)
    ensures Benign(s)
  {
    if !s.phase.Idle? {
      ParentDecidesAgreement(InFlight(s), s.live, s.tailStart);
    }
  }

  /** A fork whose base shares its last block below the window with a chain agrees with that chain. */
  lemma BaseShared(base: seq<Block>, suffix: seq<Block>, start: nat, chain: seq<Block>)
    requires Linked(base) && Linked(base + suffix) && Linked(chain) && suffix != []
    requires 1 < start <= |base| && CommonAt(base, chain, start - 1)
    ensures AgreesBelow(chain, base + suffix, start) && CarriesParent(chain, base + suffix, start)
  {
    var live := base + suffix;
    SameHashSamePrefix(base, chain, start - 1, start - 1);
    assert live[..start] == base[..start];
    ParentDecidesAgreement(chain, live, start);
  }

  lemma CarefulIsBenign(s: State, step: Step, resident: nat)
    requires Inv(s) && Enabled(s, step, resident) && Careful(s, step)
    ensures Benign(Apply(s, step, resident))
  {
    if step.Prune? {
      if s.bounded && TipResident(s.live, s.tailStart, s.persisted) && !s.phase.Idle? {
        BenignWhileTipCarried(s, resident);
      } else {
        InvIsBenign(s);
      }
    } else if step.ImportFork? {
      if !s.phase.Idle? && 1 < s.base.value.start {
        BaseShared(s.base.value.chain, step.suffix, s.base.value.start, InFlight(s));
      }
    } else {
      BenignUnlessPruning(s, step, resident);
    }
  }

  lemma PruneKeepsInv(s: State, resident: nat)
    requires Inv(s) && Benign(Apply(s, Prune, resident))
    ensures Inv(Apply(s, Prune, resident))
  {
    var s' := Apply(s, Prune, resident);
    PrunedStartBounds(s.live, s.tailStart, s.bounded, s.persisted, resident);
    if s.phase.Committed? {
      ParentDecidesAgreement(s.stored, s'.live, s'.tailStart);
    } else {
      if s'.tailStart > s.tailStart {
        TipCarriedAgrees(s.stored, s.live, s.persisted.value, s'.tailStart);
      }
      if s.phase.Snapped? {
        ParentDecidesAgreement(s.phase.snap, s'.live, s'.tailStart);
      }
    }
  }

  lemma ReorgKeepsInv(s: State, step: Step, resident: nat)
    requires Inv(s) && Enabled(s, step, resident) && Benign(Apply(s, step, resident))
    requires step.Extend? || step.ReorgResident? || step.ImportComplete?
    ensures Inv(Apply(s, step, resident))
  {
    var s' := Apply(s, step, resident);
    if !step.ImportComplete? && 1 < s'.tailStart {
      assert s'.live[..s'.tailStart] == s.live[..s'.tailStart];
      if s.phase.Snapped? {
        ParentDecidesAgreement(s.phase.snap, s'.live, s'.tailStart);
      }
    }
  }

  lemma ImportKeepsInv(s: State, step: Step, resident: nat)
    requires Inv(s) && Enabled(s, step, resident) && step.ImportFork? && Careful(s, step)
    ensures Inv(Apply(s, step, resident))
  {
    var base := s.base.value;
    if 1 < base.start {
      BaseShared(base.chain, step.suffix, base.start, s.stored);
      if s.phase.Snapped? {
        BaseShared(base.chain, step.suffix, base.start, s.phase.snap);
      }
    }
  }

  /** Every careful step keeps the invariant. */
  lemma StepKeepsInv(s: State, step: Step, resident: nat)
    requires Inv(s) && Enabled(s, step, resident) && Careful(s, step)
    ensures Inv(Apply(s, step, resident))
  {
    CarefulIsBenign(s, step, resident);
    match step
    case Extend(_) => ReorgKeepsInv(s, step, resident);
    case ReorgResident(_, _) => ReorgKeepsInv(s, step, resident);
    case ImportComplete(_) => ReorgKeepsInv(s, step, resident);
    case LoadBase(fork, _) => LinkedPrefix(s.stored, fork);
    case ImportFork(_) => ImportKeepsInv(s, step, resident);
    case Prune => PruneKeepsInv(s, resident);
    case Commit => SaveOfWindow(s, s.phase.snap, s.phase.snapStart);
    case _ =>
  }

  ghost predicate Run(states: seq<State>, steps: seq<Step>, resident: nat) {
    && |states| == |steps| + 1
    && Init(states[0])
    && (forall i {:trigger steps[i]} :: 0 <= i < |steps| ==>
          Enabled(states[i], steps[i], resident) && states[i + 1] == Apply(states[i], steps[i], resident))
  }

  /** Before every pruning and every imported fork of the run, the node could have checked that the save
      in flight, and for a fork the store, carries what memory is about to drop. */
  ghost predicate CarefulRun(states: seq<State>, steps: seq<Step>)
    requires |states| == |steps| + 1
  {
    forall i {:trigger steps[i]} :: 0 <= i < |steps| ==> Careful(states[i], steps[i])
  }

  /** Over every such run, in every state: the store agrees with the live chain below the resident
      window, the save in flight goes through, and so does the next one. */
  lemma {:induction false} StoreAgreesOverEveryRun(states: seq<State>, steps: seq<Step>, resident: nat, i: nat)
    requires Run(states, steps, resident) && CarefulRun(states, steps) && i <= |steps|
    ensures Inv(states[i])
    ensures AgreesBelow(states[i].stored, states[i].live, states[i].tailStart)
    ensures var s := states[i]; Store.ResidentAccepts(s.stored, StoredHeader(s), SnapshotOf(s, s.live, s.tailStart))
    ensures states[i].phase.Snapped? ==> Enabled(states[i], Commit, resident)
  {
    if i == 0 {
      InitHolds(states[0]);
    } else {
      StoreAgreesOverEveryRun(states, steps, resident, i - 1);
      StepKeepsInv(states[i - 1], steps[i - 1], resident);
    }
    NextSaveAccepted(states[i]);
  }

  // ----- the hypothesis is exact, and needed

  /** Everything but the agreement of the snapshot in flight with the live chain. */
  ghost predicate InvUpToFlight(s: State) {
    && s.phase.Snapped?
    && Inv(s.(phase := Idle))
    && Linked(s.phase.snap) && WindowFits(s.phase.snap, s.phase.snapStart)
    && AgreesBelow(s.stored, s.phase.snap, s.phase.snapStart)
  }

  /** A commit goes through whatever the live chain did meanwhile, and afterwards the next resident
      save is accepted if and only if the committed snapshot carries the parent of the live tail. */
  lemma CommitIsSafeIff(s: State, resident: nat)
    requires InvUpToFlight(s)
    ensures Enabled(s, Commit, resident)
    ensures var s' := Apply(s, Commit, resident);
            Store.ResidentAccepts(s'.stored, StoredHeader(s'), SnapshotOf(s', s'.live, s'.tailStart)) <==>
            CarriesParent(s.phase.snap, s.live, s.tailStart)
  {
    ParentDecidesAgreement(s.stored, s.phase.snap, s.phase.snapStart);
    SaveOfWindow(s, s.phase.snap, s.phase.snapStart);
    SaveOfWindow(Apply(s, Commit, resident), s.live, s.tailStart);
  }

  function Seal(height: nat, prev: Hash, body: Body): Block {
    Block(height, prev, Digest(height, prev, body), body)
  }

  /** `chain` continued by `count` blocks that all carry `body`. */
  function Grow(chain: seq<Block>, body: Body, count: nat): seq<Block> {
    if count == 0 then chain
    else
      var grown := Grow(chain, body, count - 1);
      grown + [Seal(|grown|, ParentHash(grown, |grown|), body)]
  }

  lemma {:induction false} GrowLinked(chain: seq<Block>, body: Body, count: nat)
    requires Linked(chain)
    ensures Linked(Grow(chain, body, count)) && |Grow(chain, body, count)| == |chain| + count
    ensures Grow(chain, body, count)[..|chain|] == chain
  {
    if count > 0 {
      GrowLinked(chain, body, count - 1);
      var grown := Grow(chain, body, count - 1);
      var whole := Grow(chain, body, count);
      forall i | 0 <= i < |whole|
        ensures LinkedAt(whole, i)
      {
        if i < |grown| {
          assert LinkedAt(grown, i) && ParentHash(whole, i) == ParentHash(grown, i);
        }
      }
    }
  }

  /** The chains of the counterexample: `long` extends `stored`, `other` replaces its second block. */
  ghost predicate Forked(stored: seq<Block>, other: seq<Block>, long: seq<Block>, resident: nat) {
    && Linked(stored) && Linked(other) && Linked(long)
    && |stored| == 2 && |other| == 2 && |long| == Max(resident, 1) + 3
    && stored[0] == other[0] && stored == long[..2] && stored[1].hash != other[1].hash
  }

  lemma ForkedExists(g: Body, a: Body, b: Body, resident: nat)
    returns (stored: seq<Block>, other: seq<Block>, long: seq<Block>)
    requires a != b
    ensures Forked(stored, other, long, resident)
  {
    var genesis := [Seal(0, Zero, g)];
    assert LinkedAt(genesis, 0);
    GrowLinked(genesis, a, 1);
    GrowLinked(genesis, b, 1);
    stored, other := Grow(genesis, a, 1), Grow(genesis, b, 1);
    GrowLinked(stored, a, Max(resident, 1) + 1);
    long := Grow(stored, a, Max(resident, 1) + 1);
    assert stored[0] == stored[..1][0] && other[0] == other[..1][0];
  }

  /** Reorg away from the persisted tip, snapshot, and come back on a longer chain. */
  lemma ReorgAwayAndBack(s: State, other: seq<Block>, long: seq<Block>, resident: nat)
    requires Forked(s.stored, other, long, resident)
    requires s.live == s.stored && s.tailStart == 1 && s.phase.Idle?
    ensures Enabled(s, ReorgResident(1, other[1..]), resident)
    ensures Apply(s, ReorgResident(1, other[1..]), resident) == s.(live := other)
    ensures var s2 := s.(live := other, phase := Snapped(other, 1));
            && Enabled(s2, ReorgResident(1, long[1..]), resident)
            && Apply(s2, ReorgResident(1, long[1..]), resident) == s2.(live := long)
  {
    assert s.stored[..1] + other[1..] == other;
    assert long[0] == long[..2][0];
    assert other[..1] + long[1..] == long;
  }

  /** The tip is resident again, so pruning drops it; then the commit drops it from the store too. */
  lemma PruneThenCommit(s: State, other: seq<Block>, long: seq<Block>, resident: nat)
    requires Forked(s.stored, other, long, resident)
    requires s.live == long && s.tailStart == 1 && s.bounded && s.phase == Snapped(other, 1)
    requires s.persisted == Some(TipOfChain(s.stored))
    ensures Apply(s, Prune, resident) == s.(tailStart := 2)
    ensures Enabled(s.(tailStart := 2), Commit, resident)
    ensures Apply(s.(tailStart := 2), Commit, resident) == s.(tailStart := 2, stored := other, phase := Committed)
    ensures !CarriesParent(other, long, 2)
  {
    assert long[1] == long[..2][1];
    SaveOfWindow(s.(tailStart := 2), other, 1);
    assert LinkedAt(long, 2);
  }

  /** The hypothesis is needed. Whatever the window size: the store holds [g, a], the node reorgs to
      [g, b] and snapshots it, returns to a longer extension of [g, a], prunes past `a` because the
      persisted tip is resident again, and then the commit of [g, b] removes `a` from the store. */
  lemma UndoneReorgLosesHistory(header: Header, g: Body, a: Body, b: Body, resident: nat)
    returns (states: seq<State>, steps: seq<Step>)
    requires a != b
    ensures Run(states, steps, resident)
    ensures var last := states[|steps|];
            && last.phase.Idle? && WindowFits(last.live, last.tailStart)
            && !Store.ResidentAccepts(last.stored, StoredHeader(last), SnapshotOf(last, last.live, last.tailStart))
  {
    var stored, other, long := ForkedExists(g, a, b, resident);
    var s0 := State(header, stored, 1, true, Some(TipOfChain(stored)), stored, Idle, None);
    ReorgAwayAndBack(s0, other, long, resident);
    var s3 := s0.(live := long, phase := Snapped(other, 1));
    PruneThenCommit(s3, other, long, resident);
    var s5 := s3.(tailStart := 2, stored := other, phase := Committed);
    var s6 := s5.(persisted := Some(TipOfChain(other)), phase := Idle);
    states, steps := [s0], [];
    states, steps := RunOn(states, steps, ReorgResident(1, other[1..]), resident);
    states, steps := RunOn(states, steps, TakeSnapshot, resident);
    states, steps := RunOn(states, steps, ReorgResident(1, long[1..]), resident);
    states, steps := RunOn(states, steps, Prune, resident);
    states, steps := RunOn(states, steps, Commit, resident);
    states, steps := RunOn(states, steps, Mark, resident);
    SaveOfWindow(s6, long, 2);
  }

  lemma RunOn(states: seq<State>, steps: seq<Step>, step: Step, resident: nat)
    returns (states': seq<State>, steps': seq<Step>)
    requires Run(states, steps, resident) && Enabled(states[|steps|], step, resident)
    ensures Run(states', steps', resident) && |steps'| == |steps| + 1
    ensures states'[|steps'|] == Apply(states[|steps|], step, resident)
  {
    states', steps' := states + [Apply(states[|steps|], step, resident)], steps + [step];
    forall i | 0 <= i < |steps'|
      ensures Enabled(states'[i], steps'[i], resident) && states'[i + 1] == Apply(states'[i], steps'[i], resident)
    {
      if i < |steps| {
        assert steps[i] == steps'[i];
      }
    }
  }
}
