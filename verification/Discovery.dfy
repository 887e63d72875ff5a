/** The wallet's address discovery: scan both branches until the server's replies leave a full unused
    gap at the end of each. */
module Discovery {
  import opened Results

  const MAX_ADDRESSES: nat := 10_000

  /** The addresses of a wallet on one network, by branch and index. */
  datatype Keys = Keys(external: nat -> string, reward: nat -> string)

  /** What the server says about the scanned addresses. */
  datatype Reply = Reply(recovery: seq<string>, used: set<string>)

  datatype Counts = Counts(external: nat, reward: nat)

  /** The reply of each round, for whatever was scanned in it. */
  type Server = (nat, Counts) -> Reply

  function Derived(key: nat -> string, n: nat): (r: seq<string>)
    ensures |r| == n && forall i :: 0 <= i < n ==> r[i] == key(i)
  {
    seq(n, i requires 0 <= i < n => key(i))
  }

  ghost predicate Resolved(recovery: seq<string>, external: seq<string>, rewards: seq<string>) {
    forall a :: a in recovery ==> a in external || a in rewards
  }

  // ----- the next scan

  function Grown(count: nat, gap: nat): nat {
    Min(MAX_ADDRESSES, Max(count + Max(1, gap), 2 * count))
  }

  /** A scan below the cap is not narrowed, and no scan goes past it. */
  predicate Widened(count: nat, next: nat) { 0 < next <= MAX_ADDRESSES && (count <= MAX_ADDRESSES ==> count <= next) }

  /** A count that scans at least one gap more, at least one address more, and at least twice as many. */
  predicate GrownEnough(count: nat, next: nat, gap: nat) {
    count + gap <= next && count + 1 <= next && 2 * count <= next
  }

  /** The least such count, or the cap if that is less. */
  ghost predicate LeastGrown(count: nat, next: nat, gap: nat) {
    && (next == 10_000 || (next < 10_000 && GrownEnough(count, next, gap)))
    && forall n: nat :: n < next ==> !GrownEnough(count, n, gap)
  }

  /** Recovery addresses not derived yet widen both scans; otherwise the counts stay. */
  function NextRecoveryScanCounts(external: seq<string>, rewards: seq<string>, recovery: seq<string>,
                                  gap: nat): (r: (Counts, bool))
    ensures !r.1 <==> Resolved(recovery, external, rewards)
    ensures !r.1 ==> r.0 == Counts(|external|, |rewards|)
    ensures r.1 ==> Widened(|external|, r.0.external) && Widened(|rewards|, r.0.reward)
    ensures r.1 && r.0 == Counts(|external|, |rewards|) ==> r.0 == Counts(MAX_ADDRESSES, MAX_ADDRESSES)
    ensures r.1 ==> LeastGrown(|external|, r.0.external, gap) && LeastGrown(|rewards|, r.0.reward, gap)
  {
    if forall a :: a in recovery ==> a in external || a in rewards then (Counts(|external|, |rewards|), false)
    else (Counts(Grown(|external|, gap), Grown(|rewards|, gap)), true)
  }

  /** One past the highest used index, 0 if none is used. */
  method HighestUsed(derived: seq<string>, used: set<string>) returns (highest: nat)
    ensures highest <= |derived| && (highest > 0 ==> derived[highest - 1] in used)
    ensures forall i :: highest <= i < |derived| ==> derived[i] !in used
  {
    highest := 0;
    for i := 0 to |derived|
      invariant highest <= i && (highest > 0 ==> derived[highest - 1] in used)
      invariant forall j :: highest <= j < i ==> derived[j] !in used
    {
      if derived[i] in used {
        highest := i + 1;
      }
    }
  }

  /** The branch ends in a full gap of unused addresses, or the scan is at the cap. */
  ghost predicate GapOrCap(derived: seq<string>, used: set<string>, gap: nat) {
    || |derived| >= MAX_ADDRESSES
    || (gap <= |derived| && forall i :: |derived| - gap <= i < |derived| ==> derived[i] !in used)
  }

  /** Keep the count when the gap is full or the cap reached; else scan a full gap past the highest. */
  function NextCount(count: nat, highest: nat, gap: nat): nat {
    if highest + gap <= count || count >= MAX_ADDRESSES then count else Min(MAX_ADDRESSES, highest + gap)
  }

  /** A scan of `next` addresses has a full gap after every used one among those derived. */
  ghost predicate GapFits(derived: seq<string>, used: set<string>, next: nat, gap: nat) {
    |derived| <= next && gap <= next && forall i :: 0 <= i < |derived| && derived[i] in used ==> i + 1 + gap <= next
  }

  /** The least such count, or the cap if that is less; nothing changes at the cap. */
  ghost predicate LeastGap(derived: seq<string>, used: set<string>, next: nat, gap: nat) {
    && (next >= 10_000 || GapFits(derived, used, next, gap))
    && next <= Max(10_000, |derived|)
    && forall n: nat :: |derived| <= n < next ==> !GapFits(derived, used, n, gap)
  }

  lemma NextCountGrows(derived: seq<string>, used: set<string>, highest: nat, gap: nat)
    requires highest <= |derived|
    requires highest > 0 ==> derived[highest - 1] in used
    requires forall i :: highest <= i < |derived| ==> derived[i] !in used
    ensures LeastGap(derived, used, NextCount(|derived|, highest, gap), gap)
    ensures |derived| <= NextCount(|derived|, highest, gap) <= Max(MAX_ADDRESSES, |derived|)
    ensures NextCount(|derived|, highest, gap) == |derived| ==> GapOrCap(derived, used, gap)
  {
  }

  // ----- the loop

  /** What discovery ends with: the scanned addresses, the last reply, and the next receiving index. */
  datatype Scan = Scan(external: seq<string>, rewards: seq<string>, reply: Reply, addressIndex: nat)

  /** Every recovery address is derived, and both branches end in a full unused gap or at the cap. */
  ghost predicate Complete(scan: Scan, gap: nat) {
    && Resolved(scan.reply.recovery, scan.external, scan.rewards)
    && GapOrCap(scan.external, scan.reply.used, gap) && GapOrCap(scan.rewards, scan.reply.used, gap)
  }

  /** The next receiving address lies right after the last used one. */
  ghost predicate NextIsUnused(scan: Scan) {
    && scan.addressIndex < |scan.external|
    && (scan.addressIndex > 0 ==> scan.external[scan.addressIndex - 1] in scan.reply.used)
    && forall i :: scan.addressIndex <= i < |scan.external| ==> scan.external[i] !in scan.reply.used
  }

  class WalletScanner {
    /** The addresses of each wallet and network the cache can hold. */
    const keysOf: string -> Keys
    var scope: string
    var external: seq<string>
    var rewards: seq<string>

    /** The caches hold the first addresses of the current scope. */
    ghost predicate Valid()
      reads this
    {
      && external == Derived(keysOf(scope).external, |external|)
      && rewards == Derived(keysOf(scope).reward, |rewards|)
    }

    ghost predicate WithinCap()
      reads this
    {
      |external| <= MAX_ADDRESSES && |rewards| <= MAX_ADDRESSES
    }

    constructor (keysOf: string -> Keys)
      ensures Valid() && WithinCap() && this.keysOf == keysOf
    {
      this.keysOf, scope, external, rewards := keysOf, "", [], [];
    }

    /** Derive what the caches lack, and take the first addresses of each branch. */
    method Derive(counts: Counts) returns (derived: seq<string>, rewardDerived: seq<string>)
      requires Valid()
      modifies this`external, this`rewards
      ensures Valid() && |external| == Max(old(|external|), counts.external)
      ensures |rewards| == Max(old(|rewards|), counts.reward)
      ensures derived == Derived(keysOf(scope).external, counts.external)
      ensures rewardDerived == Derived(keysOf(scope).reward, counts.reward)
    {
      if |external| < counts.external {
        external := Derived(keysOf(scope).external, counts.external);
      }
      if |rewards| < counts.reward {
        rewards := Derived(keysOf(scope).reward, counts.reward);
      }
      derived, rewardDerived := external[..counts.external], rewards[..counts.reward];
    }

    /** Switch to a scope and choose the counts to start from. */
    method Open(newScope: string, gap: nat) returns (counts: Counts)
      requires Valid()
      modifies this
      ensures Valid() && scope == newScope && (old(WithinCap()) ==> WithinCap())
      ensures counts.external == Max(gap + 1, |external|) && counts.reward == Max(gap, |rewards|)
    {
      counts := Counts(gap + 1, gap);
      if scope != newScope {
        scope, external, rewards := newScope, [], [];
      } else {
        counts := Counts(Max(counts.external, |external|), Max(counts.reward, |rewards|));
      }
    }

    /** Scan until both branches are settled. Each continuing round strictly grows one count and shrinks
        none within the cap, or brings counts that started past the cap back to it, so the loop ends
        whatever the server replies; it fails only at the cap, and passes it only if it starts there. */
    method Discover(newScope: string, gapLimit: nat, server: Server) returns (r: Result<Scan>)
      requires Valid()
      modifies this
      ensures Valid() && scope == newScope
      ensures old(WithinCap()) && gapLimit < MAX_ADDRESSES ==> WithinCap()
      ensures r.Ok? ==> Complete(r.value, Max(1, gapLimit)) && NextIsUnused(r.value)
      ensures r.Ok? ==> r.value.external == Derived(keysOf(scope).external, |r.value.external|)
      ensures r.Ok? ==> r.value.rewards == Derived(keysOf(scope).reward, |r.value.rewards|)
      ensures r.Err? ==> |external| >= MAX_ADDRESSES
    {
      var gap := Max(1, gapLimit);
      var counts := Open(newScope, gap);
      var round: nat := 0;
      while true
        invariant Valid() && scope == newScope && 0 < counts.external
        invariant old(WithinCap()) && gapLimit < MAX_ADDRESSES ==> WithinCap() && !PastCap(counts)
        decreases PastCap(counts), Room(counts)
      {
        var derived, rewardDerived := Derive(counts);
        var next;
        next, r := Settle(derived, rewardDerived, server(round, counts), gap, counts);
        if next.None? {
          return;
        }
        counts, round := next.value, round + 1;
      }
    }
  }

  predicate PastCap(counts: Counts) { counts.external > MAX_ADDRESSES || counts.reward > MAX_ADDRESSES }

  /** How many more addresses the cap lets the two branches scan. */
  function Room(counts: Counts): nat {
    SaturatingSub(MAX_ADDRESSES, counts.external) + SaturatingSub(MAX_ADDRESSES, counts.reward)
  }

  /** The counts of the next round: wider for unresolved recovery addresses, else for the gaps. */
  method Widen(derived: seq<string>, rewards: seq<string>, reply: Reply, gap: nat)
    returns (next: Counts, unresolved: bool)
    ensures unresolved ==> Widened(|derived|, next.external) && Widened(|rewards|, next.reward)
    ensures !unresolved ==> |derived| <= next.external <= Max(MAX_ADDRESSES, |derived|)
    ensures !unresolved ==> |rewards| <= next.reward <= Max(MAX_ADDRESSES, |rewards|)
    ensures !unresolved <==> Resolved(reply.recovery, derived, rewards)
    ensures unresolved && next == Counts(|derived|, |rewards|) ==> next == Counts(MAX_ADDRESSES, MAX_ADDRESSES)
    ensures !unresolved && next == Counts(|derived|, |rewards|) ==>
              GapOrCap(derived, reply.used, gap) && GapOrCap(rewards, reply.used, gap)
    ensures unresolved ==> LeastGrown(|derived|, next.external, gap) && LeastGrown(|rewards|, next.reward, gap)
    ensures !unresolved ==>
              LeastGap(derived, reply.used, next.external, gap) && LeastGap(rewards, reply.used, next.reward, gap)
  {
    var scan := NextRecoveryScanCounts(derived, rewards, reply.recovery, gap);
    if scan.1 {
      return scan.0, true;
    }
    var highestExternal := HighestUsed(derived, reply.used);
    var highestReward := HighestUsed(rewards, reply.used);
    NextCountGrows(derived, reply.used, highestExternal, gap);
    NextCountGrows(rewards, reply.used, highestReward, gap);
    return Counts(NextCount(|derived|, highestExternal, gap), NextCount(|rewards|, highestReward, gap)), false;
  }

  /** The next round comes closer to the end. */
  ghost predicate Closer(next: Counts, counts: Counts) {
    (PastCap(counts) && !PastCap(next)) || (PastCap(counts) == PastCap(next) && Room(next) < Room(counts))
  }

  /** One round: wider counts to scan, or the end of the scan. */
  method Settle(derived: seq<string>, rewards: seq<string>, reply: Reply, gap: nat, counts: Counts)
    returns (next: Option<Counts>, r: Result<Scan>)
    requires 0 < gap && counts == Counts(|derived|, |rewards|) && 0 < |derived|
    ensures next.Some? ==> Closer(next.value, counts) && 0 < next.value.external
    ensures next.None? && r.Ok? ==> r.value.external == derived && r.value.rewards == rewards
    ensures next.None? && r.Ok? ==> Complete(r.value, gap) && NextIsUnused(r.value)
    ensures next.None? && r.Err? ==> |derived| >= MAX_ADDRESSES
  {
    r := Err("unsettled");
    var wider, unresolved := Widen(derived, rewards, reply, gap);
    if wider != counts {
      return Some(wider), r;
    }
    next := None;
    if unresolved {
      return None, Err("Wallet address recovery exceeded its recovery limit");
    }
    r := Conclude(derived, rewards, reply, gap);
  }

  /** The next receiving address follows the highest used one, if it was scanned. */
  method Conclude(derived: seq<string>, rewards: seq<string>, reply: Reply, gap: nat) returns (r: Result<Scan>)
    requires 0 < gap && 0 < |derived| && Resolved(reply.recovery, derived, rewards)
    requires GapOrCap(derived, reply.used, gap) && GapOrCap(rewards, reply.used, gap)
    ensures r.Ok? ==> r.value.external == derived && r.value.rewards == rewards
    ensures r.Ok? ==> Complete(r.value, gap) && NextIsUnused(r.value)
    ensures r.Err? ==> |derived| >= MAX_ADDRESSES
  {
    var highest := HighestUsed(derived, reply.used);
    if highest >= |derived| {
      return Err("Wallet address discovery exceeded its recovery limit");
    }
    return Ok(Scan(derived, rewards, reply, highest));
  }
}
