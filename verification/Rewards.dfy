/** Who is paid by a block's reward, and how much: said of the block's attestations. */
module Rewards {
  import opened Results
  import opened Maps
  import opened Transactions
  import opened Chain
  import opened Segments
  import opened Utxo

  /** The attestation shares the reward: its block was finalized by a ticket of rank at most one, and not
      by the attesting member itself. */
  ghost predicate Shares(body: Body, a: Attestation) {
    body.ticketMode && body.finalizerRank <= 1 && a in body.attestations && a.member != body.miner
  }

  /** How many attestations are not the finalizer's own. */
  ghost function Others(body: Body): nat { Total(body.attestations, IsOther(body.miner)) }

  ghost function IsOther(miner: string): Attestation -> nat {
    (a: Attestation) => if a.member != miner then 1 else 0
  }

  ghost function PaidAddress(a: Attestation): string {
    if a.rewardAddress.Some? then a.rewardAddress.value else a.member
  }

  /** The output pays the attesting member under its slot, `low` or one more. */
  ghost predicate PaysShare(c: Created, body: Body, a: Attestation, low: nat) {
    && c.outpoint.txid == body.hashText && c.outpoint.index + a.slot == U32_MAX && c.output.address == PaidAddress(a)
    && 0 < c.output.amount && low <= c.output.amount <= low + 1
  }

  // ----- the members that share

  lemma {:induction false} FoundMember(all: seq<Attestation>, a: Attestation, miner: string)
    requires InSlotOrder(all) && a in all
    ensures FindMember(all, a.slot, miner) == if a.member != miner then Some(a) else None
  {
    if all[0] == a {
      if a.member == miner {
        NoOtherMember(all[1..], a.slot, miner);
      }
    } else {
      assert all[0].slot != a.slot;
      FoundMember(all[1..], a, miner);
    }
  }

  lemma {:induction false} NoOtherMember(all: seq<Attestation>, slot: nat, miner: string)
    requires forall i :: 0 <= i < |all| ==> all[i].slot != slot
    ensures FindMember(all, slot, miner) == None
  {
    if all != [] {
      NoOtherMember(all[1..], slot, miner);
    }
  }

  lemma {:induction false} MembersAre(signed: seq<Attestation>, all: seq<Attestation>, miner: string)
    requires InSlotOrder(all) && forall a :: a in signed ==> a in all
    ensures forall a :: a in RewardMembers(signed, all, miner) <==> a in signed && a.member != miner
  {
    if signed != [] {
      FoundMember(all, signed[0], miner);
      MembersAre(signed[1..], all, miner);
    }
  }

  lemma {:induction false} MemberCount(signed: seq<Attestation>, all: seq<Attestation>, miner: string)
    requires InSlotOrder(all) && forall a :: a in signed ==> a in all
    ensures |RewardMembers(signed, all, miner)| == Total(signed, IsOther(miner))
  {
    if signed != [] {
      FoundMember(all, signed[0], miner);
      MemberCount(signed[1..], all, miner);
      TotalConcat([signed[0]], signed[1..], IsOther(miner));
      assert signed == [signed[0]] + signed[1..] && [signed[0]][..0] == [];
    }
  }

  lemma {:induction false} PayoutIs(attestations: seq<Attestation>, a: Attestation)
    requires InSlotOrder(attestations) && a in attestations
    ensures PayoutAddress(attestations, a) == PaidAddress(a)
  {
    if attestations[0] != a {
      assert attestations[0].slot != a.slot;
      PayoutIs(attestations[1..], a);
    }
  }

  // ----- the shares

  /** `total` splits evenly over `count`: between `low` and one more for each. */
  predicate Splits(total: nat, count: nat, low: nat) { low * count <= total <= low * count + count }

  lemma TimesMonotone(a: nat, b: nat, count: nat)
    requires a <= b
    ensures a * count <= b * count
  {
  }

  lemma QuotientWithin(total: nat, count: nat, low: nat, amount: nat)
    requires count > 0 && low * count <= total <= low * count + count
    requires amount * count <= total < amount * count + count
    ensures low <= amount <= low + 1 && (amount == low + 1 ==> total == low * count + count)
  {
    assert (low + 1) * count == low * count + count && (amount + 1) * count == amount * count + count;
    assert (low + 2) * count == low * count + 2 * count;
    if amount < low {
      TimesMonotone(amount + 1, low, count);
    }
    if amount > low + 1 {
      TimesMonotone(low + 2, amount, count);
    }
  }

  lemma PortionIs(total: nat, count: nat)
    requires count > 0
    ensures Portion(total, count) * count <= total < Portion(total, count) * count + count
  {
    if count > 1 {
      QuotientAndRemainder(total, count);
      assert total == total / count * count + total % count;
    }
  }

  lemma PortionSplits(total: nat, count: nat, low: nat)
    requires count > 0 && Splits(total, count, low)
    ensures var amount := Portion(total, count);
            low <= amount <= low + 1 && amount <= total && Splits(total - amount, count - 1, low)
  {
    var amount := Portion(total, count);
    PortionIs(total, count);
    QuotientWithin(total, count, low, amount);
    assert low * (count - 1) == low * count - low;
  }

  ghost predicate PaysOne(c: Created, body: Body, members: seq<Attestation>, low: nat) {
    exists k :: 0 <= k < |members| && PaysShare(c, body, members[k], low)
  }

  ghost predicate PaidByOne(outputs: seq<Created>, body: Body, a: Attestation, low: nat) {
    exists i :: 0 <= i < |outputs| && PaysShare(outputs[i], body, a, low)
  }

  /** Every output pays one of the members. */
  ghost predicate AllPay(outputs: seq<Created>, body: Body, members: seq<Attestation>, low: nat) {
    forall i :: 0 <= i < |outputs| ==> PaysOne(outputs[i], body, members, low)
  }

  /** Every member is paid by one of the outputs. */
  ghost predicate AllPaid(outputs: seq<Created>, body: Body, members: seq<Attestation>, low: nat) {
    forall k :: 0 <= k < |members| ==> PaidByOne(outputs, body, members[k], low)
  }

  lemma PaysOneMore(c: Created, body: Body, members: seq<Attestation>, more: seq<Attestation>, low: nat)
    requires more != [] && members == more[1..]
    ensures PaysShare(c, body, more[0], low) || PaysOne(c, body, members, low) ==> PaysOne(c, body, more, low)
  {
    if PaysOne(c, body, members, low) {
      var k :| 0 <= k < |members| && PaysShare(c, body, members[k], low);
      assert PaysShare(c, body, more[k + 1], low);
    }
  }

  lemma PaidByMore(outputs: seq<Created>, first: seq<Created>, more: seq<Created>, body: Body, a: Attestation, low: nat)
    requires more == first + outputs && PaidByOne(outputs, body, a, low)
    ensures PaidByOne(more, body, a, low)
  {
    var i :| 0 <= i < |outputs| && PaysShare(outputs[i], body, a, low);
    assert more[|first| + i] == outputs[i];
  }

  lemma PayAdded(outputs: seq<Created>, body: Body, members: seq<Attestation>, low: nat,
                 first: seq<Created>, all: seq<Created>, whole: seq<Attestation>)
    requires whole != [] && members == whole[1..] && all == first + outputs && AllPay(outputs, body, members, low)
    requires forall i :: 0 <= i < |first| ==> PaysShare(first[i], body, whole[0], low)
    ensures AllPay(all, body, whole, low)
  {
    forall i | 0 <= i < |all|
      ensures PaysOne(all[i], body, whole, low)
    {
      assert i >= |first| ==> all[i] == outputs[i - |first|];
      PaysOneMore(all[i], body, members, whole, low);
    }
  }

  lemma PaidAdded(outputs: seq<Created>, body: Body, members: seq<Attestation>, low: nat,
                  first: seq<Created>, all: seq<Created>, whole: seq<Attestation>)
    requires whole != [] && members == whole[1..] && all == first + outputs && AllPaid(outputs, body, members, low)
    requires first != [] && PaysShare(first[0], body, whole[0], low)
    ensures AllPaid(all, body, whole, low)
  {
    forall k | 0 <= k < |whole|
      ensures PaidByOne(all, body, whole[k], low)
    {
      if k == 0 {
        assert all[0] == first[0];
      } else {
        assert whole[k] == members[k - 1];
        PaidByMore(outputs, first, all, body, whole[k], low);
      }
    }
  }

  /** What one member is paid: nothing for an empty share. */
  function MemberOutput(body: Body, a: Attestation, amount: nat): seq<Created> {
    if amount == 0 then []
    else [Created(CommitteeOutpoint(body, a.slot), TxOutput(PayoutAddress(body.attestations, a), amount))]
  }

  lemma FirstPays(body: Body, a: Attestation, amount: nat, low: nat)
    requires InSlotOrder(body.attestations) && a in body.attestations && low <= amount <= low + 1
    ensures forall i :: 0 <= i < |MemberOutput(body, a, amount)| ==>
              PaysShare(MemberOutput(body, a, amount)[i], body, a, low)
  {
    PayoutIs(body.attestations, a);
  }

  lemma CommitteeStep(body: Body, members: seq<Attestation>, remaining: nat, amount: nat)
    requires members != [] && amount == Portion(remaining, |members|) <= remaining
    ensures CommitteeOutputs(body, members, remaining) ==
            MemberOutput(body, members[0], amount) + CommitteeOutputs(body, members[1..], remaining - amount)
  {
  }

  lemma {:induction false} CommitteePays(body: Body, members: seq<Attestation>, remaining: nat, low: nat)
    requires InSlotOrder(body.attestations) && (forall a :: a in members ==> a in body.attestations)
    requires Splits(remaining, |members|, low)
    ensures AllPay(CommitteeOutputs(body, members, remaining), body, members, low)
    ensures low > 0 ==> AllPaid(CommitteeOutputs(body, members, remaining), body, members, low)
    decreases |members|
  {
    if members != [] {
      var a, rest, amount := members[0], members[1..], Portion(remaining, |members|);
      PortionSplits(remaining, |members|, low);
      CommitteePays(body, rest, remaining - amount, low);
      CommitteeStep(body, members, remaining, amount);
      FirstPays(body, a, amount, low);
      PaymentsAdded(body, members, low, MemberOutput(body, a, amount), CommitteeOutputs(body, rest, remaining - amount),
                    CommitteeOutputs(body, members, remaining));
    }
  }

  lemma PaymentsAdded(body: Body, members: seq<Attestation>, low: nat, first: seq<Created>, others: seq<Created>,
                      all: seq<Created>)
    requires members != [] && all == first + others && AllPay(others, body, members[1..], low)
    requires low > 0 ==> first != [] && AllPaid(others, body, members[1..], low)
    requires forall i :: 0 <= i < |first| ==> PaysShare(first[i], body, members[0], low)
    ensures AllPay(all, body, members, low)
    ensures low > 0 ==> AllPaid(all, body, members, low)
  {
    PayAdded(others, body, members[1..], low, first, all, members);
    if low > 0 {
      PaidAdded(others, body, members[1..], low, first, all, members);
    }
  }

  lemma SplitByDivision(total: nat, count: nat)
    requires count > 0
    ensures Splits(total, count, total / count)
  {
    assert total == count * (total / count) + total % count;
  }

  /** An even share of half the reward, rounded down. */
  ghost function LowShare(body: Body): nat {
    if Others(body) == 0 then 0 else body.reward / 2 / Others(body)
  }

  /** The finalizer's output: the whole reward, or all but half if anyone shares it. */
  ghost predicate PaysFinalizer(c: Created, body: Body, shared: bool) {
    && c.outpoint == OutPoint(body.hashText, U32_MAX)
    && c.output.address == (if body.rewardAddress.Some? then body.rewardAddress.value else body.miner)
    && c.output.amount == (if shared then body.reward - body.reward / 2 else body.reward)
  }

  lemma FinalizerPaid(body: Body, members: seq<Attestation>, rest: seq<Created>)
    requires body.reward > 0 && InSlotOrder(body.attestations)
    requires members == if body.ticketMode && body.finalizerRank <= 1
                        then RewardMembers(body.attestations, body.attestations, body.miner) else []
    requires rest == CommitteeOutputs(body, members, if members == [] then 0 else body.reward / 2)
    ensures forall a :: Shares(body, a) <==> a in members
    ensures members != [] ==> |members| == Others(body)
    ensures RewardOutputs(body) == [RewardOutputs(body)[0]] + rest
    ensures PaysFinalizer(RewardOutputs(body)[0], body, members != [])
  {
    MembersAre(body.attestations, body.attestations, body.miner);
    MemberCount(body.attestations, body.attestations, body.miner);
  }

  /** The finalizer gets the whole reward, or all but half if anyone shares; that half is split evenly over
      the attesting members other than the finalizer, each paid under its own slot at its own address. */
  lemma RewardsAre(body: Body) returns (members: seq<Attestation>)
    requires InSlotOrder(body.attestations) && body.reward > 0
    ensures forall a :: Shares(body, a) <==> a in members
    ensures RewardOutputs(body) != [] && PaysFinalizer(RewardOutputs(body)[0], body, members != [])
    ensures AllPay(RewardOutputs(body)[1..], body, members, LowShare(body))
    ensures LowShare(body) > 0 ==> AllPaid(RewardOutputs(body)[1..], body, members, LowShare(body))
  {
    members := if body.ticketMode && body.finalizerRank <= 1
               then RewardMembers(body.attestations, body.attestations, body.miner) else [];
    var rest := CommitteeOutputs(body, members, if members == [] then 0 else body.reward / 2);
    FinalizerPaid(body, members, rest);
    assert RewardOutputs(body)[1..] == rest;
    if members != [] {
      SplitByDivision(body.reward / 2, |members|);
      CommitteePays(body, members, body.reward / 2, LowShare(body));
    }
  }
}
