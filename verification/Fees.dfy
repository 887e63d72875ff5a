/** Fee convergence: pay per byte for a transaction whose size depends on its own fee. */
module FeeConvergence {
  import opened Results
  import opened Maps

  const ROUNDS: nat := 64

  datatype Estimate<T> = Estimate(built: T, bytes: nat, fee: nat)

  /** The fee a size demands: rate times bytes, at least one; the product must fit 64 bits. */
  function RequiredFee(rate: nat, bytes: nat): Option<nat> {
    if rate * bytes >= U64_RANGE then None else Some(Max(rate * bytes, 1))
  }

  lemma RequiredFeeMonotone(rate: nat, a: nat, b: nat)
    requires a <= b && RequiredFee(rate, b).Some?
    ensures RequiredFee(rate, a).Some? && RequiredFee(rate, a).value <= RequiredFee(rate, b).value
  {
    assert rate * b == rate * a + rate * (b - a);
    assert rate * (b - a) >= 0;
  }

  /** The estimate is for the transaction built at its fee, and the fee covers that transaction. */
  ghost predicate Covers<T>(e: Estimate<T>, rate: nat, build: nat -> Result<T>, size: T -> nat) {
    && build(e.fee) == Ok(e.built) && e.bytes == size(e.built)
    && rate * e.bytes < U64_RANGE && rate * e.bytes <= e.fee && 1 <= e.fee
  }

  function SizeAt<T>(build: nat -> Result<T>, size: T -> nat, fee: nat): nat {
    if build(fee).Ok? then size(build(fee).value) else 0
  }

  /** The fee builds, and is exactly what the transaction built at it demands. */
  ghost predicate Exact<T>(rate: nat, build: nat -> Result<T>, size: T -> nat, fee: nat) {
    build(fee).Ok? && RequiredFee(rate, SizeAt(build, size, fee)) == Some(fee)
  }

  /** That is: the fee is the rate times the bytes built at it, or one if that is zero. */
  lemma ExactMeans<T>(rate: nat, build: nat -> Result<T>, size: T -> nat, fee: nat)
    ensures Exact(rate, build, size, fee) <==>
            && build(fee).Ok? && rate * size(build(fee).value) < U64_RANGE
            && fee == (if rate * size(build(fee).value) == 0 then 1 else rate * size(build(fee).value))
  {
  }

  /** Up to `limit` every fee builds, and size never shrinks as the fee grows and takes only values in
      `sizes`; what is built at `limit` demands no more than `limit`. Above it, nothing need build. */
  ghost predicate Tame<T>(rate: nat, build: nat -> Result<T>, size: T -> nat, sizes: set<nat>, limit: nat) {
    && 1 <= limit
    && (forall fee {:trigger build(fee)} :: 1 <= fee <= limit ==> build(fee).Ok?)
    && (forall fee: nat {:trigger SizeAt(build, size, fee)} :: 1 <= fee <= limit ==> SizeAt(build, size, fee) in sizes)
    && (forall a: nat, b: nat {:trigger SizeAt(build, size, a), SizeAt(build, size, b)} ::
          1 <= a <= b <= limit ==> SizeAt(build, size, a) <= SizeAt(build, size, b))
    && RequiredFee(rate, SizeAt(build, size, limit)).Some?
    && RequiredFee(rate, SizeAt(build, size, limit)).value <= limit
  }

  /** Within the limit a tame builder demands a fee within the limit. */
  lemma DemandWithinLimit<T>(rate: nat, build: nat -> Result<T>, size: T -> nat, sizes: set<nat>, limit: nat, fee: nat)
    requires Tame(rate, build, size, sizes, limit) && 1 <= fee <= limit
    ensures build(fee).Ok?
    ensures RequiredFee(rate, SizeAt(build, size, fee)).Some?
            && RequiredFee(rate, SizeAt(build, size, fee)).value <= limit
  {
    RequiredFeeMonotone(rate, SizeAt(build, size, fee), SizeAt(build, size, limit));
  }

  /** How far a tame search has come: the sizes met so far increase, and no exact fee lies below. */
  ghost predicate Climbing<T>(rate: nat, build: nat -> Result<T>, size: T -> nat, sizes: set<nat>, limit: nat,
                              seen: set<nat>, previous: nat, fee: nat) {
    && seen <= sizes && 1 <= fee <= limit
    && (forall p :: Exact(rate, build, size, p) ==> fee <= p)
    && (if seen == {} then fee == 1
        else
          && 1 <= previous <= fee && RequiredFee(rate, SizeAt(build, size, previous)) == Some(fee)
          && forall b :: b in seen ==> b <= SizeAt(build, size, previous))
  }

  lemma Climb<T>(rate: nat, build: nat -> Result<T>, size: T -> nat, sizes: set<nat>, limit: nat,
                 seen: set<nat>, previous: nat, fee: nat, required: nat)
    requires Tame(rate, build, size, sizes, limit) && Climbing(rate, build, size, sizes, limit, seen, previous, fee)
    requires RequiredFee(rate, SizeAt(build, size, fee)) == Some(required) && fee != required
    ensures var bytes := SizeAt(build, size, fee);
            && bytes !in seen && fee < required
            && Climbing(rate, build, size, sizes, limit, seen + {bytes}, fee, required)
  {
    var bytes := SizeAt(build, size, fee);
    DemandWithinLimit(rate, build, size, sizes, limit, fee);
    if seen != {} {
      RequiredFeeMonotone(rate, SizeAt(build, size, previous), bytes);
    }
    forall p: nat | Exact(rate, build, size, p)
      ensures required <= p
    {
      if p <= limit {
        RequiredFeeMonotone(rate, bytes, SizeAt(build, size, p));
      }
    }
  }

  method Round<T>(rate: nat, build: nat -> Result<T>, size: T -> nat, fee: nat)
    returns (e: Result<Estimate<T>>, required: nat)
    ensures e.Ok? ==> build(fee) == Ok(e.value.built) && e.value == Estimate(e.value.built, size(e.value.built), fee)
    ensures e.Ok? ==> RequiredFee(rate, SizeAt(build, size, fee)) == Some(required)
    ensures e.Ok? ==> e.value.bytes == SizeAt(build, size, fee)
    ensures build(fee).Ok? && RequiredFee(rate, SizeAt(build, size, fee)).Some? ==> e.Ok?
  {
    var built := build(fee);
    if built.Err? {
      return Err(built.reason), 0;
    }
    var bytes := size(built.value);
    var r := RequiredFee(rate, bytes);
    if r.None? {
      return Err("fee per byte times transaction bytes overflows"), 0;
    }
    return Ok(Estimate(built.value, bytes, fee)), r.value;
  }

  /** Whatever it returns pays for its own size. When, within some limit, every fee builds and size is
      monotone and takes at most 63 values, it returns the least of all exact fees. */
  method ConvergeFeeByByte<T>(rate: nat, build: nat -> Result<T>, size: T -> nat, ghost sizes: set<nat>,
                              ghost limit: nat)
    returns (r: Result<Estimate<T>>)
    ensures r.Ok? ==> Covers(r.value, rate, build, size)
    ensures Tame(rate, build, size, sizes, limit) && |sizes| < ROUNDS ==>
              && r.Ok? && Exact(rate, build, size, r.value.fee) && r.value.fee <= limit
              && forall p :: Exact(rate, build, size, p) ==> r.value.fee <= p
  {
    var fee: nat := 1;
    var best: Option<Estimate<T>> := None;
    ghost var tame := Tame(rate, build, size, sizes, limit);
    ghost var seen: set<nat>, previous: nat := {}, 0;
    for round := 0 to ROUNDS
      invariant best.Some? ==> Covers(best.value, rate, build, size)
      invariant tame ==> |seen| == round && Climbing(rate, build, size, sizes, limit, seen, previous, fee)
    {
      if tame {
        DemandWithinLimit(rate, build, size, sizes, limit, fee);
      }
      var e, required := Round(rate, build, size, fee);
      if e.Err? {
        return e;
      }
      if fee == required {
        return e;
      }
      if fee > required && (best.None? || fee < best.value.fee) {
        best := Some(e.value);
      }
      if tame {
        Climb(rate, build, size, sizes, limit, seen, previous, fee, required);
        seen, previous := seen + {e.value.bytes}, fee;
      }
      fee := required;
    }
    if tame {
      SubsetSize(seen, sizes);
    }
    if best.Some? {
      return Ok(best.value);
    }
    var e, required := Round(rate, build, size, fee);
    if e.Err? || fee >= required {
      return e;
    }
    var last, finalRequired := Round(rate, build, size, required);
    if last.Ok? && required < finalRequired {
      return Err("fee per byte did not converge");
    }
    return last;
  }
}
