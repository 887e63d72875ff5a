/** Regrouping numbers of one bit width into another, as address payloads and recovery phrases do. */
module Regroup {
  import opened Results
  import opened Segments
  import opened Bits

  predicate AllZero(bits: seq<bool>) {
    forall i :: 0 <= i < |bits| ==> !bits[i]
  }

  predicate Fits(data: seq<nat>, from: nat) {
    forall i :: 0 <= i < |data| ==> data[i] < Pow2(from)
  }

  /** What regrouping means: the same bits, padded with zeros, or refused if what is left over is a
      whole input group or not all zeros. */
  function Regrouped(data: seq<nat>, from: pos, to: pos, pad: bool): Result<seq<nat>> {
    if !Fits(data, from) then Err("Invalid address data")
    else
      Closed(Group(Flat(data, from), to), Rest(Flat(data, from), to), from, to, pad)
  }

  function Closed(whole: seq<nat>, rest: seq<bool>, from: pos, to: pos, pad: bool): Result<seq<nat>>
    requires |rest| < to
  {
    if pad then Ok(whole + if rest == [] then [] else [ValueOf(rest + Zeros(to - |rest|))])
    else if |rest| >= from || !AllZero(rest) then Err("Invalid address padding")
    else Ok(whole)
  }

  // ----- the accumulator loop

  lemma GroupFirst(acc: nat, bits: nat, to: pos)
    requires to <= bits
    ensures Group(BitsOf(acc, bits), to) == [Low(Shr(acc, bits - to), to)] + Group(BitsOf(acc, bits - to), to)
    ensures Rest(BitsOf(acc, bits), to) == Rest(BitsOf(acc, bits - to), to)
  {
    BitsSplit(acc, to, bits - to);
    ValueOfBits(Shr(acc, bits - to), to);
    CutFront(BitsOf(Shr(acc, bits - to), to), BitsOf(acc, bits - to), []);
    assert BitsOf(acc, bits) + [] == BitsOf(acc, bits);
    assert BitsOf(acc, bits - to) + [] == BitsOf(acc, bits - to);
  }

  /** Shift one value into the accumulator and mask it. */
  lemma ShiftIn(acc: nat, value: nat, bits: nat, from: pos, to: pos)
    requires bits < to && value < Pow2(from)
    ensures BitsOf(Low(Shl(acc, from) + value, from + to - 1), bits + from) == BitsOf(acc, bits) + BitsOf(value, from)
  {
    BitsMasked(Shl(acc, from) + value, from + to - 1, bits + from);
    BitsShifted(acc, value, bits, from);
  }

  method Drain(acc: nat, bits: nat, to: pos, result: seq<nat>) returns (out: seq<nat>, left: nat)
    ensures left < to
    ensures out == result + Group(BitsOf(acc, bits), to) && BitsOf(acc, left) == Rest(BitsOf(acc, bits), to)
  {
    out, left := result, bits;
    while left >= to
      invariant out + Group(BitsOf(acc, left), to) == result + Group(BitsOf(acc, bits), to)
      invariant Rest(BitsOf(acc, left), to) == Rest(BitsOf(acc, bits), to)
    {
      GroupFirst(acc, left, to);
      left := left - to;
      out := out + [Low(Shr(acc, left), to)];
    }
  }

  lemma PaddedGroup(acc: nat, bits: nat, to: pos)
    requires bits < to
    ensures Low(Shl(acc, to - bits), to) == ValueOf(BitsOf(acc, bits) + Zeros(to - bits))
  {
    BitsShifted(acc, 0, bits, to - bits);
    ZeroBits(to - bits);
    ValueOfBits(Shl(acc, to - bits), to);
  }

  lemma {:induction false} ZeroBits(n: nat)
    ensures BitsOf(0, n) == Zeros(n)
  {
    if n > 0 {
      ZeroBits(n - 1);
    }
  }

  lemma {:induction false} ZeroValue(bits: seq<bool>)
    ensures ValueOf(bits) == 0 <==> AllZero(bits)
  {
    if bits != [] {
      ZeroValue(bits[..|bits| - 1]);
    }
  }

  lemma PaddedZero(bits: seq<bool>, n: nat)
    ensures ValueOf(bits + Zeros(n)) == 0 <==> AllZero(bits)
  {
    ZeroValue(bits + Zeros(n));
    assert forall i :: 0 <= i < |bits| ==> (bits + Zeros(n))[i] == bits[i];
  }

  /** The bit accumulator computes exactly the regrouping. */
  method ConvertBits(data: seq<nat>, from: pos, to: pos, pad: bool) returns (r: Result<seq<nat>>)
    ensures r == Regrouped(data, from, to, pad)
  {
    var acc: nat, bits: nat, result: seq<nat> := 0, 0, [];
    for i := 0 to |data|
      invariant Fits(data[..i], from) && bits < to
      invariant result == Group(Flat(data[..i], from), to) && BitsOf(acc, bits) == Rest(Flat(data[..i], from), to)
    {
      if data[i] >= Pow2(from) {
        return Err("Invalid address data");
      }
      FlatNext(data, i, from);
      acc, bits, result := Accumulate(acc, bits, result, data[i], from, to, Flat(data[..i], from),
          Flat(data[..i + 1], from));
    }
    assert data[..|data|] == data;
    r := Close(acc, bits, result, from, to, pad);
  }

  /** Pad the last group, or refuse what is left over. */
  method Close(acc: nat, bits: nat, result: seq<nat>, from: pos, to: pos, pad: bool) returns (r: Result<seq<nat>>)
    requires bits < to
    ensures r == Closed(result, BitsOf(acc, bits), from, to, pad)
  {
    PaddedGroup(acc, bits, to);
    PaddedZero(BitsOf(acc, bits), to - bits);
    if pad && bits > 0 {
      return Ok(result + [Low(Shl(acc, to - bits), to)]);
    } else if !pad && (bits >= from || Low(Shl(acc, to - bits), to) != 0) {
      return Err("Invalid address padding");
    }
    assert result + [] == result;
    return Ok(result);
  }

  /** One value: shift it in, then push every complete group. */
  method Accumulate(acc: nat, bits: nat, result: seq<nat>, value: nat, from: pos, to: pos, ghost before: seq<bool>,
                    ghost after: seq<bool>)
    returns (acc': nat, bits': nat, result': seq<nat>)
    requires value < Pow2(from) && bits < to && after == before + BitsOf(value, from)
    requires result == Group(before, to) && BitsOf(acc, bits) == Rest(before, to)
    ensures bits' < to
    ensures result' == Group(after, to) && BitsOf(acc', bits') == Rest(after, to)
  {
    ShiftIn(acc, value, bits, from, to);
    acc' := Low(Shl(acc, from) + value, from + to - 1);
    result', bits' := Drain(acc', bits + from, to, result);
    GroupAppend(before, BitsOf(value, from), to);
  }

  lemma FlatNext(data: seq<nat>, i: nat, from: pos)
    requires i < |data|
    ensures Flat(data[..i + 1], from) == Flat(data[..i], from) + BitsOf(data[i], from)
  {
    assert data[..i + 1][..i] == data[..i];
  }

  // ----- round trips, for lists of any length

  /** Padded regrouping keeps the bits and adds fewer than one group of zeros. */
  lemma PaddedBits(data: seq<nat>, from: pos, to: pos)
    requires Fits(data, from)
    ensures var s := Regrouped(data, from, to, true).value;
            var bits := Flat(data, from);
            && Within(s, to)
            && |bits| <= |Flat(s, to)| < |bits| + to
            && Flat(s, to) == bits + Zeros(|Flat(s, to)| - |bits|)
  {
    var bits := Flat(data, from);
    FlatOfGroup(bits, to);
    GroupWithin(bits, to);
    PaddedFlat(bits, Group(bits, to), Rest(bits, to), to);
  }

  lemma PaddedFlat(bits: seq<bool>, whole: seq<nat>, rest: seq<bool>, to: pos)
    requires bits == Flat(whole, to) + rest && |rest| < to && Within(whole, to)
    ensures var s := whole + if rest == [] then [] else [ValueOf(rest + Zeros(to - |rest|))];
            && Within(s, to)
            && |bits| <= |Flat(s, to)| < |bits| + to
            && Flat(s, to) == bits + Zeros(|Flat(s, to)| - |bits|)
  {
    if rest == [] {
      assert bits + Zeros(0) == bits && whole + [] == whole;
    } else {
      var last := rest + Zeros(to - |rest|);
      BitsOfValue(last);
      ValueBound(last);
      var s := whole + [ValueOf(last)];
      assert s[..|s| - 1] == whole;
      assert Flat(s, to) == Flat(whole, to) + last;
    }
  }

  /** Regrouping into smaller groups with padding, and back without, gives the numbers back. */
  lemma RegroupRoundTrip(data: seq<nat>, wide: pos, narrow: pos)
    requires Fits(data, wide) && narrow <= wide
    ensures var s := Regrouped(data, wide, narrow, true);
            s.Ok? && Regrouped(s.value, narrow, wide, false) == Ok(data)
  {
    PaddedBits(data, wide, narrow);
    var s := Regrouped(data, wide, narrow, true).value;
    GroupOfFlat(data, Zeros(|Flat(s, narrow)| - |Flat(data, wide)|), wide);
  }

  /** Whatever the unpadded regrouping accepts is what the padded one produces. */
  lemma RegroupCanonical(s: seq<nat>, wide: pos, narrow: pos)
    requires narrow <= wide && Regrouped(s, narrow, wide, false).Ok?
    ensures var data := Regrouped(s, narrow, wide, false).value;
            Fits(data, wide) && Regrouped(data, wide, narrow, true) == Ok(s)
  {
    var bits := Flat(s, narrow);
    var data := Group(bits, wide);
    FlatOfGroup(bits, wide);
    GroupWithin(bits, wide);
    var rest := Rest(bits, wide);
    PaddedBits(data, wide, narrow);
    var t := Regrouped(data, wide, narrow, true).value;
    FlatLength(s, narrow);
    FlatLength(t, narrow);
    SameGroupCount(|s|, |t|, |Flat(data, wide)|, narrow);
    assert rest == Zeros(|rest|);
    FlatInjective(s, t, narrow);
  }

  /** Two counts of whole groups that both reach just past the same length are equal. */
  lemma SameGroupCount(a: nat, b: nat, length: nat, width: pos)
    requires length <= a * width < length + width && length <= b * width < length + width
    ensures a == b
  {
    assert (a - b) * width == a * width - b * width && (b - a) * width == b * width - a * width;
    SmallMultiple(a - b, width);
    SmallMultiple(b - a, width);
  }

  lemma SmallMultiple(d: int, m: pos)
    ensures d > 0 ==> d * m >= m
  {
  }
}
