/** Numbers as big-endian bit lists, and cutting a bit list into groups of a fixed width. */
module Bits {
  import opened Segments

  function Pow2(n: nat): pos {
    if n == 0 then 1 else 2 * Pow2(n - 1)
  }

  /** The low `width` bits of `v`, most significant first. */
  function BitsOf(v: nat, width: nat): (r: seq<bool>)
    ensures |r| == width
  {
    if width == 0 then [] else BitsOf(v / 2, width - 1) + [v % 2 == 1]
  }

  function ValueOf(bits: seq<bool>): nat {
    if bits == [] then 0 else 2 * ValueOf(bits[..|bits| - 1]) + if bits[|bits| - 1] then 1 else 0
  }

  function Zeros(n: nat): (r: seq<bool>)
    ensures |r| == n && forall i :: 0 <= i < n ==> !r[i]
  {
    seq(n, _ => false)
  }

  // ----- bits and values

  lemma {:induction false} ValueBound(bits: seq<bool>)
    ensures ValueOf(bits) < Pow2(|bits|)
  {
    if bits != [] {
      ValueBound(bits[..|bits| - 1]);
    }
  }

  lemma {:induction false} BitsOfValue(bits: seq<bool>)
    ensures BitsOf(ValueOf(bits), |bits|) == bits
  {
    if bits != [] {
      BitsOfValue(bits[..|bits| - 1]);
    }
  }

  lemma {:induction false} ValueOfBits(v: nat, width: nat)
    ensures ValueOf(BitsOf(v, width)) == Low(v, width)
  {
    if width > 0 {
      ValueOfBits(v / 2, width - 1);
    }
  }

  // ----- shifts and masks

  /** Shift left: v * 2^n. */
  function Shl(v: nat, n: nat): nat {
    if n == 0 then v else 2 * Shl(v, n - 1)
  }

  /** Shift right: drop the low `n` bits. */
  function Shr(v: nat, n: nat): nat {
    if n == 0 then v else Shr(v / 2, n - 1)
  }

  /** Mask: keep the low `n` bits. */
  function Low(v: nat, n: nat): nat {
    if n == 0 then 0 else 2 * Low(v / 2, n - 1) + v % 2
  }

  /** Shifts and masks are the source's products, quotients and remainders by powers of two. */
  lemma {:induction false} ShlIsProduct(v: nat, n: nat)
    ensures Shl(v, n) == v * Pow2(n)
  {
    if n > 0 {
      ShlIsProduct(v, n - 1);
      Doubled(v, Pow2(n - 1));
    }
  }

  lemma ShrIsQuotient(v: nat, n: nat)
    ensures Shr(v, n) == v / Pow2(n) <= v
  {
    ShrAndLow(v, n);
    Quotient(v, Pow2(n), Shr(v, n));
    assert v / Pow2(n) <= v;
  }

  lemma {:induction false} ShrAndLow(v: nat, n: nat)
    ensures v == Shr(v, n) * Pow2(n) + Low(v, n) && Low(v, n) < Pow2(n)
  {
    if n > 0 {
      ShrAndLow(v / 2, n - 1);
      Doubled(Shr(v, n), Pow2(n - 1));
    }
  }

  lemma Doubled(v: nat, p: nat)
    ensures v * (2 * p) == 2 * (v * p)
  {
  }

  lemma {:induction false} LowKeeps(v: nat, n: nat)
    requires v < Pow2(n)
    ensures Low(v, n) == v
  {
    if n > 0 {
      LowKeeps(v / 2, n - 1);
    }
  }

  /** Splitting a number at bit `low`. */
  lemma {:induction false} BitsSplit(v: nat, high: nat, low: nat)
    ensures BitsOf(v, high + low) == BitsOf(Shr(v, low), high) + BitsOf(v, low)
  {
    if low > 0 {
      BitsSplit(v / 2, high, low - 1);
      assert BitsOf(v, high + low) == BitsOf(v / 2, high + low - 1) + [v % 2 == 1];
    }
  }

  /** Masking to `mask` bits keeps the low `width` ones. */
  lemma {:induction false} BitsMasked(v: nat, mask: nat, width: nat)
    requires width <= mask
    ensures BitsOf(Low(v, mask), width) == BitsOf(v, width)
  {
    if width > 0 {
      BitsMasked(v / 2, mask - 1, width - 1);
    }
  }

  /** Shifting in `from` new bits. */
  lemma {:induction false} BitsShifted(acc: nat, v: nat, width: nat, from: nat)
    requires v < Pow2(from)
    ensures BitsOf(Shl(acc, from) + v, width + from) == BitsOf(acc, width) + BitsOf(v, from)
  {
    if from > 0 {
      BitsShifted(acc, v / 2, width, from - 1);
      assert (Shl(acc, from) + v) / 2 == Shl(acc, from - 1) + v / 2;
      assert BitsOf(Shl(acc, from) + v, width + from) ==
             BitsOf(Shl(acc, from - 1) + v / 2, width + from - 1) + [v % 2 == 1];
    }
  }

  // ----- lists of numbers

  /** The concatenated bits of numbers of one width. */
  function Flat(values: seq<nat>, width: nat): seq<bool> {
    if values == [] then [] else Flat(values[..|values| - 1], width) + BitsOf(values[|values| - 1], width)
  }

  /** The numbers spelled by the complete groups of a bit list. */
  function Group(bits: seq<bool>, width: pos): seq<nat> {
    if |bits| < width then [] else [ValueOf(bits[..width])] + Group(bits[width..], width)
  }

  /** What is left after the complete groups. */
  function Rest(bits: seq<bool>, width: pos): (r: seq<bool>)
    ensures |r| < width
  {
    if |bits| < width then bits else Rest(bits[width..], width)
  }

  ghost predicate Within(values: seq<nat>, width: nat) {
    forall i :: 0 <= i < |values| ==> values[i] < Pow2(width)
  }

  lemma {:induction false} GroupAppend(a: seq<bool>, b: seq<bool>, width: pos)
    ensures Group(a + b, width) == Group(a, width) + Group(Rest(a, width) + b, width)
    ensures Rest(a + b, width) == Rest(Rest(a, width) + b, width)
    decreases |a|
  {
    if |a| >= width {
      GroupAppend(a[width..], b, width);
      assert (a + b)[..width] == a[..width] && (a + b)[width..] == a[width..] + b;
    }
  }

  lemma {:induction false} FlatFront(v: nat, values: seq<nat>, width: nat)
    ensures Flat([v] + values, width) == BitsOf(v, width) + Flat(values, width)
  {
    var whole := [v] + values;
    if values == [] {
      assert whole[..0] == [];
    } else {
      var init, last := values[..|values| - 1], values[|values| - 1];
      FlatFront(v, init, width);
      assert whole[..|whole| - 1] == [v] + init && whole[|whole| - 1] == last;
      Associate(BitsOf(v, width), Flat(init, width), BitsOf(last, width));
    }
  }

  lemma FlatGrouped(first: seq<bool>, later: seq<bool>, groups: seq<nat>, rest: seq<bool>, width: pos)
    requires |first| == width && Flat(groups, width) + rest == later
    ensures Flat([ValueOf(first)] + groups, width) + rest == first + later
  {
    BitsOfValue(first);
    FlatFront(ValueOf(first), groups, width);
    Associate(first, Flat(groups, width), rest);
  }

  /** Grouping loses nothing. */
  lemma {:induction false} FlatOfGroup(bits: seq<bool>, width: pos)
    ensures Flat(Group(bits, width), width) + Rest(bits, width) == bits
    decreases |bits|
  {
    if |bits| >= width {
      var first, later := bits[..width], bits[width..];
      var groups, rest := Group(later, width), Rest(later, width);
      FlatOfGroup(later, width);
      FlatGrouped(first, later, groups, rest, width);
      assert Group(bits, width) == [ValueOf(first)] + groups && Rest(bits, width) == rest;
      Rejoined(bits, width);
    }
  }

  lemma {:induction false} GroupWithin(bits: seq<bool>, width: pos)
    ensures Within(Group(bits, width), width)
    decreases |bits|
  {
    if |bits| >= width {
      GroupWithin(bits[width..], width);
      ValueBound(bits[..width]);
    }
  }

  /** Numbers of one width are recovered from their bits. */
  lemma {:induction false} GroupOfFlat(values: seq<nat>, tail: seq<bool>, width: pos)
    requires Within(values, width) && |tail| < width
    ensures Group(Flat(values, width) + tail, width) == values && Rest(Flat(values, width) + tail, width) == tail
  {
    if values != [] {
      var v, rest := values[0], values[1..];
      GroupOfFlat(rest, tail, width);
      assert values == [v] + rest;
      FlatFront(v, rest, width);
      ValueOfBits(v, width);
      LowKeeps(v, width);
      CutFront(BitsOf(v, width), Flat(rest, width), tail);
    } else {
      assert Flat(values, width) + tail == tail;
    }
  }

  lemma Associate<T>(a: seq<T>, b: seq<T>, c: seq<T>)
    ensures (a + b) + c == a + (b + c)
  {
  }

  lemma Rejoined<T>(s: seq<T>, k: nat)
    requires k <= |s|
    ensures s[..k] + s[k..] == s
  {
  }

  lemma CutFront<T>(a: seq<T>, b: seq<T>, c: seq<T>)
    ensures (a + b + c)[..|a|] == a && (a + b + c)[|a|..] == b + c
  {
  }

  lemma {:induction false} FlatLength(values: seq<nat>, width: nat)
    ensures |Flat(values, width)| == |values| * width
  {
    if values != [] {
      FlatLength(values[..|values| - 1], width);
      assert |values| * width == (|values| - 1) * width + width;
    }
  }

  /** The same bits in groups of one width are the same numbers. */
  lemma FlatInjective(a: seq<nat>, b: seq<nat>, width: pos)
    requires Within(a, width) && Within(b, width) && Flat(a, width) == Flat(b, width)
    ensures a == b
  {
    GroupOfFlat(a, [], width);
    GroupOfFlat(b, [], width);
  }
}
