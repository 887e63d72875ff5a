/** Exclusive or of natural numbers, bit by bit. */
module Xors {
  import opened Bits

  function Xor(a: nat, b: nat): nat
    decreases a + b
  {
    if a == 0 && b == 0 then 0 else 2 * Xor(a / 2, b / 2) + if a % 2 != b % 2 then 1 else 0
  }

  lemma XorHalf(a: nat, b: nat)
    ensures Xor(a, b) / 2 == Xor(a / 2, b / 2)
    ensures Xor(a, b) % 2 == if a % 2 != b % 2 then 1 else 0
  {
  }

  lemma {:induction false} XorSwap(a: nat, b: nat, c: nat, d: nat)
    ensures Xor(Xor(a, b), Xor(c, d)) == Xor(Xor(a, c), Xor(b, d))
    decreases a + b + c + d
  {
    if a + b + c + d > 0 {
      XorSwap(a / 2, b / 2, c / 2, d / 2);
      XorHalf(a, b);
      XorHalf(c, d);
      XorHalf(a, c);
      XorHalf(b, d);
      XorHalf(Xor(a, b), Xor(c, d));
      XorHalf(Xor(a, c), Xor(b, d));
    }
  }

  lemma {:induction false} XorUnit(a: nat)
    ensures Xor(a, 0) == a && Xor(0, a) == a && Xor(a, a) == 0
  {
    if a > 0 {
      XorUnit(a / 2);
    }
  }

  lemma {:induction false} XorCancel(a: nat, b: nat)
    requires Xor(a, b) == 0
    ensures a == b
    decreases a + b
  {
    if a + b > 0 {
      XorCancel(a / 2, b / 2);
    }
  }

  lemma {:induction false} XorShl(a: nat, b: nat, n: nat)
    ensures Xor(Shl(a, n), Shl(b, n)) == Shl(Xor(a, b), n)
  {
    if n > 0 {
      XorShl(a, b, n - 1);
    }
  }

  lemma {:induction false} XorShr(a: nat, b: nat, n: nat)
    ensures Shr(Xor(a, b), n) == Xor(Shr(a, n), Shr(b, n))
  {
    if n > 0 {
      XorHalf(a, b);
      XorShr(a / 2, b / 2, n - 1);
    }
  }

  lemma {:induction false} XorLow(a: nat, b: nat, n: nat)
    ensures Low(Xor(a, b), n) == Xor(Low(a, n), Low(b, n))
  {
    if n > 0 {
      XorHalf(a, b);
      XorLow(a / 2, b / 2, n - 1);
    }
  }

  lemma {:induction false} XorBound(a: nat, b: nat, n: nat)
    requires a < Pow2(n) && b < Pow2(n)
    ensures Xor(a, b) < Pow2(n)
  {
    if n > 0 {
      XorHalf(a, b);
      XorBound(a / 2, b / 2, n - 1);
    }
  }

  predicate Bit(v: nat, i: nat) { Shr(v, i) % 2 == 1 }

  lemma XorBit(a: nat, b: nat, i: nat)
    ensures Bit(Xor(a, b), i) == (Bit(a, i) != Bit(b, i))
  {
    XorShr(a, b, i);
    XorHalf(Shr(a, i), Shr(b, i));
  }

  /** Bits shifted clear of each other add up. */
  lemma {:induction false} XorDisjoint(a: nat, v: nat, n: nat)
    requires v < Pow2(n)
    ensures Xor(Shl(a, n), v) == Shl(a, n) + v
  {
    if n > 0 {
      XorDisjoint(a, v / 2, n - 1);
    } else {
      XorUnit(a);
    }
  }
}

/** The Bech32m checksum over 30-bit states: linear, each step a bijection, and the error detection
    that follows. */
module Polymod {
  import opened Bits
  import opened Xors

  const BECH32M: nat := 0x2bc830a3

  function Generator(i: nat): nat {
    if i == 0 then 0x3b6a57b2
    else if i == 1 then 0x26508e6d
    else if i == 2 then 0x1ea119fa
    else if i == 3 then 0x3d4233dd
    else 0x2a1462b3
  }

  function Masked(top: nat, i: nat): nat {
    if Bit(top, i) then Generator(i) else 0
  }

  /** The generators selected by the low `n` bits of what leaves the state. */
  function Feedback(top: nat, n: nat): nat {
    if n == 0 then 0 else Xor(Feedback(top, n - 1), Masked(top, n - 1))
  }

  function Step(c: nat, v: nat): nat {
    Xor(Xor(Shl(Low(c, 25), 5), v), Feedback(Shr(c, 25), 5))
  }

  /** The state after absorbing `values`. */
  function Run(c: nat, values: seq<nat>): nat {
    if values == [] then c else Step(Run(c, values[..|values| - 1]), values[|values| - 1])
  }

  /** The two nested loops compute the run from state 1. */
  method Polymod(values: seq<nat>) returns (checksum: nat)
    ensures checksum == Run(1, values)
  {
    checksum := 1;
    for k := 0 to |values|
      invariant checksum == Run(1, values[..k])
    {
      assert values[..k + 1][..k] == values[..k];
      checksum := Absorb(checksum, values[k]);
    }
    assert values[..|values|] == values;
  }

  method Absorb(c: nat, v: nat) returns (r: nat)
    ensures r == Step(c, v)
  {
    var top := Shr(c, 25);
    r := Xor(Shl(Low(c, 25), 5), v);
    ghost var start := r;
    XorUnit(r);
    for index := 0 to 5
      invariant r == Xor(start, Feedback(top, index))
    {
      XorUnit(r);
      XorUnit(start);
      XorUnit(Feedback(top, index));
      if Bit(top, index) {
        XorSwap(start, Feedback(top, index), 0, Generator(index));
        XorUnit(Generator(index));
        r := Xor(r, Generator(index));
      }
    }
  }

  // ----- every step is linear

  lemma MaskedXor(a: nat, b: nat, i: nat)
    ensures Masked(Xor(a, b), i) == Xor(Masked(a, i), Masked(b, i))
  {
    XorBit(a, b, i);
    XorUnit(Generator(i));
    XorUnit(0);
  }

  lemma {:induction false} FeedbackXor(a: nat, b: nat, n: nat)
    ensures Feedback(Xor(a, b), n) == Xor(Feedback(a, n), Feedback(b, n))
  {
    if n > 0 {
      FeedbackXor(a, b, n - 1);
      MaskedXor(a, b, n - 1);
      XorSwap(Feedback(a, n - 1), Feedback(b, n - 1), Masked(a, n - 1), Masked(b, n - 1));
    }
  }

  lemma StepXor(a: nat, b: nat, u: nat, v: nat)
    ensures Step(Xor(a, b), Xor(u, v)) == Xor(Step(a, u), Step(b, v))
  {
    var sa, sb := Shl(Low(a, 25), 5), Shl(Low(b, 25), 5);
    var fa, fb := Feedback(Shr(a, 25), 5), Feedback(Shr(b, 25), 5);
    XorLow(a, b, 25);
    XorShl(Low(a, 25), Low(b, 25), 5);
    XorShr(a, b, 25);
    FeedbackXor(Shr(a, 25), Shr(b, 25), 5);
    XorSwap(sa, sb, u, v);
    XorSwap(Xor(sa, u), Xor(sb, v), fa, fb);
  }

  function XorAll(u: seq<nat>, v: seq<nat>): (r: seq<nat>)
    requires |u| == |v|
    ensures |r| == |u| && forall i :: 0 <= i < |r| ==> r[i] == Xor(u[i], v[i])
  {
    seq(|u|, i requires 0 <= i < |u| => Xor(u[i], v[i]))
  }

  /** The checksum of a difference is the difference of the checksums. */
  lemma {:induction false} RunXor(a: nat, b: nat, u: seq<nat>, v: seq<nat>)
    requires |u| == |v|
    ensures Run(Xor(a, b), XorAll(u, v)) == Xor(Run(a, u), Run(b, v))
  {
    if u != [] {
      var k := |u| - 1;
      RunXor(a, b, u[..k], v[..k]);
      assert XorAll(u, v)[..k] == XorAll(u[..k], v[..k]);
      StepXor(Run(a, u[..k]), Run(b, v[..k]), u[k], v[k]);
    }
  }

  lemma {:induction false} RunConcat(c: nat, u: seq<nat>, v: seq<nat>)
    ensures Run(c, u + v) == Run(Run(c, u), v)
  {
    if v == [] {
      assert u + v == u;
    } else {
      RunConcat(c, u, v[..|v| - 1]);
      assert (u + v)[..|u + v| - 1] == u + v[..|v| - 1];
    }
  }

  // ----- every step is a bijection on states

  /** Bit `j` of the feedback: the parity of the selected generators that carry it. */
  predicate Parity(top: nat, n: nat, j: nat) {
    n > 0 && Parity(top, n - 1, j) != (Bit(top, n - 1) && Bit(Generator(n - 1), j))
  }

  lemma {:induction false} ZeroHasNoBits(j: nat)
    ensures !Bit(0, j)
  {
    if j > 0 {
      ZeroHasNoBits(j - 1);
    }
  }

  lemma {:induction false} FeedbackBit(top: nat, n: nat, j: nat)
    ensures Bit(Feedback(top, n), j) == Parity(top, n, j)
  {
    ZeroHasNoBits(j);
    if n > 0 {
      FeedbackBit(top, n - 1, j);
      XorBit(Feedback(top, n - 1), Masked(top, n - 1), j);
    }
  }

  /** Five selectors, one per generator. */
  lemma ParityOfFive(top: nat, j: nat)
    ensures Parity(top, 5, j) ==
            (((((Bit(top, 0) && Bit(Generator(0), j))
               != (Bit(top, 1) && Bit(Generator(1), j)))
              != (Bit(top, 2) && Bit(Generator(2), j)))
             != (Bit(top, 3) && Bit(Generator(3), j)))
            != (Bit(top, 4) && Bit(Generator(4), j)))
  {
    assert Parity(top, 1, j) == (Bit(top, 0) && Bit(Generator(0), j));
    assert Parity(top, 2, j) == (Parity(top, 1, j) != (Bit(top, 1) && Bit(Generator(1), j)));
    assert Parity(top, 3, j) == (Parity(top, 2, j) != (Bit(top, 2) && Bit(Generator(2), j)));
    assert Parity(top, 4, j) == (Parity(top, 3, j) != (Bit(top, 3) && Bit(Generator(3), j)));
  }

  /** The low five bits of the generators, lowest bit first. */
  lemma GeneratorBits()
    ensures !Bit(Generator(0), 0) && Bit(Generator(1), 0) && !Bit(Generator(2), 0) && Bit(Generator(3), 0)
            && Bit(Generator(4), 0)
    ensures Bit(Generator(0), 1) && !Bit(Generator(1), 1) && Bit(Generator(2), 1) && !Bit(Generator(3), 1)
            && Bit(Generator(4), 1)
    ensures !Bit(Generator(0), 2) && Bit(Generator(1), 2) && !Bit(Generator(2), 2) && Bit(Generator(3), 2)
            && !Bit(Generator(4), 2)
    ensures !Bit(Generator(0), 3) && Bit(Generator(1), 3) && Bit(Generator(2), 3) && Bit(Generator(3), 3)
            && !Bit(Generator(4), 3)
    ensures Bit(Generator(0), 4) && !Bit(Generator(1), 4) && Bit(Generator(2), 4) && Bit(Generator(3), 4)
            && Bit(Generator(4), 4)
  {
  }

  lemma {:induction false} NoBits(v: nat, n: nat)
    requires v < Pow2(n) && forall i: nat :: i < n ==> !Bit(v, i)
    ensures v == 0
  {
    if n > 0 {
      forall i: nat | i < n - 1
        ensures !Bit(v / 2, i)
      {
        assert !Bit(v, i + 1);
      }
      NoBits(v / 2, n - 1);
      assert !Bit(v, 0);
    }
  }

  /** The low five bits of the generators are linearly independent. */
  lemma FeedbackKernel(top: nat)
    requires top < Pow2(5) && forall j: nat :: j < 5 ==> !Parity(top, 5, j)
    ensures top == 0
  {
    GeneratorBits();
    ParityOfFive(top, 0);
    ParityOfFive(top, 1);
    ParityOfFive(top, 2);
    ParityOfFive(top, 3);
    ParityOfFive(top, 4);
    NoBits(top, 5);
  }

  lemma {:induction false} ShlBits(v: nat, n: nat, j: nat)
    requires j < n
    ensures !Bit(Shl(v, n), j)
  {
    if j > 0 {
      ShlBits(v, n - 1, j - 1);
    }
  }

  lemma {:induction false} ShlZero(v: nat, n: nat)
    requires Shl(v, n) == 0
    ensures v == 0
  {
    if n > 0 {
      ShlZero(v, n - 1);
    }
  }

  lemma {:induction false} ShrBound(v: nat, m: nat, n: nat)
    requires v < Pow2(m + n)
    ensures Shr(v, n) < Pow2(m)
  {
    if n > 0 {
      ShrBound(v / 2, m, n - 1);
    }
  }

  lemma {:induction false} NoFeedback(n: nat)
    ensures Feedback(0, n) == 0
  {
    if n > 0 {
      NoFeedback(n - 1);
      ZeroHasNoBits(n - 1);
    }
  }

  lemma StepKernel(d: nat)
    requires d < Pow2(30) && Step(d, 0) == 0
    ensures d == 0
  {
    var low, top := Low(d, 25), Shr(d, 25);
    XorUnit(Shl(low, 5));
    XorCancel(Shl(low, 5), Feedback(top, 5));
    ShrBound(d, 5, 25);
    forall j: nat | j < 5
      ensures !Parity(top, 5, j)
    {
      ShlBits(low, 5, j);
      FeedbackBit(top, 5, j);
    }
    FeedbackKernel(top);
    NoFeedback(5);
    ShlZero(low, 5);
    ShrAndLow(d, 25);
  }

  lemma StepInjective(a: nat, b: nat, v: nat)
    requires a < Pow2(30) && b < Pow2(30) && Step(a, v) == Step(b, v)
    ensures a == b
  {
    StepXor(a, b, v, v);
    XorUnit(v);
    XorUnit(Step(a, v));
    XorBound(a, b, 30);
    StepKernel(Xor(a, b));
    XorCancel(a, b);
  }

  // ----- states stay in 30 bits

  ghost predicate Below(values: seq<nat>, bits: nat) {
    forall i :: 0 <= i < |values| ==> values[i] < Pow2(bits)
  }

  lemma {:induction false} PowMonotone(m: nat, n: nat)
    requires m <= n
    ensures Pow2(m) <= Pow2(n)
  {
    if m < n {
      PowMonotone(m, n - 1);
    }
  }

  lemma {:induction false} ShlBound(a: nat, v: nat, m: nat, n: nat)
    requires a < Pow2(m) && v < Pow2(n)
    ensures Shl(a, n) + v < Pow2(m + n)
  {
    if n > 0 {
      ShlBound(a, v / 2, m, n - 1);
    }
  }

  lemma FivePowers(n: nat)
    ensures Pow2(n + 5) == 32 * Pow2(n)
  {
    assert Pow2(n + 5) == 2 * Pow2(n + 4) && Pow2(n + 4) == 2 * Pow2(n + 3) && Pow2(n + 3) == 2 * Pow2(n + 2);
    assert Pow2(n + 2) == 2 * Pow2(n + 1);
  }

  lemma ThirtyBits()
    ensures Pow2(30) == 0x40000000
  {
    FivePowers(0);
    FivePowers(5);
    FivePowers(10);
    FivePowers(15);
    FivePowers(20);
    FivePowers(25);
  }

  lemma GeneratorBound(i: nat)
    ensures Generator(i) < Pow2(30)
  {
    ThirtyBits();
  }

  lemma {:induction false} FeedbackBound(top: nat, n: nat)
    ensures Feedback(top, n) < Pow2(30)
  {
    if n > 0 {
      FeedbackBound(top, n - 1);
      GeneratorBound(n - 1);
      XorBound(Feedback(top, n - 1), Masked(top, n - 1), 30);
    }
  }

  lemma StepBound(c: nat, v: nat)
    requires v < Pow2(30)
    ensures Step(c, v) < Pow2(30)
  {
    ShrAndLow(c, 25);
    ShlBound(Low(c, 25), 0, 25, 5);
    XorBound(Shl(Low(c, 25), 5), v, 30);
    FeedbackBound(Shr(c, 25), 5);
    XorBound(Xor(Shl(Low(c, 25), 5), v), Feedback(Shr(c, 25), 5), 30);
  }

  lemma {:induction false} RunBound(c: nat, values: seq<nat>)
    requires c < Pow2(30) && Below(values, 30)
    ensures Run(c, values) < Pow2(30)
  {
    if values != [] {
      RunBound(c, values[..|values| - 1]);
      StepBound(Run(c, values[..|values| - 1]), values[|values| - 1]);
    }
  }

  lemma {:induction false} RunInjective(a: nat, b: nat, values: seq<nat>)
    requires a < Pow2(30) && b < Pow2(30) && Below(values, 30) && Run(a, values) == Run(b, values)
    ensures a == b
  {
    if values != [] {
      var init := values[..|values| - 1];
      RunBound(a, init);
      RunBound(b, init);
      StepInjective(Run(a, init), Run(b, init), values[|values| - 1]);
      RunInjective(a, b, init);
    }
  }

  // ----- six symbols fill the state

  /** Five-bit symbols written one after the other. */
  function Pack(symbols: seq<nat>): nat {
    if symbols == [] then 0 else Shl(Pack(symbols[..|symbols| - 1]), 5) + symbols[|symbols| - 1]
  }

  lemma {:induction false} PackBound(symbols: seq<nat>)
    requires Below(symbols, 5)
    ensures Pack(symbols) < Pow2(5 * |symbols|)
  {
    if symbols != [] {
      var init := symbols[..|symbols| - 1];
      PackBound(init);
      ShlBound(Pack(init), symbols[|symbols| - 1], 5 * |init|, 5);
    }
  }

  lemma NothingLeaves(c: nat, n: nat)
    requires c < Pow2(n)
    ensures Shr(c, n) == 0 && Low(c, n) == c
  {
    ShrBound(c, 0, n);
    LowKeeps(c, n);
  }

  lemma SmallStep(c: nat, v: nat)
    requires c < Pow2(25) && v < Pow2(5)
    ensures Step(c, v) == Shl(c, 5) + v
  {
    NothingLeaves(c, 25);
    NoFeedback(5);
    XorDisjoint(c, v, 5);
    XorUnit(Shl(c, 5) + v);
  }

  lemma {:induction false} RunFromZero(symbols: seq<nat>)
    requires Below(symbols, 5) && |symbols| <= 6
    ensures Run(0, symbols) == Pack(symbols)
  {
    if symbols != [] {
      var init := symbols[..|symbols| - 1];
      RunFromZero(init);
      PackBound(init);
      PowMonotone(5 * |init|, 25);
      SmallStep(Pack(init), symbols[|symbols| - 1]);
    }
  }

  lemma {:induction false} PackZero(symbols: seq<nat>)
    requires Pack(symbols) == 0
    ensures forall i :: 0 <= i < |symbols| ==> symbols[i] == 0
  {
    if symbols != [] {
      ShlZero(Pack(symbols[..|symbols| - 1]), 5);
      PackZero(symbols[..|symbols| - 1]);
    }
  }

  /** At most six symbols leave different states when they differ. */
  lemma WindowInjective(c: nat, u: seq<nat>, v: seq<nat>)
    requires |u| == |v| <= 6 && Below(u, 5) && Below(v, 5) && Run(c, u) == Run(c, v)
    ensures u == v
  {
    var d := XorAll(u, v);
    RunXor(c, c, u, v);
    XorUnit(c);
    XorUnit(Run(c, u));
    forall i | 0 <= i < |d|
      ensures d[i] < Pow2(5)
    {
      XorBound(u[i], v[i], 5);
    }
    RunFromZero(d);
    PackZero(d);
    forall i | 0 <= i < |u|
      ensures u[i] == v[i]
    {
      assert d[i] == 0;
      XorCancel(u[i], v[i]);
    }
  }

  /** The states after two sequences that differ only within six consecutive symbols are equal only if
      the sequences are. */
  lemma ErrorsDetected(c: nat, before: seq<nat>, u: seq<nat>, v: seq<nat>, after: seq<nat>)
    requires c < Pow2(30) && Below(before, 30) && Below(after, 30)
    requires |u| == |v| <= 6 && Below(u, 5) && Below(v, 5)
    requires Run(c, before + u + after) == Run(c, before + v + after)
    ensures u == v
  {
    var mid := Run(c, before);
    RunBound(c, before);
    RunConcat(c, before, u);
    RunConcat(c, before, v);
    RunConcat(c, before + u, after);
    RunConcat(c, before + v, after);
    PowMonotone(5, 30);
    assert Below(u, 30) && Below(v, 30);
    RunBound(mid, u);
    RunBound(mid, v);
    RunInjective(Run(mid, u), Run(mid, v), after);
    WindowInjective(mid, u, v);
  }

  /** Two valid sequences under one head that differ only within six consecutive symbols are equal. */
  lemma WindowErrors(head: seq<nat>, x: seq<nat>, y: seq<nat>, at: nat)
    requires Below(head, 30) && Below(x, 5) && Below(y, 5) && |x| == |y| && at <= |x|
    requires forall k :: 0 <= k < |x| && (k < at || at + 6 <= k) ==> x[k] == y[k]
    requires Run(1, head + x) == Run(1, head + y)
    ensures x == y
  {
    var end := if at + 6 < |x| then at + 6 else |x|;
    SameOutside(x, y, at, end);
    SpliceErrors(head, x[..at], x[at..end], y[at..end], x[end..], x, y);
  }

  lemma SpliceErrors(head: seq<nat>, front: seq<nat>, u: seq<nat>, v: seq<nat>, back: seq<nat>, x: seq<nat>,
                     y: seq<nat>)
    requires Below(head, 30) && Below(x, 5) && Below(y, 5) && |u| == |v| <= 6
    requires x == front + u + back && y == front + v + back && Run(1, head + x) == Run(1, head + y)
    ensures x == y
  {
    Parts(front, u, back);
    Parts(front, v, back);
    WidenBelow(front, 30);
    WidenBelow(back, 30);
    PowMonotone(0, 30);
    Rebracket(head, front, u, back);
    Rebracket(head, front, v, back);
    ErrorsDetected(1, head + front, u, v, back);
  }

  lemma Parts(front: seq<nat>, u: seq<nat>, back: seq<nat>)
    requires Below(front + u + back, 5)
    ensures Below(front, 5) && Below(u, 5) && Below(back, 5)
  {
    var whole := front + u + back;
    assert forall i :: 0 <= i < |front| ==> whole[i] == front[i];
    assert forall i :: 0 <= i < |u| ==> whole[|front| + i] == u[i];
    assert forall i :: 0 <= i < |back| ==> whole[|front| + |u| + i] == back[i];
  }

  lemma Rebracket(head: seq<nat>, front: seq<nat>, u: seq<nat>, back: seq<nat>)
    ensures head + (front + u + back) == head + front + u + back
  {
  }

  lemma WidenBelow(x: seq<nat>, bits: nat)
    requires Below(x, 5) && 5 <= bits
    ensures Below(x, bits)
  {
    PowMonotone(5, bits);
  }

  lemma SameOutside(x: seq<nat>, y: seq<nat>, at: nat, end: nat)
    requires |x| == |y| && at <= end <= |x| && forall k :: 0 <= k < |x| && (k < at || end <= k) ==> x[k] == y[k]
    ensures x[..at] == y[..at] && x[end..] == y[end..]
    ensures x == x[..at] + x[at..end] + x[end..] && y == x[..at] + y[at..end] + x[end..]
  {
  }

  // ----- the checksum symbols

  /** Symbol `k` of six, most significant first. */
  function Symbol(mod: nat, k: nat): nat
    requires k < 6
  {
    Low(Shr(mod, 5 * (5 - k)), 5)
  }

  function Symbols(mod: nat, n: nat): (r: seq<nat>)
    requires n <= 6
    ensures |r| == n
  {
    seq(n, k requires 0 <= k < n => Symbol(mod, k))
  }

  lemma {:induction false} ShrTwice(v: nat, m: nat, n: nat)
    ensures Shr(Shr(v, m), n) == Shr(v, m + n)
  {
    if m > 0 {
      ShrTwice(v / 2, m - 1, n);
    }
  }

  lemma {:induction false} Reassembled(x: nat, n: nat)
    ensures Shl(Shr(x, n), n) + Low(x, n) == x
  {
    if n > 0 {
      Reassembled(x / 2, n - 1);
    }
  }

  lemma {:induction false} PackSymbols(mod: nat, n: nat, at: nat, top: nat)
    requires n <= 6 && at == 5 * (6 - n) && top == 30 && Shr(mod, top) == 0
    ensures Pack(Symbols(mod, n)) == Shr(mod, at)
  {
    if n > 0 {
      PackSymbols(mod, n - 1, at + 5, top);
      ShrTwice(mod, at, 5);
      var x := Shr(mod, at);
      SymbolsGrow(mod, n, at, x);
      PackOne(Symbols(mod, n), Symbols(mod, n - 1), Low(x, 5), x);
    }
  }

  lemma PackAll(mod: nat, top: nat)
    requires top == 30 && mod < Pow2(top)
    ensures Pack(Symbols(mod, 6)) == mod
  {
    ShrBound(mod, 0, top);
    PackSymbols(mod, 6, 0, top);
  }

  lemma SymbolsGrow(mod: nat, n: nat, at: nat, x: nat)
    requires 0 < n <= 6 && at == 5 * (6 - n) && x == Shr(mod, at)
    ensures Symbols(mod, n) == Symbols(mod, n - 1) + [Low(x, 5)]
  {
    assert Symbol(mod, n - 1) == Low(x, 5);
  }

  lemma PackOne(symbols: seq<nat>, init: seq<nat>, last: nat, x: nat)
    requires symbols == init + [last] && Pack(init) == Shr(x, 5) && last == Low(x, 5)
    ensures Pack(symbols) == x
  {
    assert symbols[..|symbols| - 1] == init;
    Reassembled(x, 5);
  }

  lemma SymbolsBelow(mod: nat)
    ensures Below(Symbols(mod, 6), 5)
  {
    forall k | 0 <= k < 6
      ensures Symbols(mod, 6)[k] < Pow2(5)
    {
      ShrAndLow(Shr(mod, 5 * (5 - k)), 5);
    }
  }

  function Checksum(prefix: seq<nat>): seq<nat> {
    Symbols(Xor(Run(1, prefix + [0, 0, 0, 0, 0, 0]), BECH32M), 6)
  }

  lemma ChecksumSymbols(prefix: seq<nat>)
    requires Below(prefix, 30)
    ensures Below(Checksum(prefix), 5)
    ensures Pack(Checksum(prefix)) == Xor(Run(1, prefix + [0, 0, 0, 0, 0, 0]), BECH32M)
  {
    var zeros := [0, 0, 0, 0, 0, 0];
    PowMonotone(0, 30);
    RunBound(1, prefix + zeros);
    ThirtyBits();
    XorBound(Run(1, prefix + zeros), BECH32M, 30);
    var mod := Xor(Run(1, prefix + zeros), BECH32M);
    PackAll(mod, 30);
    SymbolsBelow(mod);
  }

  lemma RunOfCheck(c: nat, zeros: seq<nat>, check: seq<nat>)
    requires zeros == [0, 0, 0, 0, 0, 0] && |check| == 6 && Below(check, 5)
    ensures Run(c, check) == Xor(Run(c, zeros), Pack(check))
  {
    RunXor(c, 0, zeros, check);
    XorUnit(c);
    forall k | 0 <= k < 6
      ensures XorAll(zeros, check)[k] == check[k]
    {
      XorUnit(check[k]);
    }
    assert XorAll(zeros, check) == check;
    RunFromZero(check);
  }

  lemma XorBack(p: nat, m: nat)
    ensures Xor(p, Xor(p, m)) == m
  {
    XorSwap(p, 0, p, m);
    XorUnit(p);
    XorUnit(m);
  }

  /** Appending the checksum makes the sequence valid. */
  lemma ChecksumValid(prefix: seq<nat>)
    requires Below(prefix, 30)
    ensures Run(1, prefix + Checksum(prefix)) == BECH32M
  {
    var zeros := [0, 0, 0, 0, 0, 0];
    ChecksumSymbols(prefix);
    RunConcat(1, prefix, zeros);
    RunConcat(1, prefix, Checksum(prefix));
    RunOfCheck(Run(1, prefix), zeros, Checksum(prefix));
    XorBack(Run(1, prefix + zeros), BECH32M);
  }

  lemma EncodedIsValid(head: seq<nat>, payload: seq<nat>, data: seq<nat>)
    requires Below(head, 30) && Below(payload, 5) && data == payload + Checksum(head + payload)
    ensures Below(data, 5) && Run(1, head + data) == BECH32M
  {
    var prefix, check := head + payload, Checksum(head + payload);
    WidenBelow(payload, 30);
    ChecksumSymbols(prefix);
    ChecksumValid(prefix);
    Joined(head, payload, check);
  }

  lemma Joined(a: seq<nat>, b: seq<nat>, c: seq<nat>)
    ensures a + (b + c) == a + b + c
    ensures Below(b, 5) && Below(c, 5) ==> Below(b + c, 5)
  {
  }

  /** And it is the only ending of six symbols that does. */
  lemma ChecksumUnique(prefix: seq<nat>, check: seq<nat>)
    requires Below(prefix, 30) && |check| == 6 && Below(check, 5) && Run(1, prefix + check) == BECH32M
    ensures check == Checksum(prefix)
  {
    ChecksumSymbols(prefix);
    ChecksumValid(prefix);
    PowMonotone(0, 30);
    assert prefix + check == prefix + check + [] && prefix + Checksum(prefix) == prefix + Checksum(prefix) + [];
    ErrorsDetected(1, prefix, check, Checksum(prefix), []);
  }
}
