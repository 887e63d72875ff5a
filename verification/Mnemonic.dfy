/** Recovery phrases: 24 words spelling 32 bytes of entropy and a checksum, and unbiased entropy from
    dice. */
module Mnemonic {
  import opened Results
  import opened Segments
  import opened Bits
  import opened Regroup

  const ENTROPY_BYTES: nat := 32
  const WORD_COUNT: nat := 24
  const DICE_ROLL_COUNT: nat := 102

  /** A word list of 2048 distinct words, and the first byte of the entropy's digest. */
  datatype Scheme = Scheme(words: seq<string>, digest: seq<nat> -> nat)

  ghost predicate IsScheme(s: Scheme) {
    && |s.words| == Pow2(11)
    && DistinctWords(s.words)
    && (forall entropy {:trigger s.digest(entropy)} :: s.digest(entropy) < Pow2(8))
  }

  ghost predicate DistinctWords(words: seq<string>) {
    forall i, j :: 0 <= i < j < |words| ==> words[i] != words[j]
  }

  // ----- phrases

  function PhraseBits(s: Scheme, entropy: seq<nat>): seq<bool> {
    Flat(entropy, 8) + BitsOf(s.digest(entropy), 8)
  }

  function Spell(s: Scheme, indexes: seq<nat>): seq<string>
    requires forall i :: 0 <= i < |indexes| ==> indexes[i] < |s.words|
  {
    seq(|indexes|, i requires 0 <= i < |indexes| => s.words[indexes[i]])
  }

  function IndexesOf(s: Scheme, entropy: seq<nat>): (r: seq<nat>)
    requires |s.words| == Pow2(11)
    ensures forall i :: 0 <= i < |r| ==> r[i] < |s.words|
  {
    GroupWithin(PhraseBits(s, entropy), 11);
    Group(PhraseBits(s, entropy), 11)
  }

  function MnemonicFromEntropy(s: Scheme, entropy: seq<nat>): Result<seq<string>>
    requires |s.words| == Pow2(11)
  {
    if |entropy| != ENTROPY_BYTES then Err("A 24-word seed requires exactly 32 bytes of entropy")
    else Ok(Spell(s, IndexesOf(s, entropy)))
  }

  function WordIndex(words: seq<string>, word: string, i: nat): (r: Option<nat>)
    requires i <= |words|
    ensures r.Some? ==> i <= r.value < |words| && words[r.value] == word
    ensures r.None? ==> forall k :: i <= k < |words| ==> words[k] != word
    decreases |words| - i
  {
    if i == |words| then None else if words[i] == word then Some(i) else WordIndex(words, word, i + 1)
  }

  function Indexes(s: Scheme, phrase: seq<string>): (r: Result<seq<nat>>)
    ensures r.Ok? ==> |r.value| == |phrase|
  {
    if phrase == [] then Ok([])
    else
      var init := Indexes(s, phrase[..|phrase| - 1]);
      var last := WordIndex(s.words, phrase[|phrase| - 1], 0);
      if init.Err? then init
      else if last.None? then Err("The seed phrase contains an unknown BIP-39 word")
      else Ok(init.value + [last.value])
  }

  /** The entropy a phrase spells, if its words are known and its checksum is right. */
  function PhraseEntropy(s: Scheme, phrase: seq<string>): Result<seq<nat>> {
    if |phrase| != WORD_COUNT then Err("A seed phrase must contain exactly 24 words")
    else
      var indexes := Indexes(s, phrase);
      if indexes.Err? then Err(indexes.reason)
      else
        FlatLength(indexes.value, 11);
        var bits := Flat(indexes.value, 11);
        var entropy := Group(bits[..256], 8);
        if BitsOf(s.digest(entropy), 8) != bits[256..] then Err("The seed phrase checksum is invalid") else Ok(entropy)
  }

  // ----- the two directions

  lemma {:induction false} IndexesOfSpelled(s: Scheme, indexes: seq<nat>)
    requires DistinctWords(s.words) && forall i :: 0 <= i < |indexes| ==> indexes[i] < |s.words|
    ensures Indexes(s, Spell(s, indexes)) == Ok(indexes)
  {
    if indexes != [] {
      var k := |indexes| - 1;
      var init, phrase := indexes[..k], Spell(s, indexes);
      IndexesOfSpelled(s, init);
      assert phrase[..k] == Spell(s, init) && phrase[k] == s.words[indexes[k]];
      assert WordIndex(s.words, phrase[k], 0) == Some(indexes[k]);
      assert indexes == init + [indexes[k]];
    }
  }

  lemma {:induction false} SpelledOfIndexes(s: Scheme, phrase: seq<string>)
    requires |s.words| == Pow2(11) && Indexes(s, phrase).Ok?
    ensures var indexes := Indexes(s, phrase).value;
            Within(indexes, 11) && Spell(s, indexes) == phrase
  {
    if phrase != [] {
      SpelledOfIndexes(s, phrase[..|phrase| - 1]);
    }
  }

  lemma EntropyLength(s: Scheme, entropy: seq<nat>)
    requires |entropy| == ENTROPY_BYTES
    ensures |Flat(entropy, 8)| == 256 && |PhraseBits(s, entropy)| == 264
  {
    FlatLength(entropy, 8);
  }

  lemma {:induction false} GroupCount(bits: seq<bool>, width: pos, count: nat)
    requires |bits| == count * width
    ensures |Group(bits, width)| == count && Rest(bits, width) == []
    decreases count
  {
    if count > 0 {
      OneLess(count, width);
      GroupCount(bits[width..], width, count - 1);
    }
  }

  lemma OneLess(count: nat, width: pos)
    requires count > 0
    ensures (count - 1) * width == count * width - width && (count - 1) * width >= 0
  {
  }

  /** The words of any 32 bytes spell exactly their bits and checksum, and validate. */
  lemma PhraseRoundTrip(s: Scheme, entropy: seq<nat>)
    requires IsScheme(s) && |entropy| == ENTROPY_BYTES && Fits(entropy, 8)
    ensures MnemonicFromEntropy(s, entropy).Ok?
    ensures var phrase := MnemonicFromEntropy(s, entropy).value;
            && |phrase| == WORD_COUNT
            && Indexes(s, phrase).Ok? && Flat(Indexes(s, phrase).value, 11) == PhraseBits(s, entropy)
            && PhraseEntropy(s, phrase) == Ok(entropy)
  {
    var bits := PhraseBits(s, entropy);
    EntropyLength(s, entropy);
    GroupCount(bits, 11, 24);
    FlatOfGroup(bits, 11);
    assert Flat(Group(bits, 11), 11) == bits;
    IndexesOfSpelled(s, IndexesOf(s, entropy));
    GroupOfFlat(entropy, [], 8);
    assert bits[..256] == Flat(entropy, 8) && Flat(entropy, 8) + [] == Flat(entropy, 8);
    assert bits[256..] == BitsOf(s.digest(entropy), 8);
  }

  /** Every phrase that validates is the phrase of the entropy it spells. */
  lemma PhraseCanonical(s: Scheme, phrase: seq<string>)
    requires IsScheme(s) && PhraseEntropy(s, phrase).Ok?
    ensures MnemonicFromEntropy(s, PhraseEntropy(s, phrase).value) == Ok(phrase)
  {
    SpelledOfIndexes(s, phrase);
    var indexes := Indexes(s, phrase).value;
    FlatLength(indexes, 11);
    var bits, entropy := Flat(indexes, 11), PhraseEntropy(s, phrase).value;
    SpelledBits(s, bits, entropy);
    GroupOfFlat(indexes, [], 11);
    assert bits + [] == bits;
  }

  lemma SpelledBits(s: Scheme, bits: seq<bool>, entropy: seq<nat>)
    requires |bits| == 264 && entropy == Group(bits[..256], 8) && BitsOf(s.digest(entropy), 8) == bits[256..]
    ensures |entropy| == ENTROPY_BYTES && PhraseBits(s, entropy) == bits
  {
    GroupCount(bits[..256], 8, 32);
    FlatOfGroup(bits[..256], 8);
    assert bits == bits[..256] + bits[256..];
  }

  // ----- entropy from dice

  function Pow6(n: nat): pos {
    if n == 0 then 1 else 6 * Pow6(n - 1)
  }

  predicate AreRolls(rolls: seq<nat>, n: nat) {
    |rolls| == n && forall i :: 0 <= i < n ==> 1 <= rolls[i] <= 6
  }

  /** The rolls read as a number in base six. */
  function RollValue(rolls: seq<nat>): nat
    requires AreRolls(rolls, |rolls|)
  {
    if rolls == [] then 0 else 6 * RollValue(rolls[..|rolls| - 1]) + (rolls[|rolls| - 1] - 1)
  }

  /** The rolls whose number is `v`. */
  function RollsOf(v: nat, n: nat): (r: seq<nat>)
    ensures AreRolls(r, n)
  {
    if n == 0 then [] else RollsOf(v / 6, n - 1) + [v % 6 + 1]
  }

  /** The first roll is the most significant digit, and a one counts zero. */
  lemma {:induction false} RollsAreDigits(first: nat, rest: seq<nat>)
    requires AreRolls([first] + rest, |rest| + 1)
    ensures AreRolls(rest, |rest|) && RollValue([first] + rest) == (first - 1) * Pow6(|rest|) + RollValue(rest)
  {
    var all := [first] + rest;
    assert all[0] == first;
    assert forall i :: 0 <= i < |rest| ==> rest[i] == all[i + 1];
    if rest == [] {
      assert all[..|all| - 1] == [] && RollValue([]) == 0;
    } else {
      assert all[..|all| - 1] == [first] + rest[..|rest| - 1];
      RollsAreDigits(first, rest[..|rest| - 1]);
      DigitBefore(first - 1, Pow6(|rest| - 1), RollValue(rest[..|rest| - 1]), rest[|rest| - 1] - 1);
    }
  }

  lemma DigitBefore(digit: nat, p: nat, v: nat, last: nat)
    ensures 6 * (digit * p + v) + last == digit * (6 * p) + (6 * v + last)
  {
  }

  lemma {:induction false} RollsOfValue(rolls: seq<nat>)
    requires AreRolls(rolls, |rolls|)
    ensures RollsOf(RollValue(rolls), |rolls|) == rolls && RollValue(rolls) < Pow6(|rolls|)
  {
    if rolls != [] {
      var init, last := rolls[..|rolls| - 1], rolls[|rolls| - 1];
      RollsOfValue(init);
      var v := RollValue(rolls);
      assert v / 6 == RollValue(init) && v % 6 + 1 == last;
      assert rolls == init + [last];
    }
  }

  lemma {:induction false} ValueOfRolls(v: nat, n: nat)
    requires v < Pow6(n)
    ensures RollValue(RollsOf(v, n)) == v
  {
    if n > 0 {
      ValueOfRolls(v / 6, n - 1);
    }
  }

  /** Values at or above the limit are refused, so that a whole number of ranges remains. */
  function Limit(n: nat, range: pos): nat {
    SegmentBounds(Pow6(n), range);
    Pow6(n) - SegmentOffset(Pow6(n), range)
  }

  function DiceEntropy(rolls: seq<nat>, n: nat, bytes: nat): Result<seq<nat>> {
    if !AreRolls(rolls, |rolls|) then Err("Dice rolls may only contain the numbers 1 through 6")
    else if |rolls| != n then Err("Enter exactly the required number of dice rolls")
    else if RollValue(rolls) >= Limit(n, Pow2(8 * bytes)) then Err("This roll sequence cannot be used without bias")
    else Ok(Group(BitsOf(RollValue(rolls), 8 * bytes), 8))
  }

  /** The number that big-endian bytes spell. */
  function Number(entropy: seq<nat>): nat { ValueOf(Flat(entropy, 8)) }

  /** The entropy of a value is given exactly by its remainder. */
  lemma EntropyOfValue(v: nat, entropy: seq<nat>)
    requires Fits(entropy, 8)
    ensures Group(BitsOf(v, 8 * |entropy|), 8) == entropy <==> Low(v, 8 * |entropy|) == Number(entropy)
  {
    var m := 8 * |entropy|;
    FlatLength(entropy, 8);
    GroupOfFlat(entropy, [], 8);
    assert Flat(entropy, 8) + [] == Flat(entropy, 8);
    ValueOfBits(v, m);
    BitsOfValue(BitsOf(v, m));
    BitsOfValue(Flat(entropy, 8));
    GroupCount(BitsOf(v, m), 8, |entropy|);
    FlatOfGroup(BitsOf(v, m), 8);
  }

  lemma LimitIsWhole(n: nat, range: pos)
    ensures Limit(n, range) == Start(SegmentId(Pow6(n), range), range) <= Pow6(n)
  {
    SegmentBounds(Pow6(n), range);
  }

  lemma SplitByRange(v: nat, m: nat)
    ensures Shr(v, m) == SegmentId(v, Pow2(m)) && Low(v, m) == SegmentOffset(v, Pow2(m))
  {
    ShrAndLow(v, m);
    StartIsProduct(Shr(v, m), Pow2(m));
    SegmentOfHeight(v, Pow2(m), Shr(v, m));
    SegmentBounds(v, Pow2(m));
  }

  /** The roll sequences whose number is `number` plus one of the first `q` multiples of the range. */
  ghost function RollsFor(number: nat, n: nat, range: pos, q: nat): set<seq<nat>> {
    if q == 0 then {} else RollsFor(number, n, range, q - 1) + {RollsOf(Start(q - 1, range) + number, n)}
  }

  lemma {:induction false} RollsForMembers(number: nat, n: nat, range: pos, q: nat, rolls: seq<nat>)
    requires number < range && Start(q, range) <= Pow6(n)
    ensures rolls in RollsFor(number, n, range, q) <==>
            AreRolls(rolls, n) && exists k: nat :: k < q && RollValue(rolls) == Start(k, range) + number
  {
    if q > 0 {
      RollsForMembers(number, n, range, q - 1, rolls);
      var v := Start(q - 1, range) + number;
      ValueOfRolls(v, n);
      if AreRolls(rolls, n) {
        RollsOfValue(rolls);
      }
    }
  }

  lemma {:induction false} RollsForCount(number: nat, n: nat, range: pos, q: nat)
    requires number < range && Start(q, range) <= Pow6(n)
    ensures |RollsFor(number, n, range, q)| == q
  {
    if q > 0 {
      RollsForCount(number, n, range, q - 1);
      var v := Start(q - 1, range) + number;
      ValueOfRolls(v, n);
      NotCountedYet(number, n, range, q - 1, RollsOf(v, n));
    }
  }

  lemma NotCountedYet(number: nat, n: nat, range: pos, q: nat, rolls: seq<nat>)
    requires number < range && Start(q, range) <= Pow6(n)
    requires AreRolls(rolls, n) && RollValue(rolls) == Start(q, range) + number
    ensures rolls !in RollsFor(number, n, range, q)
  {
    RollsForMembers(number, n, range, q, rolls);
    if k: nat :| k < q && RollValue(rolls) == Start(k, range) + number {
      StartMonotone(k, q, range);
    }
  }

  /** A value below the limit has the entropy exactly when it lies at its number in a whole range. */
  lemma ValueIsOneOf(v: nat, entropy: seq<nat>, n: nat, range: pos, q: nat)
    requires Fits(entropy, 8) && range == Pow2(8 * |entropy|) && q == SegmentId(Pow6(n), range)
    ensures (v < Limit(n, range) && Group(BitsOf(v, 8 * |entropy|), 8) == entropy) <==>
            exists k: nat :: k < q && v == Start(k, range) + Number(entropy)
  {
    EntropyOfValue(v, entropy);
    LimitIsWhole(n, range);
    SplitByRange(v, 8 * |entropy|);
    NumberBound(entropy);
    SegmentBounds(v, range);
    StartMonotone(SegmentId(v, range), q, range);
    StartMonotone(q, SegmentId(v, range), range);
    forall k: nat | v == Start(k, range) + Number(entropy)
      ensures k == SegmentId(v, range)
    {
      SegmentOfHeight(v, range, k);
    }
  }

  lemma NumberBound(entropy: seq<nat>)
    ensures Number(entropy) < Pow2(8 * |entropy|)
  {
    FlatBound(entropy, 8, 8 * |entropy|);
  }

  lemma FlatBound(values: seq<nat>, width: nat, n: nat)
    requires n == |values| * width
    ensures ValueOf(Flat(values, width)) < Pow2(n)
  {
    FlatLength(values, width);
    ValueBound(Flat(values, width));
  }

  /** The conversion is unbiased: every entropy has exactly floor(6^n / 2^(8 bytes)) accepted roll
      sequences. */
  lemma DiceUnbiased(entropy: seq<nat>, n: nat, range: pos, q: nat)
    requires Fits(entropy, 8) && range == Pow2(8 * |entropy|) && q == SegmentId(Pow6(n), range)
    ensures q == Pow6(n) / range
    ensures |RollsFor(Number(entropy), n, range, q)| == q
    ensures forall rolls :: rolls in RollsFor(Number(entropy), n, range, q) <==>
            DiceEntropy(rolls, n, |entropy|) == Ok(entropy)
  {
    QuotientAndRemainder(Pow6(n), range);
    NumberBound(entropy);
    LimitIsWhole(n, range);
    RollsForCount(Number(entropy), n, range, q);
    forall rolls
      ensures rolls in RollsFor(Number(entropy), n, range, q) <==> DiceEntropy(rolls, n, |entropy|) == Ok(entropy)
    {
      RollsForMembers(Number(entropy), n, range, q, rolls);
      if AreRolls(rolls, n) {
        ValueIsOneOf(RollValue(rolls), entropy, n, range, q);
      }
    }
  }

  // ----- the loops

  method RollNumber(rolls: seq<nat>) returns (value: nat)
    requires AreRolls(rolls, |rolls|)
    ensures value == RollValue(rolls)
  {
    value := 0;
    for k := 0 to |rolls|
      invariant value == RollValue(rolls[..k])
    {
      assert rolls[..k + 1][..k] == rolls[..k];
      value := value * 6 + (rolls[k] - 1);
    }
    assert rolls[..|rolls|] == rolls;
  }

  lemma TakeGroup(rest: nat, bits: nat, done: seq<nat>, width: nat)
    requires Fits(done, width)
    ensures BitsOf(rest, bits + width) + Flat(done, width) ==
            BitsOf(Shr(rest, width), bits) + Flat([Low(rest, width)] + done, width)
    ensures Fits([Low(rest, width)] + done, width)
  {
    FlatFront(Low(rest, width), done, width);
    BitsMasked(rest, width, width);
    BitsSplit(rest, bits, width);
    ShrAndLow(rest, width);
  }

  /** Fill the buffer from its end, taking the low bits of the number each time. */
  lemma WrittenBefore(all: seq<nat>, index: nat, low: nat, done: seq<nat>)
    requires index < |all| && all[index] == low && all[index + 1..] == done
    ensures all[index..] == [low] + done
  {
  }

  method FillGroups(value: nat, buffer: array<nat>, width: pos)
    modifies buffer
    ensures Fits(buffer[..], width) && Flat(buffer[..], width) == BitsOf(value, Start(buffer.Length, width))
  {
    var rest: nat, index: nat := value, buffer.Length;
    ghost var all, bits, done := BitsOf(value, Start(index, width)), Start(index, width), [];
    while index > 0
      invariant index <= buffer.Length && bits == Start(index, width) && done == buffer[index..]
      invariant Fits(done, width) && all == BitsOf(rest, bits) + Flat(done, width)
    {
      index := index - 1;
      var low := Low(rest, width);
      buffer[index] := low;
      TakeGroup(rest, bits - width, done, width);
      WrittenBefore(buffer[..], index, low, done);
      bits, done, rest := bits - width, [low] + done, Shr(rest, width);
    }
    assert done == buffer[..];
  }

  method GenerateEntropyFromDice(rolls: seq<nat>) returns (r: Result<seq<nat>>)
    ensures r == DiceEntropy(rolls, DICE_ROLL_COUNT, ENTROPY_BYTES)
  {
    if exists i :: 0 <= i < |rolls| && !(1 <= rolls[i] <= 6) {
      return Err("Dice rolls may only contain the numbers 1 through 6");
    }
    if |rolls| != DICE_ROLL_COUNT {
      return Err("Enter exactly the required number of dice rolls");
    }
    var value := RollNumber(rolls);
    if value >= Limit(DICE_ROLL_COUNT, Pow2(8 * ENTROPY_BYTES)) {
      return Err("This roll sequence cannot be used without bias");
    }
    var entropy := new nat[ENTROPY_BYTES];
    FillGroups(value, entropy, 8);
    StartIsProduct(ENTROPY_BYTES, 8);
    GroupOfFlat(entropy[..], [], 8);
    assert Flat(entropy[..], 8) + [] == Flat(entropy[..], 8);
    return Ok(entropy[..]);
  }
}
