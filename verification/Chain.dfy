/** Shared by every module: the source's error returns and optional rows, and saturating arithmetic. */
module Results {
  datatype Option<+T> = None | Some(value: T)

  datatype Result<+T> = Ok(value: T) | Err(reason: string)

  datatype Outcome = Pass | Fail(reason: string)

  const U64_RANGE: nat := 0x1_0000_0000_0000_0000

  function Min(a: nat, b: nat): nat { if a < b then a else b }

  function Max(a: nat, b: nat): nat { if a < b then b else a }

  function SaturatingSub(a: nat, b: nat): nat { if a < b then 0 else a - b }
}

/** Sums over the values of a map and over sequences, and the sizes of subsets and ranges. */
module Maps {
  lemma {:induction false} SubsetSize<T>(a: set<T>, b: set<T>)
    requires a <= b
    ensures |a| <= |b|
  {
    if a != {} {
      var x :| x in a;
      SubsetSize(a - {x}, b - {x});
    }
  }

  lemma {:induction false} SizeWithin(numbers: set<nat>, lo: nat, hi: nat)
    requires lo <= hi && forall n :: n in numbers ==> lo <= n < hi
    ensures |numbers| <= hi - lo
  {
    if lo < hi {
      SizeWithin(numbers - {hi - 1}, lo, hi - 1);
    } else {
      assert numbers == {};
    }
  }

  lemma {:induction false} RangeOf(lo: nat, count: nat) returns (numbers: set<nat>)
    ensures |numbers| <= count && forall n :: n in numbers <==> lo <= n < lo + count
  {
    numbers := {};
    if count > 0 {
      numbers := RangeOf(lo, count - 1);
      numbers := numbers + {lo + count - 1};
    }
  }

  ghost function Total<T>(items: seq<T>, weight: T -> nat): nat {
    if items == [] then 0 else Total(items[..|items| - 1], weight) + weight(items[|items| - 1])
  }

  lemma {:induction false} TotalConcat<T>(a: seq<T>, b: seq<T>, weight: T -> nat)
    ensures Total(a + b, weight) == Total(a, weight) + Total(b, weight)
  {
    if b == [] {
      assert a + b == a;
    } else {
      assert (a + b)[..|a + b| - 1] == a + b[..|b| - 1];
      TotalConcat(a, b[..|b| - 1], weight);
    }
  }

  lemma {:induction false} TotalZero<T>(items: seq<T>, weight: T -> nat)
    requires forall i :: 0 <= i < |items| ==> weight(items[i]) == 0
    ensures Total(items, weight) == 0
  {
    if items != [] {
      TotalZero(items[..|items| - 1], weight);
    }
  }

  ghost function Sum<K, V>(m: map<K, V>, weight: V -> nat): nat {
    if m == map[] then 0
    else
      var k :| k in m;
      weight(m[k]) + Sum(m - {k}, weight)
  }

  lemma MinusSwap<K, V>(m: map<K, V>, a: K, b: K)
    ensures m - {a} - {b} == m - {b} - {a}
  {
    assert {a} + {b} == {b} + {a};
    assert m - {a} - {b} == m - ({a} + {b});
  }

  /** The sum does not depend on the order of summation. */
  lemma {:induction false} SumWithout<K, V>(m: map<K, V>, weight: V -> nat, k: K)
    requires k in m
    ensures Sum(m, weight) == weight(m[k]) + Sum(m - {k}, weight)
    decreases |m|
  {
    var q :| q in m && Sum(m, weight) == weight(m[q]) + Sum(m - {q}, weight);
    if q != k {
      SumWithout(m - {q}, weight, k);
      SumWithout(m - {k}, weight, q);
      MinusSwap(m, q, k);
    }
  }

  lemma PutThenMinus<K, V>(m: map<K, V>, k: K, v: V)
    requires k !in m
    ensures m[k := v] - {k} == m
    ensures |m[k := v]| == |m| + 1
  {
    assert m[k := v].Keys == m.Keys + {k};
    assert |m[k := v]| == |m[k := v].Keys| && |m| == |m.Keys|;
  }

  lemma SumPut<K, V>(m: map<K, V>, weight: V -> nat, k: K, v: V)
    requires k !in m
    ensures Sum(m[k := v], weight) == weight(v) + Sum(m, weight)
  {
    SumWithout(m[k := v], weight, k);
    PutThenMinus(m, k, v);
  }

  lemma {:induction false} SumZero<K, V>(m: map<K, V>, weight: V -> nat)
    requires forall v {:trigger weight(v)} :: weight(v) == 0
    ensures Sum(m, weight) == 0
    decreases |m|
  {
    if m != map[] {
      var k :| k in m && Sum(m, weight) == weight(m[k]) + Sum(m - {k}, weight);
      SumZero(m - {k}, weight);
    }
  }

  lemma {:induction false} SumSame<K, V>(m: map<K, V>, weight: V -> nat, other: V -> nat)
    requires forall v {:trigger weight(v)} {:trigger other(v)} :: weight(v) == other(v)
    ensures Sum(m, weight) == Sum(m, other)
    decreases |m|
  {
    if m != map[] {
      var k :| k in m;
      SumWithout(m, weight, k);
      SumWithout(m, other, k);
      SumSame(m - {k}, weight, other);
    }
  }

  /** A weight that vanishes wherever another does sums to zero wherever the other does. */
  lemma {:induction false} SumVanishes<K, V>(m: map<K, V>, weight: V -> nat, count: V -> nat)
    requires forall v {:trigger weight(v)} :: count(v) == 0 ==> weight(v) == 0
    requires Sum(m, count) == 0
    ensures Sum(m, weight) == 0
    decreases |m|
  {
    if m != map[] {
      var k :| k in m;
      SumWithout(m, count, k);
      SumWithout(m, weight, k);
      SumVanishes(m - {k}, weight, count);
    }
  }
}

/** The value types of the ledger's blocks: outputs and the two transaction formats. */
module Transactions {
  const MINE_REWARD: nat := 1_000_000
  const MINE_FINALIZER_FEE: nat := 1_000_000

  datatype OutPoint = OutPoint(txid: string, index: nat)

  datatype TxOutput = TxOutput(address: string, amount: nat)

  datatype TxInput = TxInput(outpoint: OutPoint, owner: string)

  datatype Transaction =
    | Transfer(inputs: seq<TxInput>, outputs: seq<TxOutput>, fee: nat, signature: string)
    | Burn(inputs: seq<TxInput>, change: seq<TxOutput>, amount: nat, fee: nat, signature: string)
    | Mine(recipient: string, signature: string)

  /** Envelopes are modelled decoded; the migration and transfer forms differ only in signatures. */
  datatype TransactionV2 =
    | MigrationV2(inputs: seq<TxInput>, outputs: seq<TxOutput>, fee: nat, id: string)
    | TransferV2(inputs: seq<TxInput>, outputs: seq<TxOutput>, fee: nat, id: string)
    | BurnV2(inputs: seq<TxInput>, change: seq<TxOutput>, amount: nat, fee: nat, id: string)
    | MineV2(recipient: string, id: string)
}

/** Blocks, hash-linked chains, and the fact that a hash fixes a block and its whole ancestry. */
module Chain {
  import opened Results
  import opened Transactions

  /** A committee member's signature under the block's burn bundle, with an optional payout address. */
  datatype Attestation = Attestation(slot: nat, member: string, rewardAddress: Option<string>)

  /** Everything the hash commits to besides height and parent; `hashText` is the hash as it appears in
      the ids of the block's own reward outputs. */
  datatype Body = Body(
    miner: string,
    rewardAddress: Option<string>,
    reward: nat,
    timestamp: nat,
    ticketMode: bool,
    finalizerRank: nat,
    attestations: seq<Attestation>,
    transactions: seq<Transaction>,
    transactionsV2: seq<TransactionV2>,
    hashText: string)

  /** An ideal block hash: a free constructor over everything the real digest commits to, so two
      hashes are equal exactly when the hashed contents are. */
  datatype Hash = Zero | Digest(height: nat, prev: Hash, body: Body)

  datatype Block = Block(height: nat, prevHash: Hash, hash: Hash, body: Body)

  predicate Sealed(block: Block) {
    block.hash == Digest(block.height, block.prevHash, block.body)
  }

  /** The hash that the block at position `i` of `chain` must name as its parent. */
  function ParentHash(chain: seq<Block>, i: nat): Hash
    requires i <= |chain|
  {
    if i == 0 then Zero else chain[i - 1].hash
  }

  predicate LinkedAt(chain: seq<Block>, i: nat)
    requires i < |chain|
  {
    && chain[i].height == i
    && Sealed(chain[i])
    && chain[i].prevHash == ParentHash(chain, i)
  }

  ghost predicate Linked(chain: seq<Block>) {
    forall i {:trigger LinkedAt(chain, i)} :: 0 <= i < |chain| ==> LinkedAt(chain, i)
  }

  lemma LinkedPrefix(chain: seq<Block>, k: nat)
    requires Linked(chain) && k <= |chain|
    ensures Linked(chain[..k])
  {
    forall i | 0 <= i < k
      ensures LinkedAt(chain[..k], i)
    {
      assert LinkedAt(chain, i);
    }
  }

  /** Replacing everything from height `k` on by a linked suffix gives a linked chain. */
  lemma LinkedSplice(chain: seq<Block>, k: nat, suffix: seq<Block>)
    requires Linked(chain) && k <= |chain|
    requires forall i :: 0 <= i < |suffix| ==> suffix[i].height == k + i && Sealed(suffix[i])
    requires forall i {:trigger ParentHash(suffix, i)} :: 0 < i < |suffix| ==>
               suffix[i].prevHash == ParentHash(suffix, i)
    requires suffix != [] ==> suffix[0].prevHash == ParentHash(chain, k)
    ensures Linked(chain[..k] + suffix)
  {
    var whole := chain[..k] + suffix;
    forall i | 0 <= i < |whole|
      ensures LinkedAt(whole, i)
    {
      if i < k {
        assert LinkedAt(chain, i);
        assert ParentHash(whole, i) == ParentHash(chain, i);
      } else {
        assert whole[i] == suffix[i - k];
        assert i > k ==> ParentHash(suffix, i - k) == ParentHash(whole, i);
      }
    }
  }

  /** Two chains that carry the same hash somewhere agree up to and including that block. */
  lemma {:induction false} SameHashSamePrefix(a: seq<Block>, b: seq<Block>, i: nat, j: nat)
    requires Linked(a) && Linked(b) && i < |a| && j < |b|
    requires a[i].hash == b[j].hash
    ensures i == j && a[..i + 1] == b[..j + 1]
  {
    assert LinkedAt(a, i) && LinkedAt(b, j);
    assert a[i] == b[j];
    if i > 0 {
      SameHashSamePrefix(a, b, i - 1, j - 1);
    }
    assert a[..i + 1] == a[..i] + [a[i]];
    assert b[..j + 1] == b[..j] + [b[j]];
  }

  /** Both chains carry the same block at height `h`. */
  ghost predicate CommonAt(a: seq<Block>, b: seq<Block>, h: nat) {
    h < |a| && h < |b| && a[h].hash == b[h].hash
  }
}
