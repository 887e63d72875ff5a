/** The packed IP-to-country database: the writer's byte layout and the parser that must undo it. */
module GeoDatabase {
  import opened Results
  import opened Segments
  import Bits

  const MAGIC: seq<nat> := [73, 85, 78, 65, 71, 69, 79, 50]
  const GROUPS: nat := 162
  const HEADER_SIZE: nat := 656
  const U32_RANGE: nat := 0x1_0000_0000

  /** Two upper-case letters. */
  datatype Country = Country(first: nat, second: nat)

  predicate IsCountry(c: Country) { 65 <= c.first <= 90 && 65 <= c.second <= 90 }

  datatype Entry = Entry(address: nat, country: Country)

  datatype PrefixGroup = PrefixGroup(offset: nat, count: nat)

  /** Groups 0 to 32 hold the IPv4 prefixes by length, groups 33 to 161 the IPv6 ones. */
  function AddressLength(slot: nat): nat { if slot < 33 then 4 else 16 }

  function RecordSize(slot: nat): pos { AddressLength(slot) + 2 }

  // ----- numbers as bytes

  function Pow256(n: nat): pos { if n == 0 then 1 else 256 * Pow256(n - 1) }

  /** Big-endian bytes. */
  function Packed(v: nat, n: nat): (r: seq<nat>)
    ensures |r| == n
  {
    if n == 0 then [] else Packed(v / 256, n - 1) + [v % 256]
  }

  function Unpacked(bytes: seq<nat>): nat {
    if bytes == [] then 0 else 256 * Unpacked(bytes[..|bytes| - 1]) + bytes[|bytes| - 1]
  }

  lemma {:induction false} UnpackedPacked(v: nat, n: nat)
    requires v < Pow256(n)
    ensures Unpacked(Packed(v, n)) == v
  {
    if n > 0 {
      UnpackedPacked(v / 256, n - 1);
      assert Packed(v, n)[..n - 1] == Packed(v / 256, n - 1);
    }
  }

  /** A little-endian 32-bit count. */
  function Count32(v: nat): (r: seq<nat>)
    ensures |r| == 4
  {
    [v % 256, v / 256 % 256, v / 65536 % 256, v / 16777216 % 256]
  }

  function ReadCount32(b: seq<nat>): nat
    requires |b| == 4
  {
    b[0] + 256 * b[1] + 65536 * b[2] + 16777216 * b[3]
  }

  lemma CountRoundTrip(v: nat)
    requires v < U32_RANGE
    ensures ReadCount32(Count32(v)) == v
  {
    var a, b, c := v / 256, v / 65536, v / 16777216;
    assert v == 256 * a + v % 256 && a == 256 * b + a % 256 && b == 256 * c + b % 256 && c < 256;
  }

  // ----- concatenation

  function Concat(parts: seq<seq<nat>>): seq<nat> {
    if parts == [] then [] else Concat(parts[..|parts| - 1]) + parts[|parts| - 1]
  }

  lemma {:induction false} ConcatSplit(a: seq<seq<nat>>, b: seq<seq<nat>>)
    ensures Concat(a + b) == Concat(a) + Concat(b)
  {
    if b == [] {
      assert a + b == a;
    } else {
      var init, last := b[..|b| - 1], b[|b| - 1];
      ConcatSplit(a, init);
      assert (a + b)[..|a + b| - 1] == a + init;
      Bits.Associate(Concat(a), Concat(init), last);
    }
  }

  /** Where part `k` lies in the concatenation. */
  lemma PartAt(parts: seq<seq<nat>>, k: nat)
    requires k < |parts|
    ensures var from := |Concat(parts[..k])|;
            from + |parts[k]| <= |Concat(parts)| && Concat(parts)[from..from + |parts[k]|] == parts[k]
  {
    assert parts == parts[..k + 1] + parts[k + 1..] && parts[..k + 1][..k] == parts[..k];
    ConcatSplit(parts[..k + 1], parts[k + 1..]);
  }

  lemma {:induction false} ConcatLength(parts: seq<seq<nat>>, size: pos)
    requires forall i :: 0 <= i < |parts| ==> |parts[i]| == size
    ensures |Concat(parts)| == Start(|parts|, size)
  {
    if parts != [] {
      ConcatLength(parts[..|parts| - 1], size);
    }
  }

  // ----- the layout

  function RecordBytes(e: Entry, slot: nat): (r: seq<nat>)
    ensures |r| == RecordSize(slot)
  {
    Packed(e.address, AddressLength(slot)) + [e.country.first, e.country.second]
  }

  function RecordParts(entries: seq<Entry>, slot: nat): (r: seq<seq<nat>>)
    ensures |r| == |entries| && forall i :: 0 <= i < |r| ==> r[i] == RecordBytes(entries[i], slot)
  {
    seq(|entries|, i requires 0 <= i < |entries| => RecordBytes(entries[i], slot))
  }

  function GroupBytes(entries: seq<Entry>, slot: nat): seq<nat> { Concat(RecordParts(entries, slot)) }

  function CountParts(lists: seq<seq<Entry>>): (r: seq<seq<nat>>)
    ensures |r| == |lists| && forall i :: 0 <= i < |r| ==> r[i] == Count32(|lists[i]|)
  {
    seq(|lists|, i requires 0 <= i < |lists| => Count32(|lists[i]|))
  }

  function DataParts(lists: seq<seq<Entry>>): (r: seq<seq<nat>>)
    ensures |r| == |lists| && forall i :: 0 <= i < |r| ==> r[i] == GroupBytes(lists[i], i)
  {
    seq(|lists|, i requires 0 <= i < |lists| => GroupBytes(lists[i], i))
  }

  /** Magic, the counts of all groups, then all records group by group. */
  function DatabaseBytes(lists: seq<seq<Entry>>): seq<nat> {
    HeaderBytes(lists) + DataBytes(lists)
  }

  function HeaderBytes(lists: seq<seq<Entry>>): seq<nat> { MAGIC + Concat(CountParts(lists)) }

  function DataBytes(lists: seq<seq<Entry>>): seq<nat> { Concat(DataParts(lists)) }

  /** Where the records of group `k` start, given the counts of the groups before. */
  function OffsetAt(counts: seq<nat>, k: nat): nat
    requires k <= |counts|
  {
    if k == 0 then HEADER_SIZE else OffsetAt(counts, k - 1) + Start(counts[k - 1], RecordSize(k - 1))
  }

  function Lengths(lists: seq<seq<Entry>>): (r: seq<nat>)
    ensures |r| == |lists| && forall i :: 0 <= i < |r| ==> r[i] == |lists[i]|
  {
    seq(|lists|, i requires 0 <= i < |lists| => |lists[i]|)
  }

  lemma GroupLength(entries: seq<Entry>, slot: nat)
    ensures |GroupBytes(entries, slot)| == Start(|entries|, RecordSize(slot))
  {
    ConcatLength(RecordParts(entries, slot), RecordSize(slot));
  }

  lemma {:induction false} DataLength(lists: seq<seq<Entry>>, k: nat)
    requires k <= |lists|
    ensures HEADER_SIZE + |Concat(DataParts(lists)[..k])| == OffsetAt(Lengths(lists), k)
  {
    if k > 0 {
      DataLength(lists, k - 1);
      assert DataParts(lists)[..k][..k - 1] == DataParts(lists)[..k - 1];
      GroupLength(lists[k - 1], k - 1);
    }
  }

  // ----- parsing

  predicate HasHeader(bytes: seq<nat>) { HEADER_SIZE <= |bytes| && bytes[..8] == MAGIC }

  function CountAt(bytes: seq<nat>, k: nat): nat
    requires HEADER_SIZE <= |bytes| && k < GROUPS
  {
    ReadCount32(bytes[8 + 4 * k..12 + 4 * k])
  }

  function CountsOf(bytes: seq<nat>): (r: seq<nat>)
    requires HEADER_SIZE <= |bytes|
    ensures |r| == GROUPS && forall k :: 0 <= k < GROUPS ==> r[k] == CountAt(bytes, k)
  {
    seq(GROUPS, k requires 0 <= k < GROUPS => CountAt(bytes, k))
  }

  /** The bytes hold the groups the header announces, no more and no less, at 32-bit offsets. */
  ghost predicate WellFormed(bytes: seq<nat>) {
    && HasHeader(bytes)
    && OffsetAt(CountsOf(bytes), GROUPS) == |bytes|
    && forall k: nat :: k < GROUPS ==> OffsetAt(CountsOf(bytes), k) < U32_RANGE
  }

  /** The groups lie one after the other from the header to the end. */
  ghost predicate Tiles(groups: seq<PrefixGroup>, bytes: seq<nat>) {
    && |groups| == GROUPS
    && groups[0].offset == HEADER_SIZE
    && (forall k: nat {:trigger groups[k]} :: 0 < k < GROUPS ==>
          groups[k].offset == groups[k - 1].offset + Start(groups[k - 1].count, RecordSize(k - 1)))
    && groups[GROUPS - 1].offset + Start(groups[GROUPS - 1].count, RecordSize(GROUPS - 1)) == |bytes|
  }

  lemma {:induction false} OffsetsGrow(counts: seq<nat>, a: nat, b: nat)
    requires a <= b <= |counts|
    ensures OffsetAt(counts, a) <= OffsetAt(counts, b)
  {
    if a < b {
      OffsetsGrow(counts, a, b - 1);
    }
  }

  ghost predicate GroupsUpTo(groups: seq<PrefixGroup>, counts: seq<nat>, n: nat) {
    |groups| == n <= |counts| && forall k: nat {:trigger groups[k]} :: k < n ==>
        groups[k] == PrefixGroup(OffsetAt(counts, k), counts[k])
  }

  predicate GroupFits(counts: seq<nat>, k: nat, size: nat)
    requires k < |counts|
  {
    OffsetAt(counts, k + 1) <= size && OffsetAt(counts, k) < U32_RANGE
  }

  /** Walk the counts, placing each group after the one before and refusing what does not fit. */
  method PlaceGroups(counts: seq<nat>, from: nat, to: nat, before: seq<PrefixGroup>, start: nat, size: nat)
    returns (r: Result<seq<PrefixGroup>>, cursor: nat)
    requires from <= to <= |counts| && GroupsUpTo(before, counts, from) && start == OffsetAt(counts, from)
    ensures r.Ok? ==> GroupsUpTo(r.value, counts, to) && cursor == OffsetAt(counts, to)
    ensures r.Ok? <==> forall k: nat :: from <= k < to ==> GroupFits(counts, k, size)
  {
    var groups := before;
    cursor := start;
    for k := from to to
      invariant GroupsUpTo(groups, counts, k) && cursor == OffsetAt(counts, k)
      invariant forall i: nat :: from <= i < k ==> GroupFits(counts, i, size)
    {
      var end := cursor + Start(counts[k], RecordSize(k));
      assert end == OffsetAt(counts, k + 1);
      assert GroupFits(counts, k, size) <==> end <= size && cursor < U32_RANGE;
      if end > size {
        return Err("truncated database"), cursor;
      }
      if cursor >= U32_RANGE {
        return Err("database offset overflow"), cursor;
      }
      groups, cursor := groups + [PrefixGroup(cursor, counts[k])], end;
    }
    return Ok(groups), cursor;
  }

  lemma WellFormedIff(bytes: seq<nat>, counts: seq<nat>)
    requires HasHeader(bytes) && counts == CountsOf(bytes)
    ensures WellFormed(bytes) <==>
            OffsetAt(counts, GROUPS) == |bytes| && forall k: nat :: k < GROUPS ==> GroupFits(counts, k, |bytes|)
  {
    if OffsetAt(counts, GROUPS) == |bytes| {
      forall k: nat | k < GROUPS
        ensures GroupFits(counts, k, |bytes|) <==> OffsetAt(counts, k) < U32_RANGE
      {
        OffsetsGrow(counts, k + 1, GROUPS);
      }
    }
  }

  lemma GroupsTile(groups: seq<PrefixGroup>, bytes: seq<nat>, counts: seq<nat>)
    requires |counts| == GROUPS && GroupsUpTo(groups, counts, GROUPS) && OffsetAt(counts, GROUPS) == |bytes|
    ensures Tiles(groups, bytes)
  {
    forall k: nat | 0 < k < GROUPS
      ensures groups[k].offset == groups[k - 1].offset + Start(groups[k - 1].count, RecordSize(k - 1))
    {
      assert OffsetAt(counts, k) == OffsetAt(counts, k - 1) + Start(counts[k - 1], RecordSize(k - 1));
    }
    assert groups[GROUPS - 1] == PrefixGroup(OffsetAt(counts, GROUPS - 1), counts[GROUPS - 1]);
  }

  /** The parser accepts exactly the well-formed databases, and its groups tile their data. */
  method Parse(bytes: seq<nat>) returns (r: Result<seq<PrefixGroup>>)
    ensures r.Ok? <==> WellFormed(bytes)
    ensures r.Ok? ==> GroupsUpTo(r.value, CountsOf(bytes), GROUPS) && Tiles(r.value, bytes)
  {
    if !HasHeader(bytes) {
      return Err("invalid database header");
    }
    var counts := CountsOf(bytes);
    WellFormedIff(bytes, counts);
    var cursor;
    r, cursor := PlaceGroups(counts, 0, 33, [], HEADER_SIZE, |bytes|);
    if r.Err? {
      return;
    }
    r, cursor := PlaceGroups(counts, 33, GROUPS, r.value, cursor, |bytes|);
    if r.Err? {
      return;
    }
    if cursor != |bytes| {
      return Err("trailing database data");
    }
    GroupsTile(r.value, bytes, counts);
  }

  // ----- the parser undoes the writer

  ghost predicate FitsOffsets(lists: seq<seq<Entry>>) {
    && |lists| == GROUPS
    && (forall k: nat :: k < GROUPS ==> |lists[k]| < U32_RANGE)
    && (forall k: nat :: k < GROUPS ==> OffsetAt(Lengths(lists), k) < U32_RANGE)
  }

  lemma HeaderLength(lists: seq<seq<Entry>>)
    requires |lists| == GROUPS
    ensures |HeaderBytes(lists)| == HEADER_SIZE
  {
    ConcatLength(CountParts(lists), 4);
    StartIsProduct(GROUPS, 4);
  }

  lemma CountWritten(lists: seq<seq<Entry>>, k: nat)
    requires |lists| == GROUPS && k < GROUPS && |lists[k]| < U32_RANGE
    ensures |DatabaseBytes(lists)| >= HEADER_SIZE && CountAt(DatabaseBytes(lists), k) == |lists[k]|
  {
    var parts := CountParts(lists);
    HeaderLength(lists);
    PartAt(parts, k);
    ConcatLength(parts[..k], 4);
    StartIsProduct(k, 4);
    MiddleSlice(MAGIC, Concat(parts), DataBytes(lists), 4 * k);
    CountRoundTrip(|lists[k]|);
  }

  lemma MiddleSlice(head: seq<nat>, middle: seq<nat>, tail: seq<nat>, at: nat)
    requires |head| == 8 && at + 4 <= |middle|
    ensures (head + middle + tail)[8 + at..12 + at] == middle[at..at + 4]
  {
  }

  /** Parsing what the writer emits succeeds and reports exactly the groups written. */
  lemma ParseWritten(lists: seq<seq<Entry>>)
    requires FitsOffsets(lists)
    ensures WellFormed(DatabaseBytes(lists)) && CountsOf(DatabaseBytes(lists)) == Lengths(lists)
  {
    var bytes := DatabaseBytes(lists);
    HeaderLength(lists);
    assert bytes[..8] == MAGIC;
    forall k | 0 <= k < GROUPS
      ensures CountsOf(bytes)[k] == Lengths(lists)[k]
    {
      CountWritten(lists, k);
    }
    assert CountsOf(bytes) == Lengths(lists);
    DataLength(lists, GROUPS);
    assert DataParts(lists)[..GROUPS] == DataParts(lists);
  }

  lemma GroupWritten(lists: seq<seq<Entry>>, k: nat, at: nat, group: seq<nat>)
    requires |lists| == GROUPS && k < GROUPS && HEADER_SIZE + at == OffsetAt(Lengths(lists), k)
    requires group == GroupBytes(lists[k], k)
    ensures at + |group| <= |DataBytes(lists)| && DataBytes(lists)[at..at + |group|] == group
  {
    DataLength(lists, k);
    PartAt(DataParts(lists), k);
  }

  lemma RecordInGroup(entries: seq<Entry>, slot: nat, m: nat, group: seq<nat>, within: nat, size: nat)
    requires m < |entries| && within == Start(m, RecordSize(slot)) && size == RecordSize(slot)
    requires group == GroupBytes(entries, slot)
    ensures within + size <= |group| && group[within..within + size] == RecordBytes(entries[m], slot)
  {
    var records := RecordParts(entries, slot);
    PartAt(records, m);
    ConcatLength(records[..m], RecordSize(slot));
  }

  /** The bytes of a record lie at an offset. */
  predicate RecordAt(bytes: seq<nat>, at: nat, size: nat, record: seq<nat>) {
    at + size <= |bytes| && bytes[at..at + size] == record
  }

  /** Record `m` of group `k` lies where the group's offset says. */
  lemma RecordWritten(lists: seq<seq<Entry>>, k: nat, m: nat, at: nat, size: nat)
    requires |lists| == GROUPS && k < GROUPS && m < |lists[k]|
    requires at == OffsetAt(Lengths(lists), k) + Start(m, RecordSize(k)) && size == RecordSize(k)
    ensures RecordAt(DatabaseBytes(lists), at, size, RecordBytes(lists[k][m], k))
  {
    HeaderLength(lists);
    OffsetsGrow(Lengths(lists), 0, k);
    var base: nat, within: nat := OffsetAt(Lengths(lists), k) - HEADER_SIZE, Start(m, RecordSize(k));
    var group, record := GroupBytes(lists[k], k), RecordBytes(lists[k][m], k);
    GroupWritten(lists, k, base, group);
    RecordInGroup(lists[k], k, m, group, within, size);
    Nested(HeaderBytes(lists), DataBytes(lists), base, group, within, record, at, size);
  }

  lemma Nested(head: seq<nat>, data: seq<nat>, at: nat, group: seq<nat>, within: nat, record: seq<nat>, from: nat,
               size: nat)
    requires at + |group| <= |data| && data[at..at + |group|] == group
    requires within + size <= |group| && group[within..within + size] == record && size == |record|
    requires from == |head| + at + within
    ensures from + size <= |head + data| && (head + data)[from..from + size] == record
  {
    forall i | 0 <= i < size
      ensures (head + data)[from..from + size][i] == record[i]
    {
      assert record[i] == group[within..within + size][i] == group[within + i];
      assert group[within + i] == data[at..at + |group|][within + i];
    }
  }
}
