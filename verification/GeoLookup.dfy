/** Writing a list of prefixes and looking addresses up: the country of the longest prefix that
    contains the address. */
module GeoLookup {
  import opened Results
  import opened Segments
  import opened Bits
  import opened GeoDatabase

  datatype Version = V4 | V6

  /** A prefix of one address family with its country; the address is the network's. */
  datatype Record = Record(version: Version, prefix: nat, country: Country, address: nat)

  function MaxPrefix(v: Version): nat { if v.V4? then 32 else 128 }

  function SlotOf(v: Version, prefix: nat): nat { if v.V4? then prefix else 33 + prefix }

  ghost predicate IsRecord(r: Record) {
    r.prefix <= MaxPrefix(r.version) && IsCountry(r.country)
        && r.address < Pow256(AddressLength(SlotOf(r.version, r.prefix)))
  }

  /** The address with everything after the prefix cleared. */
  function Network(v: Version, address: nat, prefix: nat): nat
    requires prefix <= MaxPrefix(v)
  {
    Shl(Shr(address, MaxPrefix(v) - prefix), MaxPrefix(v) - prefix)
  }

  ghost predicate AreRecords(records: seq<Record>) {
    forall i :: 0 <= i < |records| ==> IsRecord(records[i])
  }

  ghost predicate Contains(r: Record, v: Version, address: nat)
    requires IsRecord(r)
  {
    r.version == v && r.address == Network(v, address, r.prefix)
  }

  /** A prefix contains the addresses of its range: as many as the bits after it can tell apart, from the
      network address on, which is a multiple of that number. */
  lemma ContainsIsRange(r: Record, v: Version, address: nat, size: pos)
    requires IsRecord(r) && size == Pow2((if r.version.V4? then 32 else 128) - r.prefix)
    ensures Contains(r, v, address) <==>
            r.version == v && r.address <= address < r.address + size && r.address % size == 0
  {
    if r.version == v {
      var n := MaxPrefix(v) - r.prefix;
      ShrIsQuotient(address, n);
      ShlIsProduct(Shr(address, n), n);
      MultipleBelow(address, r.address, size);
    }
  }

  lemma MultipleBelow(address: nat, base: nat, size: pos)
    ensures base == address / size * size <==> base <= address < base + size && base % size == 0
  {
    var q, k := address / size, base / size;
    assert address == q * size + address % size && base == k * size + base % size;
    if base == q * size {
      Quotient(base, size, q);
    }
    if base <= address < base + size && base % size == 0 {
      Quotient(address, size, k);
    }
  }

  // ----- grouping the records

  type Group = map<nat, Country>

  /** The groups list exactly the records' prefixes. */
  ghost predicate Collects(groups: seq<Group>, records: seq<Record>, n: nat)
    requires n <= |records| && AreRecords(records)
  {
    && |groups| == GROUPS
    && (forall i :: 0 <= i < n ==> Listed(groups, records[i]))
    && (forall slot: nat, a :: slot < GROUPS && a in groups[slot] ==> HasRecord(records, n, slot, a, groups[slot][a]))
  }

  predicate Listed(groups: seq<Group>, r: Record)
    requires |groups| == GROUPS
  {
    && r.prefix <= MaxPrefix(r.version)
    &&
    r.address in groups[SlotOf(r.version, r.prefix)]
    && groups[SlotOf(r.version, r.prefix)][r.address] == r.country
  }

  ghost predicate HasRecord(records: seq<Record>, n: nat, slot: nat, address: nat, country: Country)
    requires n <= |records|
  {
    exists i :: 0 <= i < n && SlotOf(records[i].version, records[i].prefix) == slot
                && records[i].address == address && records[i].country == country
  }

  /** No prefix is given two countries. */
  ghost predicate ConflictFree(records: seq<Record>) {
    forall i, j :: 0 <= i < j < |records| && SamePrefix(records[i], records[j]) ==>
        records[i].country == records[j].country
  }

  predicate SamePrefix(a: Record, b: Record) {
    a.version == b.version && a.prefix == b.prefix && a.address == b.address
  }

  lemma SlotsDiffer(a: Record, b: Record)
    requires IsRecord(a) && IsRecord(b) && SlotOf(a.version, a.prefix) == SlotOf(b.version, b.prefix)
    ensures a.version == b.version && a.prefix == b.prefix
  {
  }

  lemma ConflictFound(groups: seq<Group>, records: seq<Record>, k: nat)
    requires AreRecords(records) && k < |records| && Collects(groups, records, k)
    requires var slot := SlotOf(records[k].version, records[k].prefix);
             records[k].address in groups[slot] && groups[slot][records[k].address] != records[k].country
    ensures !ConflictFree(records)
  {
    var slot := SlotOf(records[k].version, records[k].prefix);
    var a := records[k].address;
    assert HasRecord(records, k, slot, a, groups[slot][a]);
    var i :| 0 <= i < k && SlotOf(records[i].version, records[i].prefix) == slot
             && records[i].address == a && records[i].country == groups[slot][a];
    SlotsDiffer(records[i], records[k]);
    assert SamePrefix(records[i], records[k]);
  }

  lemma CollectedMore(groups: seq<Group>, records: seq<Record>, k: nat, slot: nat)
    requires AreRecords(records) && k < |records| && Collects(groups, records, k)
    requires slot == SlotOf(records[k].version, records[k].prefix)
    requires records[k].address in groups[slot] ==> groups[slot][records[k].address] == records[k].country
    ensures Collects(groups[slot := groups[slot][records[k].address := records[k].country]], records, k + 1)
  {
    var r := records[k];
    var after := groups[slot := groups[slot][r.address := r.country]];
    forall i | 0 <= i < k + 1
      ensures Listed(after, records[i])
    {
      if i < k {
        assert Listed(groups, records[i]);
      }
    }
    forall s: nat, a | s < GROUPS && a in after[s]
      ensures HasRecord(records, k + 1, s, a, after[s][a])
    {
      if s == slot && a == r.address {
        assert records[k].country == after[s][a];
      } else {
        assert HasRecord(records, k, s, a, groups[s][a]);
      }
    }
  }

  lemma CollectedIsConflictFree(groups: seq<Group>, records: seq<Record>)
    requires AreRecords(records) && Collects(groups, records, |records|)
    ensures ConflictFree(records)
  {
    forall i, j | 0 <= i < j < |records| && SamePrefix(records[i], records[j])
      ensures records[i].country == records[j].country
    {
      assert Listed(groups, records[i]) && Listed(groups, records[j]);
    }
  }

  /** Collect the records by family and prefix length; a second country for a prefix is refused. */
  method CollectGroups(records: seq<Record>) returns (r: Result<seq<Group>>)
    requires AreRecords(records)
    ensures r.Ok? <==> ConflictFree(records)
    ensures r.Ok? ==> Collects(r.value, records, |records|)
  {
    var groups: seq<Group> := seq(GROUPS, _ => map[]);
    for k := 0 to |records|
      invariant Collects(groups, records, k)
    {
      assert IsRecord(records[k]);
      var slot := SlotOf(records[k].version, records[k].prefix);
      if records[k].address in groups[slot] && groups[slot][records[k].address] != records[k].country {
        ConflictFound(groups, records, k);
        return Err("conflicting countries");
      }
      CollectedMore(groups, records, k, slot);
      groups := groups[slot := groups[slot][records[k].address := records[k].country]];
    }
    CollectedIsConflictFree(groups, records);
    return Ok(groups);
  }

  // ----- sorting a group

  ghost predicate Increasing(entries: seq<Entry>) {
    forall i, j :: 0 <= i < j < |entries| ==> entries[i].address < entries[j].address
  }

  ghost predicate Lists(entries: seq<Entry>, group: Group) {
    && Increasing(entries)
    && (forall e :: e in entries ==> e.address in group && group[e.address] == e.country)
    && (forall a :: a in group ==> Entry(a, group[a]) in entries)
  }

  predicate Least(addresses: set<nat>, a: nat) { a in addresses && forall b :: b in addresses ==> a <= b }

  lemma {:induction false} LeastExists(addresses: set<nat>)
    requires addresses != {}
    ensures exists a :: Least(addresses, a)
  {
    var a :| a in addresses;
    var rest := addresses - {a};
    assert addresses == rest + {a};
    if rest == {} {
      assert Least(addresses, a);
    } else {
      LeastExists(rest);
      var m :| Least(rest, m);
      assert Least(addresses, if a < m then a else m);
    }
  }

  method SortGroup(group: Group) returns (entries: seq<Entry>)
    ensures Lists(entries, group)
  {
    entries := [];
    var left := group.Keys;
    while left != {}
      invariant left <= group.Keys && Increasing(entries)
      invariant forall e :: e in entries ==> e.address in group && group[e.address] == e.country
      invariant forall a :: a in group && a !in left ==> Entry(a, group[a]) in entries
      invariant forall i, b :: 0 <= i < |entries| && b in left ==> entries[i].address < b
    {
      LeastExists(left);
      var a :| a in left && Least(left, a);
      entries := entries + [Entry(a, group[a])];
      left := left - {a};
    }
  }

  // ----- writing

  ghost predicate AllListed(lists: seq<seq<Entry>>, groups: seq<Group>, n: nat)
    requires n <= |groups|
  {
    |lists| == n && forall k: nat :: k < n ==> Lists(lists[k], groups[k])
  }

  method SortGroups(groups: seq<Group>) returns (lists: seq<seq<Entry>>)
    ensures AllListed(lists, groups, |groups|)
  {
    lists := [];
    for k := 0 to |groups|
      invariant AllListed(lists, groups, k)
    {
      var entries := SortGroup(groups[k]);
      lists := lists + [entries];
    }
  }

  /** The sorted groups list exactly the records. */
  ghost predicate Represents(lists: seq<seq<Entry>>, records: seq<Record>) {
    && |lists| == GROUPS
    && (forall k: nat :: k < GROUPS ==> Increasing(lists[k]))
    && (forall i :: 0 <= i < |records| && records[i].prefix <= MaxPrefix(records[i].version) ==>
          Entry(records[i].address, records[i].country) in lists[SlotOf(records[i].version, records[i].prefix)])
    && (forall k: nat, e :: k < GROUPS && e in lists[k] ==> HasRecord(records, |records|, k, e.address, e.country))
  }

  lemma ListsRepresent(lists: seq<seq<Entry>>, groups: seq<Group>, records: seq<Record>)
    requires AreRecords(records) && Collects(groups, records, |records|) && AllListed(lists, groups, GROUPS)
    ensures Represents(lists, records)
  {
    forall i | 0 <= i < |records| && records[i].prefix <= MaxPrefix(records[i].version)
      ensures Entry(records[i].address, records[i].country) in lists[SlotOf(records[i].version, records[i].prefix)]
    {
      assert Listed(groups, records[i]);
      assert Lists(lists[SlotOf(records[i].version, records[i].prefix)],
             groups[SlotOf(records[i].version, records[i].prefix)]);
    }
    forall k: nat, e | k < GROUPS && e in lists[k]
      ensures HasRecord(records, |records|, k, e.address, e.country)
    {
      assert Lists(lists[k], groups[k]);
    }
  }

  /** Emit the header and the sorted records; a group too large for its count is refused. */
  method WriteDatabase(records: seq<Record>) returns (r: Result<seq<nat>>, ghost lists: seq<seq<Entry>>)
    requires AreRecords(records)
    ensures ConflictFree(records) ==> Represents(lists, records)
    ensures r.Ok? <==> ConflictFree(records) && forall k: nat :: k < GROUPS ==> |lists[k]| < U32_RANGE
    ensures r.Ok? ==> r.value == DatabaseBytes(lists)
  {
    var groups := CollectGroups(records);
    if groups.Err? {
      return Err(groups.reason), seq(GROUPS, _ => []);
    }
    var sorted := SortGroups(groups.value);
    ListsRepresent(sorted, groups.value, records);
    lists := sorted;
    if k: nat :| k < GROUPS && |sorted[k]| >= U32_RANGE {
      return Err("group too large"), lists;
    }
    r := Ok(DatabaseBytes(sorted));
  }

  // ----- searching one group

  /** The records of one group, where the parsed group says they are. */
  ghost predicate GroupIn(bytes: seq<nat>, group: PrefixGroup, slot: nat, entries: seq<Entry>) {
    group.count == |entries| && forall m: nat :: m < |entries| ==> RecordIn(bytes, group, slot, entries, m)
  }

  ghost predicate RecordIn(bytes: seq<nat>, group: PrefixGroup, slot: nat, entries: seq<Entry>, m: nat)
    requires m < |entries|
  {
    RecordAt(bytes, group.offset + Start(m, RecordSize(slot)), RecordSize(slot), RecordBytes(entries[m], slot))
  }

  ghost predicate EntriesFit(entries: seq<Entry>, slot: nat) {
    forall i :: 0 <= i < |entries| ==> entries[i].address < Pow256(AddressLength(slot)) && IsCountry(entries[i].country)
  }

  function CountryCode(a: nat, b: nat): Option<Country> {
    if IsCountry(Country(a, b)) then Some(Country(a, b)) else None
  }

  /** Read the record at position `m`. */
  method ReadRecord(bytes: seq<nat>, group: PrefixGroup, slot: nat, m: nat, ghost entries: seq<Entry>)
    returns (address: nat, country: Option<Country>)
    requires GroupIn(bytes, group, slot, entries) && EntriesFit(entries, slot) && m < group.count
    ensures address == entries[m].address && country == Some(entries[m].country)
  {
    assert RecordIn(bytes, group, slot, entries, m);
    var at, size, length := group.offset + Start(m, RecordSize(slot)), RecordSize(slot), AddressLength(slot);
    var record := bytes[at..at + size];
    address := Unpacked(record[..length]);
    country := CountryCode(record[length], record[length + 1]);
    UnpackedPacked(entries[m].address, length);
    CutRecord(entries[m], slot, record);
  }

  lemma CutRecord(e: Entry, slot: nat, record: seq<nat>)
    requires record == RecordBytes(e, slot)
    ensures var length := AddressLength(slot);
            && record[..length] == Packed(e.address, length)
            && record[length] == e.country.first && record[length + 1] == e.country.second
  {
  }

  method BinarySearchGroup(bytes: seq<nat>, group: PrefixGroup, slot: nat, target: nat, ghost entries: seq<Entry>)
    returns (r: Option<Country>)
    requires GroupIn(bytes, group, slot, entries) && EntriesFit(entries, slot) && Increasing(entries)
    ensures r.Some? ==> Entry(target, r.value) in entries
    ensures r.None? ==> forall e :: e in entries ==> e.address != target
  {
    var left, right := 0, group.count;
    while left < right
      invariant 0 <= left <= right <= |entries|
      invariant forall i :: 0 <= i < left ==> entries[i].address < target
      invariant forall i :: right <= i < |entries| ==> target < entries[i].address
    {
      var middle := left + (right - left) / 2;
      var address, country := ReadRecord(bytes, group, slot, middle, entries);
      if address < target {
        left := middle + 1;
      } else if address > target {
        right := middle;
      } else {
        assert entries[middle] == Entry(target, country.value);
        return country;
      }
    }
    return None;
  }

  // ----- the longest prefix

  ghost predicate Describes(bytes: seq<nat>, groups: seq<PrefixGroup>, lists: seq<seq<Entry>>) {
    && |groups| == |lists| == GROUPS
    && forall k: nat {:trigger groups[k]} :: k < GROUPS ==>
         GroupIn(bytes, groups[k], k, lists[k]) && EntriesFit(lists[k], k) && Increasing(lists[k])
  }

  /** No listed prefix of length `p` is the address's network. */
  ghost predicate Misses(lists: seq<seq<Entry>>, v: Version, address: nat, p: nat)
    requires |lists| == GROUPS && p <= MaxPrefix(v)
  {
    forall e :: e in lists[SlotOf(v, p)] ==> e.address != Network(v, address, p)
  }

  /** Try the prefix lengths from the longest down. */
  method Lookup(bytes: seq<nat>, groups: seq<PrefixGroup>, v: Version, address: nat, ghost lists: seq<seq<Entry>>)
    returns (r: Option<Country>, ghost at: nat)
    requires Describes(bytes, groups, lists)
    ensures at <= MaxPrefix(v)
    ensures r.Some? ==> Entry(Network(v, address, at), r.value) in lists[SlotOf(v, at)]
    ensures r.Some? ==> forall p: nat :: at < p <= MaxPrefix(v) ==> Misses(lists, v, address, p)
    ensures r.None? ==> forall p: nat :: p <= MaxPrefix(v) ==> Misses(lists, v, address, p)
  {
    at := 0;
    var n := MaxPrefix(v) + 1;
    while n > 0
      invariant n <= MaxPrefix(v) + 1
      invariant forall p: nat :: n <= p <= MaxPrefix(v) ==> Misses(lists, v, address, p)
    {
      n := n - 1;
      var slot := SlotOf(v, n);
      r := BinarySearchGroup(bytes, groups[slot], slot, Network(v, address, n), lists[slot]);
      if r.Some? {
        return r, n;
      }
      assert Misses(lists, v, address, n);
    }
    return None, 0;
  }

  /** The country of the longest prefix that contains the address, or none if none does. */
  ghost predicate LongestMatch(records: seq<Record>, v: Version, address: nat, r: Option<Country>)
    requires AreRecords(records)
  {
    match r
    case None => forall i :: 0 <= i < |records| ==> !Contains(records[i], v, address)
    case Some(country) =>
      exists i :: 0 <= i < |records| && Contains(records[i], v, address) && records[i].country == country
                  && Longest(records, v, address, records[i].prefix)
  }

  ghost predicate Longest(records: seq<Record>, v: Version, address: nat, prefix: nat)
    requires AreRecords(records)
  {
    forall j :: 0 <= j < |records| && Contains(records[j], v, address) ==> records[j].prefix <= prefix
  }

  lemma ContainingIsListed(lists: seq<seq<Entry>>, records: seq<Record>, v: Version, address: nat, j: nat)
    requires AreRecords(records) && Represents(lists, records) && j < |records| && Contains(records[j], v, address)
    ensures !Misses(lists, v, address, records[j].prefix)
  {
    assert IsRecord(records[j]);
    assert Entry(records[j].address, records[j].country) in lists[SlotOf(v, records[j].prefix)];
  }

  lemma MatchIsLongest(lists: seq<seq<Entry>>, records: seq<Record>, v: Version, address: nat, r: Option<Country>,
                       at: nat)
    requires AreRecords(records) && Represents(lists, records) && at <= MaxPrefix(v)
    requires r.Some? ==> Entry(Network(v, address, at), r.value) in lists[SlotOf(v, at)]
    requires r.Some? ==> forall p: nat :: at < p <= MaxPrefix(v) ==> Misses(lists, v, address, p)
    requires r.None? ==> forall p: nat :: p <= MaxPrefix(v) ==> Misses(lists, v, address, p)
    ensures LongestMatch(records, v, address, r)
  {
    forall j | 0 <= j < |records| && Contains(records[j], v, address)
      ensures r.Some? && records[j].prefix <= at
    {
      assert IsRecord(records[j]);
      ContainingIsListed(lists, records, v, address, j);
    }
    if r.Some? {
      var e := Entry(Network(v, address, at), r.value);
      assert HasRecord(records, |records|, SlotOf(v, at), e.address, e.country);
      var i :| 0 <= i < |records| && SlotOf(records[i].version, records[i].prefix) == SlotOf(v, at)
               && records[i].address == e.address && records[i].country == e.country;
      assert IsRecord(records[i]);
      assert records[i].version == v && records[i].prefix == at;
      assert Contains(records[i], v, address) && Longest(records, v, address, records[i].prefix);
    }
  }

  // ----- writer, parser and lookup together

  lemma RepresentedFit(lists: seq<seq<Entry>>, records: seq<Record>, k: nat)
    requires AreRecords(records) && Represents(lists, records) && k < GROUPS
    ensures EntriesFit(lists[k], k)
  {
    forall m | 0 <= m < |lists[k]|
      ensures lists[k][m].address < Pow256(AddressLength(k)) && IsCountry(lists[k][m].country)
    {
      var e := lists[k][m];
      assert e in lists[k];
      assert HasRecord(records, |records|, k, e.address, e.country);
      var i :| 0 <= i < |records| && SlotOf(records[i].version, records[i].prefix) == k
               && records[i].address == e.address && records[i].country == e.country;
      assert IsRecord(records[i]);
    }
  }

  lemma WrittenGroup(lists: seq<seq<Entry>>, group: PrefixGroup, k: nat)
    requires FitsOffsets(lists) && k < GROUPS && group == PrefixGroup(OffsetAt(Lengths(lists), k), |lists[k]|)
    ensures GroupIn(DatabaseBytes(lists), group, k, lists[k])
  {
    forall m: nat | m < |lists[k]|
      ensures RecordIn(DatabaseBytes(lists), group, k, lists[k], m)
    {
      var at, size := group.offset + Start(m, RecordSize(k)), RecordSize(k);
      RecordWritten(lists, k, m, at, size);
    }
  }

  lemma WrittenDescribed(lists: seq<seq<Entry>>, groups: seq<PrefixGroup>, records: seq<Record>)
    requires AreRecords(records) && Represents(lists, records) && FitsOffsets(lists)
    requires GroupsUpTo(groups, Lengths(lists), GROUPS)
    ensures Describes(DatabaseBytes(lists), groups, lists)
  {
    forall k: nat | k < GROUPS
      ensures GroupIn(DatabaseBytes(lists), groups[k], k, lists[k]) && EntriesFit(lists[k], k) && Increasing(lists[k])
    {
      RepresentedFit(lists, records, k);
      WrittenGroup(lists, groups[k], k);
    }
  }

  /** Write the records, parse the bytes, look an address up: whenever the database fits 32-bit
      offsets, parsing succeeds and the answer is the longest-prefix match over the records. */
  method LookupWritten(records: seq<Record>, v: Version, address: nat)
    returns (r: Result<Option<Country>>, ghost lists: seq<seq<Entry>>)
    requires AreRecords(records)
    ensures ConflictFree(records) ==> Represents(lists, records)
    ensures r.Ok? <==> ConflictFree(records) && FitsOffsets(lists)
    ensures r.Ok? ==> LongestMatch(records, v, address, r.value)
  {
    var bytes;
    bytes, lists := WriteDatabase(records);
    if bytes.Err? {
      return Err(bytes.reason), lists;
    }
    if FitsOffsets(lists) {
      ParseWritten(lists);
    }
    var groups := Parse(bytes.value);
    if groups.Err? {
      return Err(groups.reason), lists;
    }
    WellFormedFits(lists);
    WrittenDescribed(lists, groups.value, records);
    var country; ghost var at;
    country, at := Lookup(bytes.value, groups.value, v, address, lists);
    MatchIsLongest(lists, records, v, address, country, at);
    return Ok(country), lists;
  }

  lemma WellFormedFits(lists: seq<seq<Entry>>)
    requires |lists| == GROUPS && (forall k: nat :: k < GROUPS ==> |lists[k]| < U32_RANGE)
             && WellFormed(DatabaseBytes(lists))
    ensures FitsOffsets(lists) && CountsOf(DatabaseBytes(lists)) == Lengths(lists)
  {
    var bytes := DatabaseBytes(lists);
    forall k | 0 <= k < GROUPS
      ensures CountsOf(bytes)[k] == Lengths(lists)[k]
    {
      CountWritten(lists, k);
    }
    assert CountsOf(bytes) == Lengths(lists);
  }
}
