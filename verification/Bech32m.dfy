/** Wallet addresses: Bech32m encoding of a version and a 32-byte key. */
module Bech32m {
  import opened Results
  import opened Bits
  import opened Regroup
  import opened Polymod

  const CHARSET: string := "qpzry9x8gf2tvdw0s3jn54khce6mua7l"

  datatype Address = Address(version: nat, key: seq<nat>)

  // ----- characters

  function IndexFrom(text: string, c: char, i: nat): (r: Option<nat>)
    requires i <= |text|
    ensures r.Some? ==> i <= r.value < |text| && text[r.value] == c
    ensures r.None? ==> forall k :: i <= k < |text| ==> text[k] != c
    decreases |text| - i
  {
    if i == |text| then None else if text[i] == c then Some(i) else IndexFrom(text, c, i + 1)
  }

  lemma CharsetDistinct(i: nat, j: nat)
    requires i < 32 && j < 32 && CHARSET[i] == CHARSET[j]
    ensures i == j
  {
    if i < j {
      CharsetOrdered(i, j);
    } else if j < i {
      CharsetOrdered(j, i);
    }
  }

  lemma CharsetOrdered(i: nat, j: nat)
    requires i < j < 32
    ensures CHARSET[i] != CHARSET[j]
  {
    if j < 16 {
      CharsetLow(i, j);
    } else {
      CharsetHigh(i, j);
    }
  }

  lemma CharsetLow(i: nat, j: nat)
    requires i < j < 16
    ensures CHARSET[i] != CHARSET[j]
  {
  }

  lemma CharsetHigh(i: nat, j: nat)
    requires i < j && 16 <= j < 32
    ensures CHARSET[i] != CHARSET[j]
  {
  }

  function CharOf(symbol: nat): char {
    if symbol < |CHARSET| then CHARSET[symbol] else '?'
  }

  function Text(symbols: seq<nat>): (r: string)
    ensures |r| == |symbols|
  {
    seq(|symbols|, i requires 0 <= i < |symbols| => CharOf(symbols[i]))
  }

  /** Characters back to symbols; any character outside the alphabet is refused. */
  function ParseSymbols(text: string): Result<seq<nat>> {
    if text == [] then Ok([])
    else
      var init := ParseSymbols(text[..|text| - 1]);
      var last := IndexFrom(CHARSET, text[|text| - 1], 0);
      if init.Err? then init
      else if last.None? then Err("bad character")
      else Ok(init.value + [last.value])
  }

  lemma {:induction false} ParseText(symbols: seq<nat>)
    requires Below(symbols, 5)
    ensures ParseSymbols(Text(symbols)) == Ok(symbols)
  {
    if symbols != [] {
      var k := |symbols| - 1;
      ParseText(symbols[..k]);
      assert Text(symbols)[..k] == Text(symbols[..k]);
      assert Pow2(5) == 32;
      assert Text(symbols)[k] == CHARSET[symbols[k]];
      CharsetDistinct(IndexFrom(CHARSET, CHARSET[symbols[k]], 0).value, symbols[k]);
      assert symbols == symbols[..k] + [symbols[k]];
    }
  }

  lemma {:induction false} TextOfParsed(text: string)
    requires ParseSymbols(text).Ok?
    ensures Text(ParseSymbols(text).value) == text && Below(ParseSymbols(text).value, 5)
  {
    if text != [] {
      TextOfParsed(text[..|text| - 1]);
      assert Pow2(5) == 32;
    }
  }

  // ----- case and white space

  function Lower(c: char): char { if 'A' <= c <= 'Z' then c - 'A' + 'a' else c }

  function Upper(c: char): char { if 'a' <= c <= 'z' then c - 'a' + 'A' else c }

  function ToLower(text: string): (r: string)
    ensures |r| == |text|
  {
    seq(|text|, i requires 0 <= i < |text| => Lower(text[i]))
  }

  function ToUpper(text: string): (r: string)
    ensures |r| == |text|
  {
    seq(|text|, i requires 0 <= i < |text| => Upper(text[i]))
  }

  predicate IsSpace(c: char) {
    c == ' ' || c == '\t' || c == '\n' || c == '\r'
  }

  function Trim(text: string): string {
    if text == [] then []
    else if IsSpace(text[0]) then Trim(text[1..])
    else if IsSpace(text[|text| - 1]) then Trim(text[..|text| - 1])
    else text
  }

  function Normalized(address: string): string { ToLower(Trim(address)) }

  function LastIndexOf(text: string, c: char): (r: Option<nat>)
    ensures r.Some? ==> r.value < |text| && text[r.value] == c && forall k :: r.value < k < |text| ==> text[k] != c
    ensures r.None? ==> forall k :: 0 <= k < |text| ==> text[k] != c
  {
    if text == [] then None
    else if text[|text| - 1] == c then Some(|text| - 1)
    else LastIndexOf(text[..|text| - 1], c)
  }

  // ----- encoding and decoding

  function Contains(text: string, part: string): bool
  {
    exists i :: 0 <= i <= |text| && part <= text[i..]
  }

  function HrpFor(networkId: string): string {
    if Contains(networkId, "testnet") || Contains(networkId, "e2e") then "tiuna" else "iuna"
  }

  function ExpandHrp(hrp: string): (r: seq<nat>)
    ensures |r| == 2 * |hrp| + 1
  {
    seq(|hrp|, i requires 0 <= i < |hrp| => hrp[i] as int / 32) + [0]
    + seq(|hrp|, i requires 0 <= i < |hrp| => hrp[i] as int % 32)
  }

  /** High parts of all characters, a zero, low parts: together they are the characters. */
  lemma ExpandHrpExact(hrp: string, i: nat)
    requires i < |hrp|
    ensures var r := ExpandHrp(hrp);
            && 32 * r[i] + r[|hrp| + 1 + i] == hrp[i] as int && r[|hrp| + 1 + i] < 32 && r[|hrp|] == 0
  {
  }

  lemma HrpBelow(hrp: string)
    ensures Below(ExpandHrp(hrp), 30)
  {
    ThirtyBits();
  }

  /** Human-readable part, separator, payload and checksum. */
  function Assemble(hrp: string, payload: seq<nat>): string {
    hrp + "1" + Text(payload + Checksum(ExpandHrp(hrp) + payload))
  }

  function EncodeAddress(key: seq<nat>, hrp: string): Result<string> {
    var symbols := Regrouped(key, 8, 5, true);
    if symbols.Err? then Err(symbols.reason) else Ok(Assemble(hrp, [0] + symbols.value))
  }

  /** The symbols, if their checksum fits. */
  function CheckSymbols(data: Result<seq<nat>>, hrp: string): Result<seq<nat>> {
    if data.Err? then data
    else if Run(1, ExpandHrp(hrp) + data.value) != BECH32M then Err("bad checksum")
    else data
  }

  /** The text after the last separator, if the part before it is the expected one. */
  function DataPart(normalized: string, hrp: string): Result<string> {
    var separator := LastIndexOf(normalized, '1');
    if separator.None? || separator.value < 1 || separator.value + 7 > |normalized|
       || normalized[..separator.value] != hrp then
      Err("not an address")
    else Ok(normalized[separator.value + 1..])
  }

  /** Everything up to the checksum: the symbols after the separator, if they are valid. */
  function DecodeSymbols(address: string, hrp: string): Result<seq<nat>> {
    if address != ToLower(address) && address != ToUpper(address) then Err("mixed case")
    else
      var part := DataPart(Normalized(address), hrp);
      if part.Err? then Err(part.reason) else CheckSymbols(ParseSymbols(part.value), hrp)
  }

  function DecodeVersionedAddress(address: string, hrp: string): Result<Address> {
    var data := DecodeSymbols(address, hrp);
    if data.Err? then Err(data.reason)
    else if |data.value| < 7 || data.value[0] > 1 then Err("bad version")
    else
      var key := Regrouped(data.value[1..|data.value| - 6], 5, 8, false);
      if key.Err? then Err(key.reason)
      else if |key.value| != 32 then Err("bad key")
      else Ok(Address(data.value[0], key.value))
  }

  // ----- strings

  predicate IsHrp(hrp: string) { hrp != [] && ToLower(hrp) == hrp && !IsSpace(hrp[0]) }

  predicate FoundAt(text: string, part: string, at: nat) {
    at + |part| <= |text| && text[at..at + |part|] == part
  }

  lemma ContainsIs(text: string, part: string)
    ensures Contains(text, part) <==> exists i: nat :: FoundAt(text, part, i)
  {
    if Contains(text, part) {
      var i :| 0 <= i <= |text| && part <= text[i..];
      assert FoundAt(text, part, i);
    }
    if i: nat :| FoundAt(text, part, i) {
      assert part <= text[i..];
    }
  }

  lemma NetworkHrp(networkId: string)
    ensures IsHrp(HrpFor(networkId))
    ensures HrpFor(networkId) == "tiuna" <==>
              || (exists i: nat :: FoundAt(networkId, "testnet", i)) || (exists i: nat :: FoundAt(networkId, "e2e", i))
    ensures HrpFor(networkId) == "tiuna" || HrpFor(networkId) == "iuna"
  {
    ContainsIs(networkId, "testnet");
    ContainsIs(networkId, "e2e");
    assert ToLower("iuna") == "iuna" && ToLower("tiuna") == "tiuna";
  }

  /** Alphabet characters are lower case, not white space, and not the separator. */
  lemma CharsetClean(symbol: nat)
    requires symbol < 32
    ensures var c := CharOf(symbol); Lower(c) == c && !IsSpace(c) && c != '1'
  {
  }

  lemma TextClean(symbols: seq<nat>)
    requires Below(symbols, 5)
    ensures forall k :: 0 <= k < |symbols| ==> var c := Text(symbols)[k]; Lower(c) == c && !IsSpace(c) && c != '1'
  {
    assert Pow2(5) == 32;
    forall k | 0 <= k < |symbols|
      ensures var c := Text(symbols)[k]; Lower(c) == c && !IsSpace(c) && c != '1'
    {
      CharsetClean(symbols[k]);
    }
  }

  lemma LowerFixed(text: string)
    requires forall k :: 0 <= k < |text| ==> Lower(text[k]) == text[k]
    ensures ToLower(text) == text
  {
  }

  lemma TrimFixed(text: string)
    requires text != [] && !IsSpace(text[0]) && !IsSpace(text[|text| - 1])
    ensures Trim(text) == text
  {
  }

  lemma LastIndexAt(text: string, c: char, at: nat)
    requires at < |text| && text[at] == c && forall k :: at < k < |text| ==> text[k] != c
    ensures LastIndexOf(text, c) == Some(at)
  {
    var last := LastIndexOf(text, c);
    assert last.Some? && last.value == at;
  }

  lemma SlicesOf(hrp: string, data: string, text: string)
    requires text == hrp + "1" + data
    ensures text[..|hrp|] == hrp && text[|hrp|] == '1' && text[|hrp| + 1..] == data
  {
  }

  /** An assembled string is its own normal form and splits at its separator. */
  lemma SplitAssembled(hrp: string, symbols: seq<nat>, data: string, text: string)
    requires IsHrp(hrp) && Below(symbols, 5) && symbols != [] && data == Text(symbols) && text == hrp + "1" + data
    ensures ToLower(text) == text && Trim(text) == text && LastIndexOf(text, '1') == Some(|hrp|)
    ensures text[..|hrp|] == hrp && text[|hrp| + 1..] == data
  {
    TextClean(symbols);
    AssembledChars(hrp, data, text);
    SlicesOf(hrp, data, text);
    LowerFixed(text);
    TrimFixed(text);
    LastIndexAt(text, '1', |hrp|);
  }

  lemma AssembledChars(hrp: string, data: string, text: string)
    requires IsHrp(hrp) && text == hrp + "1" + data && data != []
    requires forall k :: 0 <= k < |data| ==> Lower(data[k]) == data[k] && !IsSpace(data[k]) && data[k] != '1'
    ensures forall k :: 0 <= k < |text| ==> Lower(text[k]) == text[k]
    ensures forall k :: |hrp| < k < |text| ==> text[k] != '1'
    ensures !IsSpace(text[0]) && !IsSpace(text[|text| - 1])
  {
    forall k | 0 <= k < |text|
      ensures Lower(text[k]) == text[k] && (k > |hrp| ==> text[k] != '1')
    {
      if k < |hrp| {
        assert text[k] == ToLower(hrp)[k];
      } else if k > |hrp| {
        assert text[k] == data[k - |hrp| - 1];
      }
    }
    assert text[|text| - 1] == data[|data| - 1];
  }

  // ----- round trip and canonicity

  lemma DecodeText(hrp: string, data: seq<nat>, text: string)
    requires IsHrp(hrp) && Below(data, 5) && 6 <= |data| && text == hrp + "1" + Text(data)
    requires Run(1, ExpandHrp(hrp) + data) == BECH32M
    ensures DecodeSymbols(text, hrp) == Ok(data)
  {
    SplitAssembled(hrp, data, Text(data), text);
    ParseText(data);
    DataPartIs(text, hrp, Text(data));
    assert Normalized(text) == text;
  }

  lemma DataPartIs(text: string, hrp: string, rest: string)
    requires LastIndexOf(text, '1') == Some(|hrp|) && 1 <= |hrp| && |hrp| + 7 <= |text|
    requires text[..|hrp|] == hrp && text[|hrp| + 1..] == rest
    ensures DataPart(text, hrp) == Ok(rest)
  {
  }

  lemma AssembledIsValid(hrp: string, payload: seq<nat>, data: seq<nat>)
    requires Below(payload, 5) && data == payload + Checksum(ExpandHrp(hrp) + payload)
    ensures Below(data, 5) && Run(1, ExpandHrp(hrp) + data) == BECH32M
  {
    HrpBelow(hrp);
    EncodedIsValid(ExpandHrp(hrp), payload, data);
  }

  lemma DecodeAssembled(hrp: string, payload: seq<nat>)
    requires IsHrp(hrp) && Below(payload, 5)
    ensures DecodeSymbols(Assemble(hrp, payload), hrp) == Ok(payload + Checksum(ExpandHrp(hrp) + payload))
  {
    var data := payload + Checksum(ExpandHrp(hrp) + payload);
    AssembledIsValid(hrp, payload, data);
    DecodeText(hrp, data, Assemble(hrp, payload));
  }

  /** Every 32-byte key comes back from its address, as version 0. */
  lemma AddressRoundTrip(key: seq<nat>, hrp: string)
    requires IsHrp(hrp) && Fits(key, 8) && |key| == 32
    ensures EncodeAddress(key, hrp).Ok?
    ensures DecodeVersionedAddress(EncodeAddress(key, hrp).value, hrp) == Ok(Address(0, key))
  {
    RegroupRoundTrip(key, 8, 5);
    PaddedBits(key, 8, 5);
    var symbols := Regrouped(key, 8, 5, true).value;
    var payload := [0] + symbols;
    var check := Checksum(ExpandHrp(hrp) + payload);
    DecodeAssembled(hrp, payload);
    Framed(symbols, check, payload + check);
  }

  lemma Framed(symbols: seq<nat>, check: seq<nat>, data: seq<nat>)
    requires |check| == 6 && data == [0] + symbols + check
    ensures |data| >= 7 && data[0] == 0 && data[1..|data| - 6] == symbols
  {
  }

  lemma DataPartSplits(normalized: string, hrp: string, rest: string)
    requires DataPart(normalized, hrp) == Ok(rest)
    ensures normalized == hrp + "1" + rest && 6 <= |rest|
  {
    var at := LastIndexOf(normalized, '1').value;
    assert normalized == normalized[..at] + "1" + normalized[at + 1..];
  }

  /** Valid symbols end in the checksum of what comes before. */
  lemma CheckIsChecksum(head: seq<nat>, data: seq<nat>, payload: seq<nat>, check: seq<nat>)
    requires Below(head, 30) && Below(data, 5) && data == payload + check && |check| == 6
    requires Run(1, head + data) == BECH32M
    ensures check == Checksum(head + payload)
  {
    var prefix := head + payload;
    BelowParts(data, payload, check, 5);
    BelowJoin(head, payload, 5, 30);
    Reassociated(head, payload, check);
    ChecksumUnique(prefix, check);
  }

  lemma Reassociated(a: seq<nat>, b: seq<nat>, c: seq<nat>)
    ensures a + (b + c) == a + b + c
  {
  }

  lemma BelowParts(data: seq<nat>, a: seq<nat>, b: seq<nat>, bits: nat)
    requires Below(data, bits) && data == a + b
    ensures Below(a, bits) && Below(b, bits)
  {
    assert forall i :: 0 <= i < |a| ==> a[i] == data[i];
    assert forall i :: 0 <= i < |b| ==> b[i] == data[|a| + i];
  }

  lemma BelowJoin(a: seq<nat>, b: seq<nat>, fewer: nat, bits: nat)
    requires Below(a, bits) && Below(b, fewer) && fewer <= bits
    ensures Below(a + b, bits)
  {
    PowMonotone(fewer, bits);
  }

  /** Whatever decodes is, normalized, the assembly of its own payload. */
  lemma DecodedIsAssembled(address: string, hrp: string)
    requires DecodeSymbols(address, hrp).Ok?
    ensures var data := DecodeSymbols(address, hrp).value;
            && 6 <= |data| && Below(data, 5)
            && Normalized(address) == Assemble(hrp, data[..|data| - 6])
  {
    var data, normalized := DecodeSymbols(address, hrp).value, Normalized(address);
    var rest := DataPart(normalized, hrp).value;
    DataPartSplits(normalized, hrp, rest);
    TextOfParsed(rest);
    var n := |data| - 6;
    assert data == data[..n] + data[n..];
    HrpBelow(hrp);
    CheckIsChecksum(ExpandHrp(hrp), data, data[..n], data[n..]);
  }

  /** Every accepted version-0 address re-encodes to its normalized self. */
  lemma AddressCanonical(address: string, hrp: string)
    requires DecodeVersionedAddress(address, hrp).Ok? && DecodeVersionedAddress(address, hrp).value.version == 0
    ensures EncodeAddress(DecodeVersionedAddress(address, hrp).value.key, hrp) == Ok(Normalized(address))
  {
    DecodedIsAssembled(address, hrp);
    var data := DecodeSymbols(address, hrp).value;
    RegroupCanonical(data[1..|data| - 6], 8, 5);
    assert [0] + data[1..|data| - 6] == data[..|data| - 6];
  }

  /** One letter case throughout, whatever the characters without case are. */
  predicate OneCase(address: string) {
    || (forall k :: 0 <= k < |address| ==> !('A' <= address[k] <= 'Z'))
    || (forall k :: 0 <= k < |address| ==> !('a' <= address[k] <= 'z'))
  }

  lemma OneCaseIs(address: string)
    ensures OneCase(address) <==> address == ToLower(address) || address == ToUpper(address)
  {
    assert (forall k :: 0 <= k < |address| ==> !('A' <= address[k] <= 'Z')) <==>
           (forall k :: 0 <= k < |address| ==> address[k] == ToLower(address)[k]);
    assert (forall k :: 0 <= k < |address| ==> !('a' <= address[k] <= 'z')) <==>
           (forall k :: 0 <= k < |address| ==> address[k] == ToUpper(address)[k]);
  }

  /** Decoding goes by the normal form and the letter case alone. */
  lemma DecodeAssembledForm(address: string, hrp: string, payload: seq<nat>)
    requires IsHrp(hrp) && Below(payload, 5)
    requires OneCase(address) && Normalized(address) == Assemble(hrp, payload)
    ensures DecodeSymbols(address, hrp) == Ok(payload + Checksum(ExpandHrp(hrp) + payload))
  {
    OneCaseIs(address);
    var data := payload + Checksum(ExpandHrp(hrp) + payload);
    AssembledIsValid(hrp, payload, data);
    SplitAssembled(hrp, data, Text(data), Assemble(hrp, payload));
    ParseText(data);
    DataPartIs(Assemble(hrp, payload), hrp, Text(data));
  }

  lemma FramedBy(version: nat, symbols: seq<nat>, check: seq<nat>, data: seq<nat>)
    requires |check| == 6 && data == [version] + symbols + check
    ensures |data| >= 7 && data[0] == version && data[1..|data| - 6] == symbols
  {
  }

  lemma KeyDecodes(address: string, hrp: string, data: seq<nat>, key: seq<nat>)
    requires DecodeSymbols(address, hrp) == Ok(data) && |data| >= 7 && data[0] <= 1
    requires Regrouped(data[1..|data| - 6], 5, 8, false) == Ok(key) && |key| == 32
    ensures DecodeVersionedAddress(address, hrp) == Ok(Address(data[0], key))
  {
  }

  lemma KeyDecoded(address: string, hrp: string, version: nat, key: seq<nat>) returns (data: seq<nat>)
    requires DecodeVersionedAddress(address, hrp) == Ok(Address(version, key))
    ensures DecodeSymbols(address, hrp) == Ok(data) && |data| >= 7 && data[0] == version <= 1
    ensures Regrouped(data[1..|data| - 6], 5, 8, false) == Ok(key) && |key| == 32
  {
    data := DecodeSymbols(address, hrp).value;
  }

  lemma DecodedCase(address: string, hrp: string)
    requires DecodeSymbols(address, hrp).Ok?
    ensures OneCase(address)
  {
    OneCaseIs(address);
  }

  lemma PayloadBelow(version: nat, key: seq<nat>, symbols: seq<nat>)
    requires version <= 1 && Fits(key, 8) && Regrouped(key, 8, 5, true) == Ok(symbols)
    ensures Below([version] + symbols, 5) && Regrouped(symbols, 5, 8, false) == Ok(key)
  {
    PaddedBits(key, 8, 5);
    RegroupRoundTrip(key, 8, 5);
    assert Pow2(5) == 32;
  }

  lemma AssembledDecodes(address: string, hrp: string, version: nat, key: seq<nat>, symbols: seq<nat>)
    requires IsHrp(hrp) && Fits(key, 8) && Regrouped(key, 8, 5, true) == Ok(symbols)
    requires version <= 1 && |key| == 32 && OneCase(address)
    requires Normalized(address) == Assemble(hrp, [version] + symbols)
    ensures DecodeVersionedAddress(address, hrp) == Ok(Address(version, key))
  {
    PayloadBelow(version, key, symbols);
    var payload := [version] + symbols;
    var check := Checksum(ExpandHrp(hrp) + payload);
    DecodeAssembledForm(address, hrp, payload);
    FramedBy(version, symbols, check, payload + check);
    KeyDecodes(address, hrp, payload + check, key);
  }

  lemma DecodedAssembles(address: string, hrp: string, version: nat, key: seq<nat>)
    requires DecodeVersionedAddress(address, hrp) == Ok(Address(version, key))
    ensures version <= 1 && |key| == 32 && OneCase(address) && Regrouped(key, 8, 5, true).Ok?
    ensures Normalized(address) == Assemble(hrp, [version] + Regrouped(key, 8, 5, true).value)
  {
    var data := KeyDecoded(address, hrp, version, key);
    DecodedCase(address, hrp);
    DecodedIsAssembled(address, hrp);
    RegroupCanonical(data[1..|data| - 6], 8, 5);
    assert [version] + data[1..|data| - 6] == data[..|data| - 6];
  }

  /** A text decodes to a version and a key exactly if the version is 0 or 1, the key has 32 bytes, the
      letters are of one case, and the text is, normalized, the assembly of version and key. */
  lemma DecodesExactly(address: string, hrp: string, version: nat, key: seq<nat>, symbols: seq<nat>)
    requires IsHrp(hrp) && Fits(key, 8) && Regrouped(key, 8, 5, true) == Ok(symbols)
    ensures DecodeVersionedAddress(address, hrp) == Ok(Address(version, key)) <==>
              && (version == 0 || version == 1) && |key| == 32 && OneCase(address)
              && Normalized(address) == Assemble(hrp, [version] + symbols)
  {
    if DecodeVersionedAddress(address, hrp) == Ok(Address(version, key)) {
      DecodedAssembles(address, hrp, version, key);
    }
    if version <= 1 && |key| == 32 && OneCase(address) && Normalized(address) == Assemble(hrp, [version] + symbols) {
      AssembledDecodes(address, hrp, version, key, symbols);
    }
  }

  /** A checksum of the older Bech32 encoding, whose constant is 1, is not taken for one of Bech32m. */
  lemma PlainBech32Refused(address: string, hrp: string)
    requires DecodeSymbols(address, hrp).Ok?
    ensures Run(1, ExpandHrp(hrp) + DecodeSymbols(address, hrp).value) != 1
  {
    DecodedIsValid(address, hrp);
  }

  // ----- spellings of an address

  predicate Blank(text: string) {
    forall k :: 0 <= k < |text| ==> text[k] == ' ' || text[k] == '\t' || text[k] == '\n' || text[k] == '\r'
  }

  /** Trimming takes off white space at both ends and stops at the first other character. */
  lemma {:induction false} TrimIs(before: string, core: string, after: string)
    requires Blank(before) && Blank(after)
    requires core != [] && !IsSpace(core[0]) && !IsSpace(core[|core| - 1])
    ensures Trim(before + core + after) == core
    decreases |before| + |after|
  {
    var text := before + core + after;
    if before != [] {
      assert text[0] == before[0] && text[1..] == before[1..] + core + after;
      TrimIs(before[1..], core, after);
    } else if after != [] {
      assert text[0] == core[0] && text[|text| - 1] == after[|after| - 1];
      assert text[..|text| - 1] == before + core + after[..|after| - 1];
      TrimIs(before, core, after[..|after| - 1]);
    } else {
      assert text == core;
    }
  }

  /** An address may be typed in lower or in upper case, with white space around it. */
  lemma AddressSpellings(key: seq<nat>, hrp: string, before: string, after: string)
    requires IsHrp(hrp) && Fits(key, 8) && |key| == 32 && EncodeAddress(key, hrp).Ok?
    requires Blank(before) && Blank(after)
    ensures var a := EncodeAddress(key, hrp).value;
            && DecodeVersionedAddress(before + a + after, hrp) == Ok(Address(0, key))
            && DecodeVersionedAddress(before + ToUpper(a) + after, hrp) == Ok(Address(0, key))
  {
    var a, symbols := EncodeAddress(key, hrp).value, Regrouped(key, 8, 5, true).value;
    AssembledClean(hrp, key, a);
    SpelledOut(before, a, after);
    DecodesExactly(before + a + after, hrp, 0, key, symbols);
    DecodesExactly(before + ToUpper(a) + after, hrp, 0, key, symbols);
  }

  lemma AssembledClean(hrp: string, key: seq<nat>, a: string)
    requires IsHrp(hrp) && Fits(key, 8) && EncodeAddress(key, hrp) == Ok(a)
    ensures a != [] && ToLower(a) == a && !IsSpace(a[0]) && !IsSpace(a[|a| - 1])
  {
    PaddedBits(key, 8, 5);
    assert Pow2(5) == 32;
    var payload := [0] + Regrouped(key, 8, 5, true).value;
    var data := payload + Checksum(ExpandHrp(hrp) + payload);
    AssembledIsValid(hrp, payload, data);
    SplitAssembled(hrp, data, Text(data), a);
    TextClean(data);
    AssembledChars(hrp, Text(data), a);
  }

  lemma SpelledOut(before: string, a: string, after: string)
    requires a != [] && ToLower(a) == a && !IsSpace(a[0]) && !IsSpace(a[|a| - 1])
    requires Blank(before) && Blank(after)
    ensures Normalized(before + a + after) == a && Normalized(before + ToUpper(a) + after) == a
    ensures OneCase(before + a + after) && OneCase(before + ToUpper(a) + after)
  {
    UpperThenLower(a);
    TrimIs(before, a, after);
    TrimIs(before, ToUpper(a), after);
    NoCapitals(before, a, after);
    NoSmalls(before, ToUpper(a), after);
  }

  lemma UpperThenLower(a: string)
    requires a != [] && ToLower(a) == a && !IsSpace(a[0]) && !IsSpace(a[|a| - 1])
    ensures ToLower(ToUpper(a)) == a && !IsSpace(ToUpper(a)[0]) && !IsSpace(ToUpper(a)[|a| - 1])
    ensures forall k :: 0 <= k < |a| ==> !('A' <= a[k] <= 'Z') && !('a' <= ToUpper(a)[k] <= 'z')
  {
    assert forall k :: 0 <= k < |a| ==> ToLower(a)[k] == a[k];
  }

  lemma NoCapitals(before: string, a: string, after: string)
    requires Blank(before) && Blank(after)
    requires forall k :: 0 <= k < |a| ==> !('A' <= a[k] <= 'Z')
    ensures OneCase(before + a + after)
  {
    Joined(before, a, after, c => 'A' <= c <= 'Z');
  }

  lemma Joined(before: string, a: string, after: string, bad: char -> bool)
    requires forall k :: 0 <= k < |before| ==> !bad(before[k])
    requires forall k :: 0 <= k < |a| ==> !bad(a[k])
    requires forall k :: 0 <= k < |after| ==> !bad(after[k])
    ensures forall k :: 0 <= k < |before + a + after| ==> !bad((before + a + after)[k])
  {
  }

  lemma NoSmalls(before: string, a: string, after: string)
    requires Blank(before) && Blank(after)
    requires forall k :: 0 <= k < |a| ==> !('a' <= a[k] <= 'z')
    ensures OneCase(before + a + after)
  {
    Joined(before, a, after, c => 'a' <= c <= 'z');
  }

  /** Two accepted addresses whose symbols differ only within six consecutive places are the same. */
  lemma AddressErrorsDetected(a: string, b: string, hrp: string, at: nat)
    requires DecodeSymbols(a, hrp).Ok? && DecodeSymbols(b, hrp).Ok?
    requires var x, y := DecodeSymbols(a, hrp).value, DecodeSymbols(b, hrp).value;
             |x| == |y| && at <= |x| && forall k :: 0 <= k < |x| && (k < at || at + 6 <= k) ==> x[k] == y[k]
    ensures Normalized(a) == Normalized(b)
  {
    DecodedIsAssembled(a, hrp);
    DecodedIsAssembled(b, hrp);
    HrpBelow(hrp);
    DecodedIsValid(a, hrp);
    DecodedIsValid(b, hrp);
    WindowErrors(ExpandHrp(hrp), DecodeSymbols(a, hrp).value, DecodeSymbols(b, hrp).value, at);
  }

  lemma DecodedIsValid(address: string, hrp: string)
    requires DecodeSymbols(address, hrp).Ok?
    ensures Run(1, ExpandHrp(hrp) + DecodeSymbols(address, hrp).value) == BECH32M
  {
  }
}
