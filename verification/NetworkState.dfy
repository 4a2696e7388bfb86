/** One line of the network state file (core/network_state.c): `name:bridge:cidr:ip;ip;...`. */
module NetworkState {
  import opened Text
  import opened Numbers
  import opened Ipv4
  import opened Names

  const MAX_RECORDS: nat := 128
  const MAX_USED_IPS: nat := 128
  const NAME_SIZE: nat := 16
  const CIDR_SIZE: nat := 32
  const MAX_LINE_SIZE: nat := 4096

  datatype Record = Record(name: string, driver: string, cidr: string, usedIps: seq<nat>)

  predicate Distinct(s: seq<nat>)
  {
    forall i, j :: 0 <= i < j < |s| ==> s[i] != s[j]
  }

  /** Strictly between the gateway (network + 1) and the broadcast address. */
  predicate Usable(range: Cidr, address: nat)
  {
    range.prefix <= 32 && range.network + 1 < address < range.Broadcast()
  }

  predicate ValidAddresses(range: Cidr, usedIps: seq<nat>)
  {
    Distinct(usedIps) && forall i :: 0 <= i < |usedIps| ==> Usable(range, usedIps[i])
  }

  /** What td_format_network_record accepts. */
  predicate ValidRecord(r: Record)
  {
    ValidName(r.name, NAME_SIZE - 1) && r.driver == "bridge" && ValidCidr(r.cidr) &&
    |r.usedIps| <= MAX_USED_IPS && ValidAddresses(ParseCidr(r.cidr).value, r.usedIps)
  }

  function Range(r: Record): Cidr
    requires ValidCidr(r.cidr)
  {
    ParseCidr(r.cidr).value
  }

  // ---------- printing ----------

  function UsedText(usedIps: seq<nat>): string
  {
    if usedIps == [] then [] else PrintNat(usedIps[0]) + ";" + UsedText(usedIps[1..])
  }

  lemma {:induction false} UsedTextAppend(a: seq<nat>, b: seq<nat>)
    ensures UsedText(a + b) == UsedText(a) + UsedText(b)
  {
    if a == [] {
      assert a + b == b;
    } else {
      assert (a + b)[1..] == a[1..] + b;
      UsedTextAppend(a[1..], b);
    }
  }

  function FormatRecord(r: Record): string
  {
    r.name + [':'] + (r.driver + [':'] + (r.cidr + [':'] + UsedText(r.usedIps)))
  }

  lemma {:induction false} UsedTextLength(usedIps: seq<nat>)
    requires forall i :: 0 <= i < |usedIps| ==> usedIps[i] <= UINT32_MAX
    ensures |UsedText(usedIps)| <= 11 * |usedIps|
  {
    if usedIps != [] {
      PrintUint32Length(usedIps[0]);
      UsedTextLength(usedIps[1..]);
    }
  }

  lemma {:induction false} UsableFits(range: Cidr, address: nat)
    requires range.Aligned() && Usable(range, address)
    ensures 1 < address < UINT32_MAX
  {
    AlignedFits(range);
  }

  lemma {:induction false} UsedTextFits(range: Cidr, usedIps: seq<nat>)
    requires range.Aligned() && ValidAddresses(range, usedIps)
    ensures |UsedText(usedIps)| <= 11 * |usedIps|
    ensures forall i :: 0 <= i < |usedIps| ==> 0 < usedIps[i] <= UINT32_MAX
    ensures 0 !in usedIps
  {
    forall i | 0 <= i < |usedIps| ensures 0 < usedIps[i] <= UINT32_MAX {
      UsableFits(range, usedIps[i]);
    }
    UsedTextLength(usedIps);
  }

  /** A valid record always fits the 4096-byte buffer: it prints as at most 1451 bytes. */
  lemma {:induction false} FormatRecordLength(r: Record)
    requires ValidRecord(r)
    ensures 1 <= |FormatRecord(r)| <= 1451
  {
    CidrLength(r.cidr);
    UsedTextFits(Range(r), r.usedIps);
  }

  /** validate_allocated_addresses */
  method ValidateAllocatedAddresses(range: Cidr, usedIps: seq<nat>) returns (ok: bool)
    requires range.prefix <= 32
    ensures ok == ValidAddresses(range, usedIps)
  {
    for index := 0 to |usedIps|
      invariant ValidAddresses(range, usedIps[..index])
    {
      if usedIps[index] <= range.network + 1 || usedIps[index] >= range.Broadcast() {
        return false;
      }
      for previous := 0 to index
        invariant forall j :: 0 <= j < previous ==> usedIps[j] != usedIps[index]
      {
        if usedIps[previous] == usedIps[index] {
          return false;
        }
      }
      assert usedIps[..index + 1] == usedIps[..index] + [usedIps[index]];
    }
    assert usedIps[..|usedIps|] == usedIps;
    return true;
  }

  /** The printing loop, behind the text `head` in a buffer of `size` bytes. */
  method FormatUsedIps(head: string, usedIps: seq<nat>, size: nat) returns (output: Option<string>)
    requires |head| < size
    ensures output == if 0 !in usedIps && |head + UsedText(usedIps)| < size
                      then Some(head + UsedText(usedIps)) else None
  {
    hide PrintNat;
    var used := head;
    for index := 0 to |usedIps|
      invariant 0 !in usedIps[..index]
      invariant used == head + UsedText(usedIps[..index]) && |used| < size
    {
      var written := PrintNat(usedIps[index]) + ";";
      ghost var before, rest := usedIps[..index], usedIps[index + 1..];
      UsedTextAppend(before, [usedIps[index]] + rest);
      UsedTextAppend(before, [usedIps[index]]);
      assert UsedText([usedIps[index]]) == written + UsedText([]);
      assert usedIps[..index + 1] == before + [usedIps[index]];
      assert usedIps == before + ([usedIps[index]] + rest);
      if usedIps[index] == 0 || |written| >= size - |used| {
        return None;
      }
      used := used + written;
    }
    assert usedIps[..|usedIps|] == usedIps;
    return Some(used);
  }

  /** td_format_network_record into a buffer of `size` bytes. */
  method FormatNetworkRecord(r: Record, size: nat) returns (output: Option<string>)
    ensures output == if ValidRecord(r) && |FormatRecord(r)| < size then Some(FormatRecord(r)) else None
  {
    var validName := ValidateName(r.name, NAME_SIZE - 1);
    if |r.usedIps| > MAX_USED_IPS || !validName || r.driver != "bridge" || !ValidCidr(r.cidr) {
      return None;
    }
    var validAddresses := ValidateAllocatedAddresses(ParseCidr(r.cidr).value, r.usedIps);
    if !validAddresses {
      return None;
    }
    var head := r.name + [':'] + (r.driver + [':'] + (r.cidr + [':']));
    assert FormatRecord(r) == head + UsedText(r.usedIps);
    UsedTextFits(Range(r), r.usedIps);
    if |head| >= size {
      return None;
    }
    output := FormatUsedIps(head, r.usedIps, size);
  }

  // ---------- parsing ----------

  /** One entry of the address list: a positive 32-bit number not seen before. */
  function ParseAddress(token: string, parsed: seq<nat>): Option<nat>
  {
    var v := ParseUint64(token);
    if v.Some? && 0 < v.value <= UINT32_MAX && v.value !in parsed then v else None
  }

  /** parse_used_ips when `parsed` has been read and `text` is left. */
  function UsedIpsFrom(text: string, parsed: seq<nat>): Option<seq<nat>>
    decreases |text|
  {
    if text == [] then Some(parsed)
    else
      var end := IndexOf(text, ';');
      if |parsed| >= MAX_USED_IPS || end == 0 then None
      else
        var v := ParseAddress(text[..end], parsed);
        if v == None then None
        else if end == |text| then Some(parsed + [v.value])
        else UsedIpsFrom(text[end + 1..], parsed + [v.value])
  }

  method ParseOneAddress(token: string, parsed: seq<nat>) returns (v: Option<nat>)
    ensures v == ParseAddress(token, parsed)
  {
    v := ParseUint64(token);
    if v == None || v.value == 0 || v.value > UINT32_MAX {
      return None;
    }
    for index := 0 to |parsed|
      invariant v.value !in parsed[..index]
    {
      assert parsed[..index + 1] == parsed[..index] + [parsed[index]];
      if parsed[index] == v.value {
        return None;
      }
    }
    assert parsed[..|parsed|] == parsed;
  }

  method ParseUsedIps(text: string) returns (usedIps: Option<seq<nat>>)
    ensures usedIps == UsedIpsFrom(text, [])
  {
    var cursor, used := text, [];
    while cursor != []
      invariant UsedIpsFrom(cursor, used) == UsedIpsFrom(text, [])
      decreases |cursor|
    {
      if |used| >= MAX_USED_IPS {
        return None;
      }
      var separator := IndexOf(cursor, ';');
      if separator == 0 {
        return None;
      }
      var v := ParseOneAddress(cursor[..separator], used);
      if v == None {
        return None;
      }
      used := used + [v.value];
      if separator == |cursor| {
        return Some(used);
      }
      cursor := cursor[separator + 1..];
    }
    return Some(used);
  }

  /** Cuts a line at its colons; there must be exactly three. */
  method SplitFields(line: string) returns (fields: Option<seq<string>>)
    ensures fields == if |Split(line, ':')| == 4 then Some(Split(line, ':')) else None
  {
    var parts: seq<string> := [];
    var cursor := line;
    while |parts| < 3
      invariant |parts| <= 3
      invariant Split(line, ':') == parts + Split(cursor, ':')
    {
      var separator := IndexOf(cursor, ':');
      if separator == |cursor| {
        return None;
      }
      ghost var rest := Split(cursor[separator + 1..], ':');
      assert Split(cursor, ':') == [cursor[..separator]] + rest;
      assert parts + ([cursor[..separator]] + rest) == parts + [cursor[..separator]] + rest;
      parts := parts + [cursor[..separator]];
      cursor := cursor[separator + 1..];
    }
    if ':' in cursor {
      assert |Split(cursor, ':')| > 1;
      return None;
    }
    assert Split(cursor, ':') == [cursor];
    return Some(parts + [cursor]);
  }

  function ParseFields(fields: seq<string>): Option<Record>
    requires |fields| == 4
  {
    if !ValidName(fields[0], NAME_SIZE - 1) || fields[1] != "bridge" ||
       |fields[2]| >= CIDR_SIZE || !ValidCidr(fields[2]) then None
    else
      var usedIps := UsedIpsFrom(fields[3], []);
      if usedIps.Some? && ValidAddresses(ParseCidr(fields[2]).value, usedIps.value)
      then Some(Record(fields[0], fields[1], fields[2], usedIps.value)) else None
  }

  function ParseRecord(line: string): Option<Record>
  {
    if line == [] || |line| >= MAX_LINE_SIZE || !SingleLine(line) || |Split(line, ':')| != 4 then None
    else ParseFields(Split(line, ':'))
  }

  /** td_parse_network_record */
  method ParseNetworkRecord(line: string) returns (r: Option<Record>)
    ensures r == ParseRecord(line)
  {
    if line == [] || |line| >= MAX_LINE_SIZE || '\n' in line || '\r' in line {
      return None;
    }
    var fields := SplitFields(line);
    if fields == None {
      return None;
    }
    var name, driver, cidr := fields.value[0], fields.value[1], fields.value[2];
    var validName := ValidateName(name, NAME_SIZE - 1);
    if !validName || driver != "bridge" || |cidr| >= CIDR_SIZE || !ValidCidr(cidr) {
      return None;
    }
    var usedIps := ParseUsedIps(fields.value[3]);
    if usedIps == None {
      return None;
    }
    var validAddresses := ValidateAllocatedAddresses(ParseCidr(cidr).value, usedIps.value);
    return if validAddresses then Some(Record(name, driver, cidr, usedIps.value)) else None;
  }

  // ---------- round trip ----------

  lemma {:induction false} UsedIpsRoundTrip(usedIps: seq<nat>, parsed: seq<nat>)
    requires |parsed| + |usedIps| <= MAX_USED_IPS && Distinct(parsed + usedIps)
    requires forall i :: 0 <= i < |usedIps| ==> 0 < usedIps[i] <= UINT32_MAX
    ensures UsedIpsFrom(UsedText(usedIps), parsed) == Some(parsed + usedIps)
    decreases |usedIps|
  {
    if usedIps == [] {
      assert parsed + usedIps == parsed;
    } else {
      var v, rest := usedIps[0], UsedText(usedIps[1..]);
      assert ';' !in PrintNat(v);
      IndexOfJoined(PrintNat(v), ';', rest);
      ParseUint64Printed(v);
      assert (parsed + usedIps)[|parsed|] == v;
      assert forall i :: 0 <= i < |parsed| ==> (parsed + usedIps)[i] == parsed[i];
      assert (parsed + [v]) + usedIps[1..] == parsed + usedIps;
      UsedIpsRoundTrip(usedIps[1..], parsed + [v]);
    }
  }

  lemma {:induction false} UsedTextChars(usedIps: seq<nat>, x: char)
    requires x in UsedText(usedIps)
    ensures IsDigit(x) || x == ';'
  {
    if usedIps != [] && x !in PrintNat(usedIps[0]) + ";" {
      UsedTextChars(usedIps[1..], x);
    }
  }

  lemma {:induction false} NoColon(r: Record)
    requires ValidRecord(r)
    ensures ':' !in r.name && ':' !in r.driver && ':' !in r.cidr && ':' !in UsedText(r.usedIps)
  {
    if ':' in r.cidr {
      CidrChars(r.cidr, ':');
    }
    if ':' in UsedText(r.usedIps) {
      UsedTextChars(r.usedIps, ':');
    }
  }

  /** Only the CIDR can put a line break into a printed record. */
  lemma {:induction false} FormatRecordChars(r: Record, x: char)
    requires ValidRecord(r) && x in FormatRecord(r)
    ensures x == '\n' || x == '\r' || x == '\0' ==> x in r.cidr
  {
    if x in UsedText(r.usedIps) {
      UsedTextChars(r.usedIps, x);
    }
    if x in r.name {
      assert NameChar(x);
    }
  }

  lemma {:induction false} FormatSingleLine(r: Record)
    requires ValidRecord(r)
    ensures SingleLine(FormatRecord(r)) <==> SingleLine(r.cidr)
    ensures '\0' !in FormatRecord(r)
  {
    var line := FormatRecord(r);
    assert forall x :: x in r.cidr ==> x in line;
    if '\n' in line { FormatRecordChars(r, '\n'); }
    if '\r' in line { FormatRecordChars(r, '\r'); }
    if '\0' in line {
      FormatRecordChars(r, '\0');
      CidrChars(r.cidr, '\0');
    }
  }

  lemma {:induction false} FieldsRoundTrip(r: Record)
    requires ValidRecord(r)
    ensures Split(FormatRecord(r), ':') == [r.name, r.driver, r.cidr, UsedText(r.usedIps)]
    ensures ParseFields([r.name, r.driver, r.cidr, UsedText(r.usedIps)]) == Some(r)
  {
    NoColon(r);
    var fields := [r.name, r.driver, r.cidr, UsedText(r.usedIps)];
    Join4(r.name, r.driver, r.cidr, UsedText(r.usedIps), ':');
    SplitJoin(fields, ':');
    CidrLength(r.cidr);
    UsedTextFits(Range(r), r.usedIps);
    assert [] + r.usedIps == r.usedIps;
    UsedIpsRoundTrip(r.usedIps, []);
  }

  /** Reading a printed record gives it back exactly when its CIDR text has no line break. */
  lemma {:induction false} RecordRoundTrip(r: Record)
    requires ValidRecord(r)
    ensures ParseRecord(FormatRecord(r)) == Some(r) <==> SingleLine(r.cidr)
  {
    FormatSingleLine(r);
    if SingleLine(r.cidr) {
      FormatRecordLength(r);
      FieldsRoundTrip(r);
    }
  }

  lemma {:induction false} UsedIpsCount(text: string, parsed: seq<nat>)
    requires |parsed| <= MAX_USED_IPS
    ensures UsedIpsFrom(text, parsed).Some? ==> |UsedIpsFrom(text, parsed).value| <= MAX_USED_IPS
    decreases |text|
  {
    if text != [] {
      var end := IndexOf(text, ';');
      if |parsed| < MAX_USED_IPS && 0 < end < |text| && ParseAddress(text[..end], parsed).Some? {
        UsedIpsCount(text[end + 1..], parsed + [ParseAddress(text[..end], parsed).value]);
      }
    }
  }

  /** Whatever the parser accepts is a valid record that can be printed again. */
  lemma {:induction false} ParsedRecordIsValid(line: string)
    requires ParseRecord(line).Some?
    ensures ValidRecord(ParseRecord(line).value)
    ensures SingleLine(ParseRecord(line).value.cidr)
  {
    var fields := Split(line, ':');
    UsedIpsCount(fields[3], []);
    JoinSplit(line, ':');
    JoinChars(fields, ':', '\n');
    JoinChars(fields, ':', '\r');
    assert fields[2] in fields;
  }

  /** Accepted, printed, and unreadable: a network whose prefix length follows a line break. */
  lemma {:induction false} LineBreakInCidrIsAccepted(network: nat)
    requires network <= UINT32_MAX && network % 256 == 0
    ensures var r := Record("net", "bridge", InetNtop(network) + "/" + "\n24", []);
      ValidRecord(r) && ParseRecord(FormatRecord(r)) == None
  {
    hide InetPton, InetNtop, ParseLong, IndexOf;
    var address, prefixText := InetNtop(network), "\n24";
    NtopText(network);
    NtopThenPton(network);
    ParseTwentyFour();
    ParseCidrText(address, prefixText);
    assert Pow2(8) == 256;
    var r := Record("net", "bridge", address + "/" + prefixText, []);
    assert r.cidr == address + ['/'] + prefixText;
    assert ValidRecord(r);
    assert prefixText[0] in r.cidr;
    FormatSingleLine(r);
  }

  lemma {:induction false} ParseTwentyFour()
    ensures ParseLong("\n24", 0, 32) == Some(24)
  {
    assert SkipSpace("\n24") == "24" by {
      assert "\n24"[1..] == "24";
    }
    assert "24"[..1] == "2" && "2"[..0] == "";
    assert DigitsValue("2") == 2;
    assert DigitsValue("24") == 24;
    assert ScanInteger("\n24") == Scan(false, 24);
  }

  /** The text of a record, and how one more address extends it. */
  lemma {:induction false} RecordText(r: Record, address: nat)
    ensures FormatRecord(r.(usedIps := [])) == r.name + ":" + r.driver + ":" + r.cidr + ":"
    ensures FormatRecord(r.(usedIps := r.usedIps + [address])) == FormatRecord(r) + PrintNat(address) + ";"
  {
    hide PrintNat;
    UsedTextAppend(r.usedIps, [address]);
    assert UsedText([address]) == PrintNat(address) + ";" + UsedText([]);
  }
}
