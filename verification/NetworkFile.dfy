/** The whole network state file: what docker/network.c reads, keeps in memory and prints. */
module NetworkFile {
  import opened Text
  import opened Ipv4
  import opened NetworkState

  const MAX_FILE_SIZE: nat := 1024 * 1024

  predicate UniqueNames(records: seq<Record>)
  {
    forall i, j :: 0 <= i < j < |records| ==> records[i].name != records[j].name
  }

  predicate AllValid(records: seq<Record>)
  {
    forall i :: 0 <= i < |records| ==> ValidRecord(records[i])
  }

  predicate AllSingleLine(records: seq<Record>)
  {
    forall i :: 0 <= i < |records| ==> SingleLine(records[i].cidr)
  }

  /** A list of networks that survives being written and read again. */
  predicate Storable(records: seq<Record>)
  {
    |records| <= MAX_RECORDS && UniqueNames(records) && AllValid(records) && AllSingleLine(records)
  }

  // ---------- writing ----------

  function PrintImage(records: seq<Record>): string
  {
    if records == [] then []
    else FormatRecord(records[0]) + ['\n'] + PrintImage(records[1..])
  }

  lemma {:induction false} PrintImageAppend(a: seq<Record>, b: seq<Record>)
    ensures PrintImage(a + b) == PrintImage(a) + PrintImage(b)
  {
    if a == [] {
      assert a + b == b;
    } else {
      assert (a + b)[1..] == a[1..] + b;
      PrintImageAppend(a[1..], b);
    }
  }

  lemma {:induction false} PrintImageSnoc(records: seq<Record>, r: Record)
    ensures PrintImage(records + [r]) == PrintImage(records) + (FormatRecord(r) + ['\n'])
  {
    PrintImageAppend(records, [r]);
    assert PrintImage([r]) == FormatRecord(r) + ['\n'] + PrintImage([]);
  }

  /** One record and its line end, through a 4096-byte buffer. */
  method PrintLine(r: Record) returns (line: Option<string>)
    ensures line == if ValidRecord(r) then Some(FormatRecord(r) + ['\n']) else None
  {
    var serialized := FormatNetworkRecord(r, MAX_LINE_SIZE);
    if serialized == None {
      if ValidRecord(r) {
        FormatRecordLength(r);
      }
      return None;
    }
    return Some(serialized.value + ['\n']);
  }

  /** The printing loop of write_network_records: the bytes put into the temporary file. */
  method PrintRecords(records: seq<Record>) returns (text: Option<string>)
    ensures text == if AllValid(records) then Some(PrintImage(records)) else None
  {
    hide ValidRecord, FormatRecord;
    var file := [];
    for index := 0 to |records|
      invariant forall i :: 0 <= i < index ==> ValidRecord(records[i])
      invariant file == PrintImage(records[..index])
    {
      var line := PrintLine(records[index]);
      if line == None {
        return None;
      }
      PrintImageSnoc(records[..index], records[index]);
      assert records[..index + 1] == records[..index] + [records[index]];
      file := file + line.value;
    }
    assert records[..|records|] == records;
    return Some(file);
  }

  /** A full table is far below the size limit of the reader. */
  lemma {:induction false} PrintImageLength(records: seq<Record>)
    requires AllValid(records)
    ensures |PrintImage(records)| <= 1452 * |records|
  {
    if records != [] {
      FormatRecordLength(records[0]);
      PrintImageLength(records[1..]);
    }
  }

  lemma {:induction false} PrintImageHasNoNul(records: seq<Record>)
    requires AllValid(records)
    ensures '\0' !in PrintImage(records)
  {
    if records != [] {
      FormatSingleLine(records[0]);
      PrintImageHasNoNul(records[1..]);
    }
  }

  // ---------- reading ----------

  /** The parsing loop of load_network_records with `loaded` already read and `data` left. */
  function LoadFrom(data: string, loaded: seq<Record>): Option<seq<Record>>
    decreases |data|
  {
    if data == [] then Some(loaded)
    else
      var length := IndexOf(data, '\n');
      var r := ParseLine(data[..length]);
      if |loaded| >= MAX_RECORDS || r == None then None
      else LoadFrom(AfterLine(data, length), loaded + [r.value])
  }

  function AfterLine(data: string, length: nat): (rest: string)
    requires data != [] && length <= |data|
    ensures |rest| < |data|
  {
    if length == |data| then [] else data[length + 1..]
  }

  function ParseLine(line: string): Option<Record>
  {
    if line == [] || |line| >= MAX_LINE_SIZE || '\r' in line then None else ParseRecord(line)
  }

  function LoadImage(data: string): Option<seq<Record>>
  {
    if |data| > MAX_FILE_SIZE || '\0' in data then None
    else
      var records := LoadFrom(data, []);
      if records.Some? && UniqueNames(records.value) then records else None
  }

  /** td_network_record_names_are_unique */
  method NetworkRecordNamesAreUnique(records: seq<Record>) returns (unique: bool)
    ensures unique == UniqueNames(records)
  {
    for index := 0 to |records|
      invariant UniqueNames(records[..index])
    {
      for previous := 0 to index
        invariant forall j :: 0 <= j < previous ==> records[j].name != records[index].name
      {
        if records[index].name == records[previous].name {
          return false;
        }
      }
      assert records[..index + 1] == records[..index] + [records[index]];
    }
    assert records[..|records|] == records;
    return true;
  }

  /** load_network_records on the bytes of the file. */
  method LoadNetworkRecords(data: string) returns (result: Option<seq<Record>>)
    ensures result == LoadImage(data)
  {
    if |data| > MAX_FILE_SIZE || '\0' in data {
      return None;
    }
    var cursor, records := data, [];
    while cursor != []
      invariant LoadFrom(cursor, records) == LoadFrom(data, [])
      decreases |cursor|
    {
      var length := IndexOf(cursor, '\n');
      var line := cursor[..length];
      if length == 0 || length >= MAX_LINE_SIZE || '\r' in line || |records| >= MAX_RECORDS {
        return None;
      }
      var record := ParseNetworkRecord(line);
      if record == None {
        return None;
      }
      records := records + [record.value];
      cursor := AfterLine(cursor, length);
    }
    var unique := NetworkRecordNamesAreUnique(records);
    return if unique then Some(records) else None;
  }

  // ---------- round trip ----------

  lemma {:induction false} ParsePrintedLine(r: Record)
    requires ValidRecord(r) && SingleLine(r.cidr)
    ensures ParseLine(FormatRecord(r)) == Some(r)
    ensures '\n' !in FormatRecord(r)
  {
    FormatSingleLine(r);
    FormatRecordLength(r);
    RecordRoundTrip(r);
  }

  lemma {:induction false} CutFirstLine(line: string, rest: string)
    requires '\n' !in line
    ensures var data := line + ['\n'] + rest;
      IndexOf(data, '\n') == |line| && data[..|line|] == line && AfterLine(data, |line|) == rest
  {
    IndexOfJoined(line, '\n', rest);
  }

  lemma {:induction false} LoadFromPrinted(records: seq<Record>, loaded: seq<Record>)
    requires |loaded| + |records| <= MAX_RECORDS && AllValid(records) && AllSingleLine(records)
    ensures LoadFrom(PrintImage(records), loaded) == Some(loaded + records)
    decreases |records|
  {
    hide ValidRecord, FormatRecord, ParseLine;
    if records == [] {
      assert loaded + records == loaded;
    } else {
      var r := records[0];
      ParsePrintedLine(r);
      CutFirstLine(FormatRecord(r), PrintImage(records[1..]));
      assert (loaded + [r]) + records[1..] == loaded + records;
      LoadFromPrinted(records[1..], loaded + [r]);
    }
  }

  lemma {:induction false} LoadedFromIsStorable(data: string, loaded: seq<Record>)
    requires LoadFrom(data, loaded).Some?
    requires |loaded| <= MAX_RECORDS && AllValid(loaded) && AllSingleLine(loaded)
    ensures var records := LoadFrom(data, loaded).value;
      |records| <= MAX_RECORDS && AllValid(records) && AllSingleLine(records)
    decreases |data|
  {
    if data != [] {
      var length := IndexOf(data, '\n');
      ParsedRecordIsValid(data[..length]);
      LoadedFromIsStorable(AfterLine(data, length), loaded + [ParseLine(data[..length]).value]);
    }
  }

  /** Everything that can be loaded can be stored again. */
  lemma {:induction false} LoadedIsStorable(data: string)
    requires LoadImage(data).Some?
    ensures Storable(LoadImage(data).value)
  {
    LoadedFromIsStorable(data, []);
  }

  // ---------- a line break in a CIDR ----------

  lemma {:induction false} Join3(a: string, b: string, d: string, c: char)
    ensures Join([a, b, d], c) == a + [c] + (b + [c] + d)
  {
    assert [a, b, d][1..] == [b, d] && [b, d][1..] == [d];
    assert Join([d], c) == d;
    assert Join([b, d], c) == b + [c] + d;
  }

  /** The first line of a record whose CIDR is broken over lines has only three fields. */
  lemma {:induction false} TruncatedLine(r: Record, rest: string)
    requires ValidRecord(r) && '\n' in r.cidr
    ensures var data := FormatRecord(r) + ['\n'] + rest;
      ParseLine(data[..IndexOf(data, '\n')]) == None
  {
    hide ValidCidr, ParseCidr, ParseFields;
    NoColon(r);
    var part := r.cidr[..IndexOf(r.cidr, '\n')];
    var line := r.name + [':'] + (r.driver + [':'] + part);
    var more := r.cidr[|part| + 1..] + [':'] + UsedText(r.usedIps) + ['\n'] + rest;
    assert r.cidr == part + ['\n'] + r.cidr[|part| + 1..];
    assert FormatRecord(r) + ['\n'] + rest == line + ['\n'] + more;
    assert '\n' !in r.name && '\n' !in r.driver;
    IndexOfJoined(line, '\n', more);
    Join3(r.name, r.driver, part, ':');
    SplitJoin([r.name, r.driver, part], ':');
  }

  lemma {:induction false} LoadFromBroken(records: seq<Record>, loaded: seq<Record>)
    requires AllValid(records) && !AllSingleLine(records)
    ensures LoadFrom(PrintImage(records), loaded) == None
    decreases |records|
  {
    hide ValidRecord, FormatRecord, ParseLine;
    var r, rest := records[0], PrintImage(records[1..]);
    if '\n' in r.cidr {
      TruncatedLine(r, rest);
    } else if '\r' in r.cidr {
      CarriageReturnLine(r, rest);
    } else {
      ParsePrintedLine(r);
      CutFirstLine(FormatRecord(r), rest);
      if |loaded| < MAX_RECORDS {
        LoadFromBroken(records[1..], loaded + [r]);
      }
    }
  }

  lemma {:induction false} CarriageReturnLine(r: Record, rest: string)
    requires ValidRecord(r) && '\n' !in r.cidr && '\r' in r.cidr
    ensures var data := FormatRecord(r) + ['\n'] + rest;
      ParseLine(data[..IndexOf(data, '\n')]) == None
  {
    if '\n' in FormatRecord(r) {
      FormatRecordChars(r, '\n');
    }
    CutFirstLine(FormatRecord(r), rest);
    assert forall x :: x in r.cidr ==> x in FormatRecord(r);
  }

  /** Loading a printed table gives back the table exactly when no CIDR text has a line break, and is refused
      otherwise; neither the record buffer nor the file size limit is ever reached. */
  lemma {:induction false} ImageRoundTrip(records: seq<Record>)
    requires |records| <= MAX_RECORDS && UniqueNames(records) && AllValid(records)
    ensures LoadImage(PrintImage(records)) == if AllSingleLine(records) then Some(records) else None
    ensures |PrintImage(records)| <= 185856
  {
    hide ValidRecord;
    PrintImageLength(records);
    if AllSingleLine(records) {
      PrintImageHasNoNul(records);
      LoadFromPrinted(records, []);
      assert [] + records == records;
    } else {
      LoadFromBroken(records, []);
    }
  }
}
