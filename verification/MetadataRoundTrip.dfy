/** Which container records survive being written and read, and the volumes in particular. */
module MetadataRoundTrip {
  import opened Text
  import opened Numbers
  import opened Names
  import opened StatusCodec

  predicate CString(s: string, size: nat)
  {
    '\0' !in s && |s| < size
  }

  /** The values the fixed-size C structure can hold. */
  predicate CRecord(info: Info)
  {
    -INT_MAX - 1 <= info.pid <= INT_MAX && info.pidStartTime <= UINT64_MAX && -INT_MAX - 1 <= info.detach <= INT_MAX &&
    CString(info.containerId, 128) && CString(info.image, 128) && CString(info.command, 512) &&
    CString(info.created, 20) && CString(info.status, 10) && CString(info.ipAddr, 16) && CString(info.name, 128) &&
    (forall v :: v in info.volumes ==> CString(v, VOLUME_SIZE))
  }

  /** A text that a line of the file can hold: no line feed, and no carriage return at its end. */
  predicate KeepsLine(s: string)
  {
    '\n' !in s && Strip(s) == s
  }

  /** What the writer does not check but a faithful record needs. */
  predicate Faithful(info: Info)
  {
    0 <= info.detach <= 1 && ValidName(info.name, 127) && [] !in info.volumes &&
    KeepsLine(info.containerId) && KeepsLine(info.created) && KeepsLine(info.ipAddr)
  }

  // ---------- one line ----------

  lemma {:induction false} LineOfPair(f: Field, value: string)
    ensures LineField(KeyLine(f, value)) == Some(f)
    ensures LineValue(KeyLine(f, value)) == Strip(value)
    ensures '=' in Strip(KeyLine(f, value))
  {
    hide KeyName;
    KeyNames(f);
    var text := KeyName(f) + ['='] + Strip(value);
    assert Strip(KeyLine(f, value)) == text;
    IndexOfJoined(KeyName(f), '=', Strip(value));
  }

  // ---------- the key lines of a printed record ----------

  predicate DistinctFields(pairs: seq<(Field, string)>)
  {
    forall i, j :: 0 <= i < j < |pairs| ==> pairs[i].0 != pairs[j].0
  }

  function Claimed(fields: Fields, pairs: seq<(Field, string)>): Fields
    decreases |pairs|
  {
    if pairs == [] then fields else Claimed(fields[pairs[0].0 := Strip(pairs[0].1)], pairs[1..])
  }

  lemma {:induction false} ClaimedIs(fields: Fields, pairs: seq<(Field, string)>)
    requires DistinctFields(pairs)
    ensures forall i :: 0 <= i < |pairs| ==>
      pairs[i].0 in Claimed(fields, pairs) && Claimed(fields, pairs)[pairs[i].0] == Strip(pairs[i].1)
    ensures forall f :: f in fields && (forall i :: 0 <= i < |pairs| ==> pairs[i].0 != f) ==>
      f in Claimed(fields, pairs) && Claimed(fields, pairs)[f] == fields[f]
    ensures forall f :: f in Claimed(fields, pairs) ==>
      f in fields || exists i :: 0 <= i < |pairs| && pairs[i].0 == f
    decreases |pairs|
  {
    if pairs != [] {
      var more, rest := fields[pairs[0].0 := Strip(pairs[0].1)], pairs[1..];
      ClaimedIs(more, rest);
      forall i | 0 <= i < |pairs|
        ensures pairs[i].0 in Claimed(fields, pairs) && Claimed(fields, pairs)[pairs[i].0] == Strip(pairs[i].1)
      {
        if i > 0 {
          assert pairs[i] == rest[i - 1];
        }
      }
      assert forall i :: 0 <= i < |rest| ==> rest[i] == pairs[i + 1];
    }
  }

  /** Reading printed key lines claims their values, as long as each is acceptable. */
  lemma {:induction false} HeaderOfPairs(fields: Fields, pairs: seq<(Field, string)>, rest: seq<string>)
    requires VolumeCount !in fields && DistinctFields(pairs)
    requires forall i :: 0 <= i < |pairs| ==> pairs[i].0 != VolumeCount && pairs[i].0 !in fields
    requires forall i :: 0 <= i < |pairs| ==> ValidValue(pairs[i].0, Strip(pairs[i].1))
    ensures Header(fields, KeyLines(pairs) + rest) == Header(Claimed(fields, pairs), rest)
    decreases |pairs|
  {
    hide ValidValue, LineField, LineValue, KeyLine;
    if pairs == [] {
      assert KeyLines(pairs) + rest == rest;
    } else {
      var line := KeyLine(pairs[0].0, pairs[0].1);
      LineOfPair(pairs[0].0, pairs[0].1);
      var lines := KeyLines(pairs) + rest;
      assert lines[0] == line && lines[1..] == KeyLines(pairs[1..]) + rest;
      HeaderOfPairs(fields[pairs[0].0 := Strip(pairs[0].1)], pairs[1..], rest);
    }
  }

  lemma {:induction false} KeyLinesAppend(a: seq<(Field, string)>, b: seq<(Field, string)>)
    ensures KeyLines(a + b) == KeyLines(a) + KeyLines(b)
  {
    if a == [] {
      assert a + b == b;
    } else {
      assert (a + b)[1..] == a[1..] + b;
      KeyLinesAppend(a[1..], b);
    }
  }

  /** No line feed in any field. */
  predicate NoLineFeed(info: Info)
  {
    '\n' !in info.containerId && '\n' !in info.created && '\n' !in info.ipAddr
  }

  lemma {:induction false} KeyLinesHave(pairs: seq<(Field, string)>)
    requires forall i :: 0 <= i < |pairs| ==> '\n' !in pairs[i].1
    ensures forall l :: l in KeyLines(pairs) ==> l != [] && '\n' !in l
  {
    if pairs != [] {
      KeyNames(pairs[0].0);
      assert forall i :: 0 <= i < |pairs[1..]| ==> pairs[1..][i] == pairs[i + 1];
      KeyLinesHave(pairs[1..]);
    }
  }

  lemma {:induction false} PrintedNumber(n: int)
    ensures '\n' !in PrintInt(n) && '\0' !in PrintInt(n) && PrintInt(n) != [] && Strip(PrintInt(n)) == PrintInt(n)
  {
    var s := PrintInt(n);
    assert forall c :: c in s ==> c == '-' || IsDigit(c);
    assert s[|s| - 1] in s;
  }

  lemma {:induction false} HeaderFieldsHaveNoLineFeed(info: Info)
    requires WriterAccepts(info) && NoLineFeed(info)
    ensures forall i :: 0 <= i < |HeaderFields(info)| ==> '\n' !in HeaderFields(info)[i].1
  {
    hide PrintInt, PrintNat;
    PrintedNumber(info.pid);
    PrintedNumber(info.pidStartTime);
    PrintedNumber(info.detach);
    PrintedNumber(|info.volumes|);
    assert PrintNat(info.pidStartTime) == PrintInt(info.pidStartTime) by { NaturalPrints(info.pidStartTime); }
    assert PrintNat(|info.volumes|) == PrintInt(|info.volumes|) by { NaturalPrints(|info.volumes|); }
  }

  lemma {:induction false} NaturalPrints(n: nat)
    ensures PrintNat(n) == PrintInt(n)
  {
  }

  /** The lines that strtok finds in a printed record: the key lines and the volumes that are not empty. */
  lemma {:induction false} TokensOfPrinted(info: Info)
    requires WriterAccepts(info) && NoLineFeed(info)
    ensures Tokens(PrintInfo(info), '\n') == KeyLines(HeaderFields(info)) + NonEmpty(info.volumes)
  {
    hide HeaderFields, KeyLines;
    var header := KeyLines(HeaderFields(info));
    HasHeader(info);
    HeaderFieldsHaveNoLineFeed(info);
    KeyLinesHave(HeaderFields(info));
    var lines := header + info.volumes;
    JoinSnoc(lines, [], '\n');
    assert PrintInfo(info) == Join(lines + [[]], '\n');
    SplitJoin(lines + [[]], '\n');
    NonEmptyAppend(lines, [[]]);
    var last: seq<string> := [[]];
    assert last[1..] == [] && NonEmpty(last) == NonEmpty([]);
    assert Tokens(PrintInfo(info), '\n') == NonEmpty(lines);
    NonEmptyAppend(header, info.volumes);
    NonEmptyIdentity(header);
  }

  lemma {:induction false} StripStatus(s: string)
    requires ValidStatus(s)
    ensures Strip(s) == s
  {
    assert "RUNNING"[6] == 'G' && "STOPPED"[6] == 'D' && "EXITED"[5] == 'D';
  }

  /** Every printed value but the detach flag is acceptable as it is read back. */
  lemma {:induction false} PrintedValuesAreValid(info: Info, i: nat)
    requires CRecord(info) && WriterAccepts(info) && i < 11
    ensures var (f, value) := HeaderFields(info)[i];
      ValidValue(f, Strip(value)) <==> (f == Detach ==> 0 <= info.detach <= 1)
  {
    hide PrintInt, PrintNat, ParseLong, ParseUint64;
    PrintedNumber(info.pid);
    PrintedNumber(info.pidStartTime);
    PrintedNumber(info.detach);
    PrintedNumber(|info.volumes|);
    NaturalPrints(info.pidStartTime);
    NaturalPrints(|info.volumes|);
    ParseLongPrinted(info.pid, 1, INT_MAX);
    ParseLongPrinted(info.detach, 0, 1);
    ParseUint64Printed(info.pidStartTime);
    ParseLongPrinted(|info.volumes|, 0, MAX_VOLUMES);
    StripStatus(info.status);
  }

  lemma {:induction false} HeaderFieldsAreDistinct(info: Info)
    ensures DistinctFields(HeaderFields(info))
    ensures forall i :: 0 <= i < 10 ==> HeaderFields(info)[i].0 != VolumeCount
  {
    hide PrintInt, PrintNat;
  }

  lemma {:induction false} ClaimedSnoc(fields: Fields, pairs: seq<(Field, string)>, f: Field, value: string)
    ensures Claimed(fields, pairs + [(f, value)]) == Claimed(fields, pairs)[f := Strip(value)]
    decreases |pairs|
  {
    if pairs == [] {
      assert pairs + [(f, value)] == [(f, value)];
      assert [(f, value)][1..] == [];
    } else {
      assert (pairs + [(f, value)])[1..] == pairs[1..] + [(f, value)];
      ClaimedSnoc(fields[pairs[0].0 := Strip(pairs[0].1)], pairs[1..], f, value);
    }
  }

  lemma {:induction false} HeaderOfPrinted(info: Info, rest: seq<string>)
    requires CRecord(info) && WriterAccepts(info) && 0 <= info.detach <= 1
    ensures Header(map[], KeyLines(HeaderFields(info)) + rest) ==
      Some(Parsed(Claimed(map[], HeaderFields(info)), rest))
  {
    hide HeaderFields, ValidValue, LineField, LineValue, KeyLine, WriterAccepts, CRecord;
    var pairs := HeaderFields(info);
    HasHeader(info);
    var keys, f, value := pairs[..10], pairs[10].0, pairs[10].1;
    HeaderFieldsAreDistinct(info);
    LastIsVolumeCount(info);
    forall i | 0 <= i < 11 ensures ValidValue(pairs[i].0, Strip(pairs[i].1)) {
      PrintedValuesAreValid(info, i);
    }
    assert pairs == keys + [(f, value)];
    KeyLinesAppend(keys, [(f, value)]);
    assert [(f, value)][1..] == [] && KeyLines([(f, value)]) == [KeyLine(f, value)] + KeyLines([]);
    var line := KeyLine(f, value);
    assert KeyLines(pairs) + rest == KeyLines(keys) + ([line] + rest);
    HeaderOfPairs(map[], keys, [line] + rest);
    var claimed := Claimed(map[], keys);
    ClaimedIs(map[], keys);
    LineOfPair(f, value);
    assert ([line] + rest)[1..] == rest;
    ClaimedSnoc(map[], keys, f, value);
  }

  lemma {:induction false} LastIsVolumeCount(info: Info)
    ensures HeaderFields(info)[10].0 == VolumeCount && HeaderFields(info)[2] == (Detach, PrintInt(info.detach))
  {
  }

  /** A detach flag other than 0 or 1 makes the file unreadable. */
  lemma {:induction false} HeaderRejectsDetach(info: Info, rest: seq<string>)
    requires CRecord(info) && WriterAccepts(info) && !(0 <= info.detach <= 1)
    ensures Header(map[], KeyLines(HeaderFields(info)) + rest) == None
  {
    hide HeaderFields, ValidValue, LineField, LineValue, KeyLine, WriterAccepts, CRecord;
    var pairs := HeaderFields(info);
    HasHeader(info);
    var keys, line, later := pairs[..2], KeyLine(pairs[2].0, pairs[2].1), pairs[3..];
    HeaderFieldsAreDistinct(info);
    LastIsVolumeCount(info);
    forall i | 0 <= i < 2 ensures ValidValue(pairs[i].0, Strip(pairs[i].1)) {
      PrintedValuesAreValid(info, i);
      assert pairs[i].0 != pairs[2].0;
    }
    PrintedValuesAreValid(info, 2);
    assert pairs == keys + [pairs[2]] + later;
    KeyLinesAppend(keys, [pairs[2]]);
    KeyLinesAppend(keys + [pairs[2]], later);
    assert [pairs[2]][1..] == [] && KeyLines([pairs[2]]) == [line] + KeyLines([]);
    var tail := [line] + (KeyLines(later) + rest);
    assert KeyLines(pairs) + rest == KeyLines(keys) + tail;
    HeaderOfPairs(map[], keys, tail);
    ClaimedIs(map[], keys);
    LineOfPair(pairs[2].0, pairs[2].1);
  }

  /** The record as it is read back: trailing carriage returns of the unchecked texts are gone. */
  function ReadBack(info: Info): Info
  {
    info.(containerId := Strip(info.containerId), created := Strip(info.created), ipAddr := Strip(info.ipAddr))
  }

  lemma {:induction false} StripClean(lines: seq<string>)
    requires forall l :: l in lines ==> '\r' !in l
    ensures StripAll(lines) == lines
  {
    if lines != [] {
      var front, last := lines[..|lines| - 1], lines[|lines| - 1];
      assert last in lines;
      forall l | l in front ensures '\r' !in l { assert l in lines; }
      StripClean(front);
    }
  }

  lemma {:induction false} NonEmptyCount(parts: seq<string>)
    ensures |NonEmpty(parts)| <= |parts|
    ensures |NonEmpty(parts)| == |parts| <==> [] !in parts
  {
    if parts != [] {
      NonEmptyCount(parts[1..]);
      assert parts == [parts[0]] + parts[1..];
    }
  }

  lemma {:induction false} StripIdentity(s: string)
    requires SingleLine(s)
    ensures Strip(s) == s
  {
  }

  /** The claimed text of each field, as it stands after dropping carriage returns. */
  lemma {:induction false} ClaimedHeader(info: Info)
    ensures var fields := Claimed(map[], HeaderFields(info));
      REQUIRED <= fields.Keys && PidStart in fields.Keys &&
      fields[Pid] == Strip(PrintInt(info.pid)) && fields[PidStart] == Strip(PrintNat(info.pidStartTime)) &&
      fields[Detach] == Strip(PrintInt(info.detach)) && fields[Id] == Strip(info.containerId) &&
      fields[Image] == Strip(info.image) && fields[Command] == Strip(info.command) &&
      fields[Created] == Strip(info.created) && fields[Status] == Strip(info.status) &&
      fields[Ip] == Strip(info.ipAddr) && fields[Name] == Strip(info.name) &&
      fields[VolumeCount] == Strip(PrintNat(|info.volumes|))
  {
    hide PrintInt, PrintNat, Claimed, Strip;
    HeaderFieldsAreDistinct(info);
    ClaimedIs(map[], HeaderFields(info));
    var pairs := HeaderFields(info);
    assert pairs[0].0 == Pid && pairs[1].0 == PidStart && pairs[2].0 == Detach && pairs[3].0 == Id;
    assert pairs[4].0 == Image && pairs[5].0 == Command && pairs[6].0 == Created && pairs[7].0 == Status;
    assert pairs[8].0 == Ip && pairs[9].0 == Name && pairs[10].0 == VolumeCount;
  }

  lemma {:induction false} BuildOfPrinted(info: Info, volumes: seq<string>)
    requires CRecord(info) && WriterAccepts(info) && 0 <= info.detach <= 1
    ensures var fields := Claimed(map[], HeaderFields(info));
      REQUIRED <= fields.Keys && Count(fields) == |info.volumes| && fields[Name] == info.name &&
      Build(fields, volumes) == ReadBack(info).(volumes := volumes)
  {
    hide PrintInt, PrintNat, ParseLong, ParseUint64, Claimed, HeaderFields, ValidStatus;
    ClaimedHeader(info);
    PrintedNumber(info.pid);
    PrintedNumber(info.pidStartTime);
    PrintedNumber(info.detach);
    PrintedNumber(|info.volumes|);
    NaturalPrints(info.pidStartTime);
    NaturalPrints(|info.volumes|);
    ParseLongPrinted(info.pid, 1, INT_MAX);
    ParseLongPrinted(info.detach, 0, 1);
    ParseUint64Printed(info.pidStartTime);
    ParseLongPrinted(|info.volumes|, 0, MAX_VOLUMES);
    StripStatus(info.status);
    StripIdentity(info.image);
    StripIdentity(info.command);
    StripIdentity(info.name);
  }

  /** Exactly what reading a printed record gives, when no text has a line feed. */
  lemma {:induction false} ParseOfPrinted(info: Info)
    requires CRecord(info) && WriterAccepts(info) && NoLineFeed(info)
    ensures ParseTokens(Tokens(PrintInfo(info), '\n'), info.name) ==
      if 0 <= info.detach <= 1 && ValidName(info.name, 127) && [] !in info.volumes then Some(ReadBack(info)) else None
  {
    hide HeaderFields, KeyLines, Header, Build, Count, ValidName, Claimed;
    var volumes := NonEmpty(info.volumes);
    TokensOfPrinted(info);
    if 0 <= info.detach <= 1 {
      HeaderOfPrinted(info, volumes);
      BuildOfPrinted(info, volumes);
      NonEmptyCount(info.volumes);
      forall v | v in volumes ensures '\r' !in v && |v| < VOLUME_SIZE {
        NonEmptyHas(info.volumes, v);
      }
      StripClean(volumes);
      if [] !in info.volumes {
        NonEmptyIdentity(info.volumes);
      }
    } else {
      HeaderRejectsDetach(info, volumes);
    }
  }

  // ---------- the exact condition ----------

  predicate NoLineFeeds(fields: Fields)
  {
    forall f :: f in fields ==> '\n' !in fields[f]
  }

  lemma {:induction false} HeaderHasNoLineFeed(fields: Fields, lines: seq<string>)
    requires NoLineFeeds(fields) && Header(fields, lines).Some?
    requires forall l :: l in lines ==> '\n' !in l
    ensures NoLineFeeds(Header(fields, lines).value.fields)
    decreases |lines|
  {
    hide ValidLine, LineField;
    if VolumeCount !in fields && lines != [] {
      assert lines[0] in lines;
      forall l | l in lines[1..] ensures '\n' !in l { assert l in lines; }
      HeaderHasNoLineFeed(ApplyLine(fields, lines[0]).value, lines[1..]);
    }
  }

  /** Nothing that was read has a line feed. */
  lemma {:induction false} ParsedHasNoLineFeed(data: string, expectedName: string)
    requires ParseInfo(data, expectedName).Some?
    ensures NoLineFeed(ParseInfo(data, expectedName).value)
  {
    hide Tokens, ValidName, Header;
    var lines := Tokens(data, '\n');
    forall l | l in lines ensures '\n' !in l {
      TokenIs(data, '\n', l);
    }
    HeaderHasNoLineFeed(map[], lines);
  }

  lemma {:induction false} JoinHasNoNul(parts: seq<string>)
    requires |parts| > 0 && forall p :: p in parts ==> '\0' !in p
    ensures '\0' !in Join(parts, '\n')
  {
    if |parts| > 1 {
      forall p | p in parts[1..] ensures '\0' !in p { assert p in parts; }
      JoinHasNoNul(parts[1..]);
    }
    assert parts[0] in parts;
  }

  lemma {:induction false} KeyLinesHaveNoNul(pairs: seq<(Field, string)>)
    requires forall i :: 0 <= i < |pairs| ==> '\0' !in pairs[i].1
    ensures forall l :: l in KeyLines(pairs) ==> '\0' !in l
  {
    if pairs != [] {
      KeyHasNoNul(pairs[0].0);
      assert forall i :: 0 <= i < |pairs[1..]| ==> pairs[1..][i] == pairs[i + 1];
      KeyLinesHaveNoNul(pairs[1..]);
    }
  }

  lemma {:induction false} KeyHasNoNul(f: Field)
    ensures '\0' !in KeyName(f)
  {
  }

  lemma {:induction false} PrintedHasNoNul(info: Info)
    requires CRecord(info)
    ensures '\0' !in PrintInfo(info)
  {
    hide PrintInt, PrintNat, KeyLines;
    PrintedNumber(info.pid);
    PrintedNumber(info.pidStartTime);
    PrintedNumber(info.detach);
    PrintedNumber(|info.volumes|);
    NaturalPrints(info.pidStartTime);
    NaturalPrints(|info.volumes|);
    KeyLinesHaveNoNul(HeaderFields(info));
    JoinHasNoNul(KeyLines(HeaderFields(info)) + info.volumes);
  }

  /** Metadata round trip. A record that the writer accepts is read back unchanged exactly when its detach flag
      is 0 or 1, its name is valid, no volume is empty, and the three unchecked texts fit a line. */
  lemma {:induction false} MetadataSurvivesIff(info: Info)
    requires CRecord(info) && WriterAccepts(info)
    ensures ParseInfo(PrintInfo(info), info.name) == Some(info) <==> Faithful(info)
  {
    hide PrintInfo, ParseTokens, Tokens, WriterAccepts, CRecord, ValidName;
    PrintedHasNoNul(info);
    if NoLineFeed(info) {
      ParseOfPrinted(info);
    } else if ParseInfo(PrintInfo(info), info.name) == Some(info) {
      ParsedHasNoLineFeed(PrintInfo(info), info.name);
    }
  }
}
