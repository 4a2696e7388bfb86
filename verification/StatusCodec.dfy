/** Container metadata (core/status_codec.c): `key=value` lines in any order, then `volume_cnt=N` and N volume lines. */
module StatusCodec {
  import opened Text
  import opened Numbers
  import opened Names

  const MAX_VOLUMES: nat := 32
  const VOLUME_SIZE: nat := 512

  /** struct container_info; volume_cnt is the number of volumes. */
  datatype Info = Info(
    pid: int, pidStartTime: nat, detach: int,
    containerId: string, image: string, command: string, created: string,
    status: string, ipAddr: string, name: string, volumes: seq<string>)

  const EMPTY_INFO := Info(0, 0, 0, [], [], [], [], [], [], [], [])

  datatype Field =
    | Pid | PidStart | Detach | Id | Image | Command | Created | Status | Ip | Name | VolumeCount

  const REQUIRED: set<Field> := {Pid, Detach, Id, Image, Command, Created, Status, Ip, Name, VolumeCount}

  function KeyName(f: Field): string
  {
    match f
    case Pid => "pid"
    case PidStart => "pid_start_time"
    case Detach => "detach"
    case Id => "container_id"
    case Image => "image"
    case Command => "command"
    case Created => "created"
    case Status => "status"
    case Ip => "ip_addr"
    case Name => "name"
    case VolumeCount => "volume_cnt"
  }

  function KeyField(key: string): (r: Option<Field>)
    ensures r.Some? ==> KeyName(r.value) == key
  {
    if key == "pid" then Some(Pid)
    else if key == "pid_start_time" then Some(PidStart)
    else if key == "detach" then Some(Detach)
    else if key == "container_id" then Some(Id)
    else if key == "image" then Some(Image)
    else if key == "command" then Some(Command)
    else if key == "created" then Some(Created)
    else if key == "status" then Some(Status)
    else if key == "ip_addr" then Some(Ip)
    else if key == "name" then Some(Name)
    else if key == "volume_cnt" then Some(VolumeCount)
    else None
  }

  /** No two keys are equal, and no key contains the separator. */
  lemma {:induction false} KeyNames(f: Field)
    ensures KeyField(KeyName(f)) == Some(f)
    ensures '=' !in KeyName(f) && '\n' !in KeyName(f) && KeyName(f) != []
  {
    hide KeyName, KeyField;
    KeySelects(f);
    KeyIsClean(f);
  }

  lemma {:induction false} KeyIsClean(f: Field)
    ensures '=' !in KeyName(f) && '\n' !in KeyName(f) && KeyName(f) != []
  {
  }

  lemma {:induction false} KeySelects(f: Field)
    ensures KeyField(KeyName(f)) == Some(f)
  {
    match f
    case Pid => assert |"pid"| == 3;
    case PidStart => assert |"pid_start_time"| == 14;
    case Detach => assert "detach"[0] == 'd';
    case Id => assert |"container_id"| == 12;
    case Image => assert "image"[0] == 'i';
    case Command => assert "command"[2] == 'm';
    case Created => assert "created"[1] == 'r';
    case Status => assert "status"[0] == 's';
    case Ip => assert "ip_addr"[1] == 'p' && "ip_addr"[0] == 'i';
    case Name => assert "name"[0] == 'n';
    case VolumeCount => assert "volume_cnt"[0] == 'v';
  }

  predicate ValidStatus(s: string)
  {
    s == "RUNNING" || s == "STOPPED" || s == "EXITED"
  }

  function FieldSize(f: Field): nat
  {
    match f
    case Command => 512
    case Created => 20
    case Ip => 16
    case _ => 128
  }

  /** The values parse_key_value accepts for a field. */
  predicate ValidValue(f: Field, value: string)
  {
    match f
    case Pid => ParseLong(value, 1, INT_MAX).Some?
    case PidStart => ParseUint64(value).Some?
    case Detach => ParseLong(value, 0, 1).Some?
    case Status => ValidStatus(value)
    case VolumeCount => ParseLong(value, 0, MAX_VOLUMES).Some?
    case _ => |value| < FieldSize(f)
  }

  // ---------- parsing ----------

  /** A carriage return at the end of a line is dropped, one only. */
  function Strip(line: string): string
  {
    if line != [] && line[|line| - 1] == '\r' then line[..|line| - 1] else line
  }

  /** The field a key line sets. */
  function LineField(line: string): Option<Field>
  {
    var text := Strip(line);
    KeyField(text[..IndexOf(text, '=')])
  }

  function LineValue(line: string): string
  {
    var text := Strip(line);
    var separator := IndexOf(text, '=');
    if separator == |text| then [] else text[separator + 1..]
  }

  /** A key line that is acceptable by itself. */
  predicate ValidLine(line: string)
  {
    '=' in Strip(line) && LineField(line).Some? && ValidValue(LineField(line).value, LineValue(line))
  }

  type Fields = map<Field, string>

  /** One key line claims its field, which nothing may have claimed before. */
  function ApplyLine(fields: Fields, line: string): Option<Fields>
  {
    if !ValidLine(line) || LineField(line).value in fields then None
    else Some(fields[LineField(line).value := LineValue(line)])
  }

  datatype Parsed = Parsed(fields: Fields, volumeLines: seq<string>)

  /** Key lines up to and including the volume count; the lines after it are volumes. */
  function Header(fields: Fields, lines: seq<string>): Option<Parsed>
    decreases |lines|
  {
    if VolumeCount in fields || lines == [] then Some(Parsed(fields, lines))
    else
      match ApplyLine(fields, lines[0])
      case None => None
      case Some(more) => Header(more, lines[1..])
  }

  function StringOf(fields: Fields, f: Field): string
  {
    if f in fields then fields[f] else []
  }

  function NumberOf(r: Option<int>): int
  {
    if r.Some? then r.value else 0
  }

  function StripAll(lines: seq<string>): (r: seq<string>)
    ensures |r| == |lines|
    ensures forall i :: 0 <= i < |r| ==> r[i] == Strip(lines[i])
  {
    if lines == [] then [] else StripAll(lines[..|lines| - 1]) + [Strip(lines[|lines| - 1])]
  }

  /** The record the claimed fields describe; an unclaimed field is zero or empty. */
  function Build(fields: Fields, volumes: seq<string>): Info
  {
    Info(NumberOf(ParseLong(StringOf(fields, Pid), 1, INT_MAX)),
         (match ParseUint64(StringOf(fields, PidStart)) case Some(v) => v case None => 0),
         NumberOf(ParseLong(StringOf(fields, Detach), 0, 1)),
         StringOf(fields, Id), StringOf(fields, Image), StringOf(fields, Command), StringOf(fields, Created),
         StringOf(fields, Status), StringOf(fields, Ip), StringOf(fields, Name), volumes)
  }

  function Count(fields: Fields): int
  {
    NumberOf(ParseLong(StringOf(fields, VolumeCount), 0, MAX_VOLUMES))
  }

  /** The checks after the last line. */
  function Finish(parsed: Parsed, expectedName: string): Option<Info>
  {
    var fields, volumes := parsed.fields, StripAll(parsed.volumeLines);
    if REQUIRED <= fields.Keys && |volumes| == Count(fields) && (forall v :: v in volumes ==> |v| < VOLUME_SIZE) &&
       ValidName(fields[Name], 127) && fields[Name] == expectedName
    then Some(Build(fields, volumes)) else None
  }

  function ParseTokens(lines: seq<string>, expectedName: string): Option<Info>
  {
    match Header(map[], lines)
    case None => None
    case Some(parsed) => Finish(parsed, expectedName)
  }

  function ParseInfo(data: string, expectedName: string): Option<Info>
  {
    if '\0' in data then None else ParseTokens(Tokens(data, '\n'), expectedName)
  }

  // ---------- the parser as written ----------

  /** The field assignments of parse_key_value. */
  method SetField(info: Info, f: Field, value: string, ghost fields: Fields) returns (r: Info)
    requires ValidValue(f, value) && f !in fields && info == Build(fields, info.volumes)
    ensures r == Build(fields[f := value], info.volumes)
  {
    hide ParseLong, ParseUint64;
    match f
    case Pid => r := info.(pid := ParseLong(value, 1, INT_MAX).value);
    case PidStart => r := info.(pidStartTime := ParseUint64(value).value);
    case Detach => r := info.(detach := ParseLong(value, 0, 1).value);
    case Id => r := info.(containerId := value);
    case Image => r := info.(image := value);
    case Command => r := info.(command := value);
    case Created => r := info.(created := value);
    case Status => r := info.(status := value);
    case Ip => r := info.(ipAddr := value);
    case Name => r := info.(name := value);
    case VolumeCount => r := info;
  }

  /** parse_key_value: `seen` is the bit mask of claimed fields. */
  method ParseKeyValue(line: string, info: Info, seen: set<Field>, count: int, ghost fields: Fields)
    returns (ok: bool, info': Info, seen': set<Field>, count': int)
    requires seen == fields.Keys && info == Build(fields, info.volumes) && count == Count(fields)
    ensures ok == ApplyLine(fields, line).Some?
    ensures ok ==> var more := ApplyLine(fields, line).value;
      seen' == more.Keys && info' == Build(more, info.volumes) && count' == Count(more)
  {
    hide ParseLong, ParseUint64, Build;
    info', seen', count' := info, seen, count;
    var text := Strip(line);
    var separator := IndexOf(text, '=');
    if separator == |text| || separator == 0 {
      return false, info', seen', count';
    }
    var key, value := text[..separator], text[separator + 1..];
    var field := KeyField(key);
    if field == None || field.value in seen || !ValidValue(field.value, value) {
      return false, info', seen', count';
    }
    seen' := seen + {field.value};
    info' := SetField(info, field.value, value, fields);
    if field == Some(VolumeCount) {
      count' := ParseLong(value, 0, MAX_VOLUMES).value;
    }
    return true, info', seen', count';
  }

  /** The loop of td_parse_container_info while the volume count has not been seen. */
  method ReadKeyLines(lines: seq<string>)
    returns (ok: bool, info: Info, seen: set<Field>, count: int, index: nat, ghost fields: Fields)
    ensures ok == Header(map[], lines).Some?
    ensures ok ==> index <= |lines| && Header(map[], lines) == Some(Parsed(fields, lines[index..]))
    ensures ok ==> seen == fields.Keys && info == Build(fields, []) && count == Count(fields)
  {
    hide ApplyLine, Build, Count;
    info, seen, count, index, fields := EMPTY_INFO, {}, 0, 0, map[];
    EmptyBuild();
    assert lines[0..] == lines;
    while index < |lines| && VolumeCount !in seen
      invariant index <= |lines|
      invariant seen == fields.Keys && info == Build(fields, []) && info.volumes == [] && count == Count(fields)
      invariant Header(map[], lines) == Header(fields, lines[index..])
    {
      ghost var rest := lines[index..];
      ok, info, seen, count := ParseKeyValue(lines[index], info, seen, count, fields);
      assert rest[0] == lines[index] && rest[1..] == lines[index + 1..];
      if !ok {
        return;
      }
      fields := ApplyLine(fields, lines[index]).value;
      BuildVolumes(fields, []);
      index := index + 1;
    }
    ok := true;
  }

  /** The loop of td_parse_container_info after the volume count. */
  method ReadVolumeLines(lines: seq<string>, count: int)
    returns (volumes: Option<seq<string>>, ghost bad: nat)
    ensures volumes.Some? ==> volumes.value == StripAll(lines) && (|lines| <= count || lines == [])
    ensures volumes.Some? ==> forall v :: v in volumes.value ==> |v| < VOLUME_SIZE
    ensures volumes.None? ==> bad < |lines| && (bad >= count || |Strip(lines[bad])| >= VOLUME_SIZE)
  {
    var volumeIndex, read := 0, [];
    bad := 0;
    while volumeIndex < |lines|
      invariant volumeIndex <= |lines| && read == StripAll(lines[..volumeIndex])
      invariant forall v :: v in read ==> |v| < VOLUME_SIZE
      invariant volumeIndex <= count || volumeIndex == 0
    {
      var volume := Strip(lines[volumeIndex]);
      assert lines[..volumeIndex + 1][..volumeIndex] == lines[..volumeIndex];
      if volumeIndex >= count || |volume| >= VOLUME_SIZE {
        return None, volumeIndex;
      }
      read := read + [volume];
      volumeIndex := volumeIndex + 1;
    }
    assert lines[..|lines|] == lines;
    volumes := Some(read);
  }

  /** td_parse_container_info */
  method ParseContainerInfo(data: string, expectedName: string) returns (r: Option<Info>)
    ensures r == ParseInfo(data, expectedName)
  {
    hide ValidName, Tokens, Build, Count, Header;
    if '\0' in data {
      return None;
    }
    var lines := Tokens(data, '\n');
    var ok, info, seen, count, index, fields := ReadKeyLines(lines);
    if !ok {
      return None;
    }
    ghost var parsed := Parsed(fields, lines[index..]);
    var volumes, bad := ReadVolumeLines(lines[index..], count);
    if volumes == None {
      TooManyOrTooLong(parsed, expectedName, bad);
      return None;
    }
    if !(REQUIRED <= seen) || |volumes.value| != count {
      return None;
    }
    BuildVolumes(fields, volumes.value);
    var validName := ValidateName(info.name, 127);
    return if validName && info.name == expectedName then Some(info.(volumes := volumes.value)) else None;
  }

  lemma {:induction false} EmptyBuild()
    ensures Build(map[], []) == EMPTY_INFO && Count(map[]) == 0
  {
    assert SkipSpace([]) == [];
  }

  lemma {:induction false} BuildVolumes(fields: Fields, volumes: seq<string>)
    ensures Build(fields, []).volumes == []
    ensures Build(fields, volumes) == Build(fields, []).(volumes := volumes)
    ensures Name in fields ==> Build(fields, []).name == fields[Name]
  {
  }

  lemma {:induction false} TooManyOrTooLong(parsed: Parsed, expectedName: string, k: nat)
    requires k < |parsed.volumeLines|
    requires k >= Count(parsed.fields) || |Strip(parsed.volumeLines[k])| >= VOLUME_SIZE
    ensures Finish(parsed, expectedName) == None
  {
    assert StripAll(parsed.volumeLines)[k] in StripAll(parsed.volumeLines);
  }

  // ---------- what an accepted file looks like ----------

  /** Each line sets a field that is still free. */
  predicate SetsNewField(fields: Fields, line: string)
  {
    ValidLine(line) && LineField(line).value !in fields
  }

  /** The first k + 1 lines are the key lines: the last is the volume count, and they set distinct fields. */
  lemma {:induction false} HeaderShape(fields: Fields, lines: seq<string>, k: nat)
    requires VolumeCount !in fields && Header(fields, lines).Some?
    requires VolumeCount in Header(fields, lines).value.fields
    requires k + 1 + |Header(fields, lines).value.volumeLines| == |lines|
    ensures LineField(lines[k]) == Some(VolumeCount)
    ensures forall i :: 0 <= i <= k ==> SetsNewField(fields, lines[i])
    ensures forall i, j :: 0 <= i < j <= k ==> LineField(lines[i]) != LineField(lines[j])
    decreases |lines|
  {
    hide LineField, LineValue, ValidValue;
    var more := ApplyLine(fields, lines[0]).value;
    var rest := lines[1..];
    if VolumeCount in more {
      assert k == 0;
    } else {
      HeaderLeavesASuffix(more, rest);
      HeaderShape(more, rest, k - 1);
      forall i | 0 < i <= k
        ensures SetsNewField(fields, lines[i]) && LineField(lines[i]) != LineField(lines[0])
      {
        assert lines[i] == rest[i - 1];
        assert SetsNewField(more, rest[i - 1]);
      }
      forall i, j | 0 <= i < j <= k ensures LineField(lines[i]) != LineField(lines[j]) {
        if i > 0 {
          assert lines[i] == rest[i - 1] && lines[j] == rest[j - 1];
        }
      }
    }
  }

  /** Every claimed field was claimed by one of the lines. */
  lemma {:induction false} HeaderCovers(fields: Fields, lines: seq<string>, f: Field) returns (i: nat)
    requires Header(fields, lines).Some? && f in Header(fields, lines).value.fields && f !in fields
    ensures i + |Header(fields, lines).value.volumeLines| < |lines| && LineField(lines[i]) == Some(f)
    decreases |lines|
  {
    hide LineField, LineValue, ValidValue;
    var more := ApplyLine(fields, lines[0]).value;
    HeaderLeavesASuffix(more, lines[1..]);
    if f in more {
      i := 0;
    } else {
      var j := HeaderCovers(more, lines[1..], f);
      i := j + 1;
    }
  }

  lemma {:induction false} HeaderLeavesASuffix(fields: Fields, lines: seq<string>)
    requires Header(fields, lines).Some?
    ensures var left := Header(fields, lines).value.volumeLines;
      |left| <= |lines| && left == lines[|lines| - |left|..]
    ensures VolumeCount !in fields && VolumeCount in Header(fields, lines).value.fields ==>
      |Header(fields, lines).value.volumeLines| < |lines|
    decreases |lines|
  {
    hide ApplyLine;
    if VolumeCount !in fields && lines != [] {
      var more, rest := ApplyLine(fields, lines[0]).value, lines[1..];
      HeaderLeavesASuffix(more, rest);
      var left := Header(more, rest).value.volumeLines;
      assert rest[|rest| - |left|..] == lines[|lines| - |left|..];
    }
  }

  /** Shape of every accepted file: key lines for distinct fields, every required one among them, the volume
      count last; then exactly as many further non-empty lines as it says, which are the volumes. */
  lemma {:induction false} AcceptedShape(data: string, expectedName: string) returns (k: nat)
    requires ParseInfo(data, expectedName).Some?
    ensures var lines, info := Tokens(data, '\n'), ParseInfo(data, expectedName).value;
      && k + 1 + |info.volumes| == |lines| && (forall l :: l in lines ==> l != [])
      && LineField(lines[k]) == Some(VolumeCount)
      && (forall i :: 0 <= i <= k ==> SetsNewField(map[], lines[i]))
      && (forall i, j :: 0 <= i < j <= k ==> LineField(lines[i]) != LineField(lines[j]))
      && (forall f :: f in REQUIRED ==> exists i :: 0 <= i <= k && LineField(lines[i]) == Some(f))
      && info.volumes == StripAll(lines[k + 1..])
      && info.name == expectedName && ValidName(expectedName, 127)
  {
    hide LineField, LineValue, ValidValue, Tokens, ValidName, Header, Count;
    var lines := Tokens(data, '\n');
    var parsed := Header(map[], lines).value;
    HeaderLeavesASuffix(map[], lines);
    k := |lines| - |parsed.volumeLines| - 1;
    HeaderShape(map[], lines, k);
    forall f | f in REQUIRED ensures exists i :: 0 <= i <= k && LineField(lines[i]) == Some(f) {
      var i := HeaderCovers(map[], lines, f);
    }
    forall l | l in lines ensures l != [] {
      TokenIs(data, '\n', l);
    }
    BuildVolumes(parsed.fields, StripAll(parsed.volumeLines));
  }

  // ---------- the order of the key lines does not matter ----------

  /** The effect of key lines none of which is the volume count. */
  function ApplyLines(fields: Fields, lines: seq<string>): Option<Fields>
    decreases |lines|
  {
    if lines == [] then Some(fields)
    else
      match ApplyLine(fields, lines[0])
      case None => None
      case Some(more) => ApplyLines(more, lines[1..])
  }

  lemma {:induction false} SwapLines(fields: Fields, x: string, y: string, rest: seq<string>)
    ensures ApplyLines(fields, [x, y] + rest) == ApplyLines(fields, [y, x] + rest)
  {
    hide LineField, LineValue, ValidValue;
    assert ([x, y] + rest)[1..] == [y] + rest && ([y] + rest)[1..] == rest;
    assert ([y, x] + rest)[1..] == [x] + rest && ([x] + rest)[1..] == rest;
    if ValidLine(x) && ValidLine(y) && LineField(x) != LineField(y) {
      var f, g := LineField(x).value, LineField(y).value;
      assert fields[f := LineValue(x)][g := LineValue(y)] == fields[g := LineValue(y)][f := LineValue(x)];
    }
  }

  lemma {:induction false} MoveToFront(fields: Fields, a: seq<string>, x: string, b: seq<string>)
    ensures ApplyLines(fields, a + [x] + b) == ApplyLines(fields, [x] + (a + b))
    decreases |a|
  {
    hide ApplyLine;
    if a == [] {
      assert a + [x] + b == [x] + (a + b);
    } else {
      assert a + [x] + b == [a[0]] + (a[1..] + [x] + b);
      assert [x] + (a + b) == [x, a[0]] + (a[1..] + b);
      assert [a[0], x] + (a[1..] + b) == [a[0]] + ([x] + (a[1..] + b));
      SwapLines(fields, a[0], x, a[1..] + b);
      var more := ApplyLine(fields, a[0]);
      assert (a + [x] + b)[1..] == a[1..] + [x] + b;
      if more.Some? {
        MoveToFront(more.value, a[1..], x, b);
      }
    }
  }

  lemma {:induction false} RemoveOne(a: seq<string>, b: seq<string>, i: nat)
    requires a != [] && i < |b| && b[i] == a[0] && multiset(a) == multiset(b)
    ensures multiset(a[1..]) == multiset(b[..i] + b[i + 1..])
  {
    assert a == [a[0]] + a[1..];
    assert b == b[..i] + [a[0]] + b[i + 1..];
    assert multiset(a) == multiset{a[0]} + multiset(a[1..]);
    assert multiset(b) == multiset(b[..i]) + multiset{a[0]} + multiset(b[i + 1..]);
    assert multiset(b[..i] + b[i + 1..]) == multiset(b[..i]) + multiset(b[i + 1..]);
    assert multiset(a[1..]) == multiset(a) - multiset{a[0]};
  }

  lemma {:induction false} ApplyPermutation(fields: Fields, a: seq<string>, b: seq<string>)
    requires multiset(a) == multiset(b)
    ensures ApplyLines(fields, a) == ApplyLines(fields, b)
    decreases |a|
  {
    hide ApplyLine;
    if a == [] {
      assert |multiset(b)| == 0;
    } else {
      assert a[0] in multiset(b);
      var i :| 0 <= i < |b| && b[i] == a[0];
      var others := b[..i] + b[i + 1..];
      assert b == b[..i] + [a[0]] + b[i + 1..];
      MoveToFront(fields, b[..i], a[0], b[i + 1..]);
      RemoveOne(a, b, i);
      var more := ApplyLine(fields, a[0]);
      assert ([a[0]] + others)[1..] == others;
      if more.Some? {
        ApplyPermutation(more.value, a[1..], others);
      }
    }
  }

  predicate NoVolumeCount(lines: seq<string>)
  {
    forall l :: l in lines ==> LineField(l) != Some(VolumeCount)
  }

  lemma {:induction false} HeaderAfterKeys(fields: Fields, keys: seq<string>, rest: seq<string>)
    requires VolumeCount !in fields && NoVolumeCount(keys)
    ensures Header(fields, keys + rest) ==
      match ApplyLines(fields, keys) case None => None case Some(more) => Header(more, rest)
    ensures ApplyLines(fields, keys).Some? ==> VolumeCount !in ApplyLines(fields, keys).value
    decreases |keys|
  {
    hide LineField, LineValue, ValidValue;
    if keys == [] {
      assert keys + rest == rest;
    } else {
      assert (keys + rest)[0] == keys[0] && (keys + rest)[1..] == keys[1..] + rest;
      assert keys[0] in keys;
      if ApplyLine(fields, keys[0]).Some? {
        forall l | l in keys[1..] ensures LineField(l) != Some(VolumeCount) { assert l in keys; }
        HeaderAfterKeys(ApplyLine(fields, keys[0]).value, keys[1..], rest);
      }
    }
  }

  /** Permuting the lines before the volume count changes neither acceptance nor the result. */
  lemma {:induction false} KeyOrderIsFree(before: seq<string>, after: seq<string>, rest: seq<string>, expectedName: string)
    requires multiset(before) == multiset(after) && NoVolumeCount(before)
    ensures ParseTokens(before + rest, expectedName) == ParseTokens(after + rest, expectedName)
  {
    hide LineField, ApplyLine, Finish;
    forall l | l in after ensures LineField(l) != Some(VolumeCount) {
      assert l in multiset(before);
    }
    HeaderAfterKeys(map[], before, rest);
    HeaderAfterKeys(map[], after, rest);
    ApplyPermutation(map[], before, after);
  }

  // ---------- writing ----------

  /** What td_write_container_info checks. */
  predicate WriterAccepts(info: Info)
  {
    info.pid > 0 && |info.volumes| <= MAX_VOLUMES && ValidStatus(info.status) &&
    SingleLine(info.image) && SingleLine(info.command) && SingleLine(info.name) &&
    forall v :: v in info.volumes ==> SingleLine(v)
  }

  function KeyLine(f: Field, value: string): string
  {
    KeyName(f) + ['='] + value
  }

  /** The fields in the order in which they are printed. */
  function HeaderFields(info: Info): seq<(Field, string)>
  {
    [(Pid, PrintInt(info.pid)), (PidStart, PrintNat(info.pidStartTime)), (Detach, PrintInt(info.detach)),
     (Id, info.containerId), (Image, info.image), (Command, info.command), (Created, info.created),
     (Status, info.status), (Ip, info.ipAddr), (Name, info.name), (VolumeCount, PrintNat(|info.volumes|))]
  }

  function KeyLines(pairs: seq<(Field, string)>): (r: seq<string>)
    ensures |r| == |pairs|
  {
    if pairs == [] then [] else [KeyLine(pairs[0].0, pairs[0].1)] + KeyLines(pairs[1..])
  }

  function PrintInfo(info: Info): string
  {
    Join(KeyLines(HeaderFields(info)) + info.volumes, '\n') + ['\n']
  }

  lemma {:induction false} JoinSnoc(parts: seq<string>, p: string, c: char)
    requires |parts| > 0
    ensures Join(parts + [p], c) == Join(parts, c) + [c] + p
  {
    if |parts| == 1 {
      assert (parts + [p])[1..] == [p];
    } else {
      assert (parts + [p])[1..] == parts[1..] + [p];
      JoinSnoc(parts[1..], p, c);
    }
  }

  /** td_write_container_info: the header, each volume on a line of its own, a final line end. */
  method WriteContainerInfo(info: Info) returns (text: Option<string>)
    ensures text == if WriterAccepts(info) then Some(PrintInfo(info)) else None
  {
    hide HeaderFields, KeyLines;
    if info.pid <= 0 || |info.volumes| > MAX_VOLUMES || !ValidStatus(info.status) ||
       !SingleLine(info.image) || !SingleLine(info.command) || !SingleLine(info.name) {
      return None;
    }
    var header := KeyLines(HeaderFields(info));
    HasHeader(info);
    var stream := Join(header, '\n');
    assert header + info.volumes[..0] == header;
    for index := 0 to |info.volumes|
      invariant forall i :: 0 <= i < index ==> SingleLine(info.volumes[i])
      invariant stream == Join(header + info.volumes[..index], '\n')
    {
      if !SingleLine(info.volumes[index]) {
        return None;
      }
      JoinSnoc(header + info.volumes[..index], info.volumes[index], '\n');
      assert header + info.volumes[..index + 1] == header + info.volumes[..index] + [info.volumes[index]];
      stream := stream + ['\n'] + info.volumes[index];
    }
    assert info.volumes[..|info.volumes|] == info.volumes;
    return Some(stream + ['\n']);
  }

  lemma {:induction false} HasHeader(info: Info)
    ensures |KeyLines(HeaderFields(info))| == 11
  {
  }

  /** The text of a record, line by line. */
  lemma {:induction false} PrintedLines(info: Info)
    ensures PrintInfo(info) == Join(
      ["pid=" + PrintInt(info.pid), "pid_start_time=" + PrintNat(info.pidStartTime), "detach=" + PrintInt(info.detach),
       "container_id=" + info.containerId, "image=" + info.image, "command=" + info.command, "created=" + info.created,
       "status=" + info.status, "ip_addr=" + info.ipAddr, "name=" + info.name,
       "volume_cnt=" + PrintNat(|info.volumes|)] + info.volumes, '\n') + "\n"
  {
    hide PrintInt, PrintNat, Join, KeyName, KeyLine;
    HeaderLines(info);
    HeaderTexts(info);
  }

  lemma {:induction false} HeaderLines(info: Info)
    ensures KeyLines(HeaderFields(info)) ==
      [KeyLine(Pid, PrintInt(info.pid)), KeyLine(PidStart, PrintNat(info.pidStartTime)), KeyLine(Detach, PrintInt(info.detach)),
       KeyLine(Id, info.containerId), KeyLine(Image, info.image), KeyLine(Command, info.command),
       KeyLine(Created, info.created), KeyLine(Status, info.status), KeyLine(Ip, info.ipAddr), KeyLine(Name, info.name),
       KeyLine(VolumeCount, PrintNat(|info.volumes|))]
  {
    hide PrintInt, PrintNat, KeyName, KeyLine;
    KeyLinesAt(HeaderFields(info));
  }

  lemma {:induction false} KeyLinesAt(pairs: seq<(Field, string)>)
    ensures forall i :: 0 <= i < |pairs| ==> KeyLines(pairs)[i] == KeyLine(pairs[i].0, pairs[i].1)
  {
    hide KeyLine;
    if pairs != [] {
      KeyLinesAt(pairs[1..]);
      assert forall i :: 1 <= i < |pairs| ==> KeyLines(pairs)[i] == KeyLines(pairs[1..])[i - 1] && pairs[i] == pairs[1..][i - 1];
    }
  }

  lemma {:induction false} HeaderTexts(info: Info)
    ensures KeyLine(Pid, PrintInt(info.pid)) == "pid=" + PrintInt(info.pid)
    ensures KeyLine(PidStart, PrintNat(info.pidStartTime)) == "pid_start_time=" + PrintNat(info.pidStartTime)
    ensures KeyLine(Detach, PrintInt(info.detach)) == "detach=" + PrintInt(info.detach)
    ensures KeyLine(Id, info.containerId) == "container_id=" + info.containerId
    ensures KeyLine(Image, info.image) == "image=" + info.image && KeyLine(Command, info.command) == "command=" + info.command
    ensures KeyLine(Created, info.created) == "created=" + info.created && KeyLine(Status, info.status) == "status=" + info.status
    ensures KeyLine(Ip, info.ipAddr) == "ip_addr=" + info.ipAddr && KeyLine(Name, info.name) == "name=" + info.name
    ensures KeyLine(VolumeCount, PrintNat(|info.volumes|)) == "volume_cnt=" + PrintNat(|info.volumes|)
  {
    hide PrintInt, PrintNat;
    assert "pid=" == "pid" + "=" && "pid_start_time=" == "pid_start_time" + "=" && "detach=" == "detach" + "=";
    assert "container_id=" == "container_id" + "=" && "image=" == "image" + "=" && "command=" == "command" + "=";
    assert "created=" == "created" + "=" && "status=" == "status" + "=" && "ip_addr=" == "ip_addr" + "=";
    assert "name=" == "name" + "=" && "volume_cnt=" == "volume_cnt" + "=";
  }
}
