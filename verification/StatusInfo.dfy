/** Reading, refreshing and rewriting a container's metadata (docker/status_info.c). */
module StatusInfo {
  import opened Text
  import opened Numbers
  import opened Names
  import opened StatusCodec
  import opened MetadataRoundTrip

  const MAX_METADATA_SIZE: nat := 1024 * 1024

  /** read_container_info on the bytes of the file. */
  function ReadInfo(file: Option<string>, name: string, readOk: bool): Option<Info>
  {
    if !readOk || file == None || !ValidName(name, 127) || |file.value| > MAX_METADATA_SIZE then None
    else ParseInfo(file.value, name)
  }

  lemma {:induction false} NoFile(name: string)
    ensures ReadInfo(None, name, true) == None
  {
  }

  /** What /proc says about the recorded process. */
  datatype Lookup = Found(startTime: nat) | NotFound | LookupFailed

  datatype Verdict = Keep | MarkExited | CannotTell

  /** The decision of refresh_container_status_if_needed. */
  function RefreshVerdict(info: Info, lookup: Lookup): Verdict
  {
    if info.status != "RUNNING" || info.pid <= 0 then Keep
    else
      match lookup
      case Found(startTime) =>
        if info.pidStartTime == 0 || startTime == info.pidStartTime then Keep else MarkExited
      case NotFound => MarkExited
      case LookupFailed => CannotTell
  }

  /** What a status rewrite writes: the record as read, with another status. */
  function WithStatus(info: Info, status: string): Info
  {
    info.(status := status)
  }

  /** A record that the writer wrote and any reader reads back: the records this program makes. */
  ghost predicate Sound(info: Info)
  {
    CRecord(info) && WriterAccepts(info) && Faithful(info)
  }

  lemma {:induction false} SoundWithStatus(info: Info, status: string)
    requires Sound(info) && ValidStatus(status)
    ensures Sound(WithStatus(info, status))
  {
    assert |status| < 10 && '\0' !in status by {
      assert '\0' !in "RUNNING" && '\0' !in "STOPPED" && '\0' !in "EXITED";
    }
  }

  // ---------- a sound record can always be read ----------

  /** No line of a record is longer. */
  const LINE_BOUND := 530

  lemma {:induction false} JoinLength(parts: seq<string>, c: char)
    requires |parts| > 0 && forall p :: p in parts ==> |p| <= LINE_BOUND
    ensures |Join(parts, c)| <= |parts| * (LINE_BOUND + 1)
  {
    assert parts[0] in parts;
    if |parts| > 1 {
      var rest := parts[1..];
      forall p | p in rest ensures |p| <= LINE_BOUND { assert p in parts; }
      JoinLength(rest, c);
    }
  }

  lemma {:induction false} KeyLinesLength(pairs: seq<(Field, string)>)
    requires forall i :: 0 <= i < |pairs| ==> |pairs[i].1| <= 512
    ensures forall l :: l in KeyLines(pairs) ==> |l| <= LINE_BOUND
  {
    if pairs != [] {
      KeyNameLength(pairs[0].0);
      assert forall i :: 0 <= i < |pairs[1..]| ==> pairs[1..][i] == pairs[i + 1];
      KeyLinesLength(pairs[1..]);
    }
  }

  lemma {:induction false} KeyNameLength(f: Field)
    ensures |KeyName(f)| <= 14
  {
  }

  lemma {:induction false} NumberLength(n: int)
    requires -INT_MAX - 1 <= n <= UINT64_MAX
    ensures |PrintInt(n)| <= 21
  {
    assert Pow10(4) == 10000;
    assert Pow10(8) == 10000 * Pow10(4) by { assert Pow10(8) == 10 * Pow10(7) == 100 * Pow10(6) == 1000 * Pow10(5); }
    assert Pow10(12) == 10000 * Pow10(8) by { assert Pow10(12) == 10 * Pow10(11) == 100 * Pow10(10) == 1000 * Pow10(9); }
    assert Pow10(16) == 10000 * Pow10(12) by { assert Pow10(16) == 10 * Pow10(15) == 100 * Pow10(14) == 1000 * Pow10(13); }
    assert Pow10(20) == 10000 * Pow10(16) by { assert Pow10(20) == 10 * Pow10(19) == 100 * Pow10(18) == 1000 * Pow10(17); }
    PrintNatLength(if n < 0 then -n else n, 20);
  }

  lemma {:induction false} PrintedFits(info: Info)
    requires CRecord(info) && WriterAccepts(info)
    ensures |PrintInfo(info)| <= MAX_METADATA_SIZE
  {
    hide PrintInt, PrintNat, Join, KeyLines;
    NumberLength(info.pid);
    NumberLength(info.pidStartTime);
    NumberLength(info.detach);
    NumberLength(|info.volumes|);
    NaturalPrints(info.pidStartTime);
    NaturalPrints(|info.volumes|);
    KeyLinesLength(HeaderFields(info));
    HasHeader(info);
    JoinLength(KeyLines(HeaderFields(info)) + info.volumes, '\n');
  }

  /** Reading back what was written for a sound record. */
  lemma {:induction false} SoundIsReadable(info: Info)
    requires Sound(info)
    ensures ReadInfo(Some(PrintInfo(info)), info.name, true) == Some(info)
  {
    hide PrintInfo, ParseInfo, CRecord, WriterAccepts, ValidName;
    PrintedFits(info);
    MetadataSurvivesIff(info);
  }

  /** A status rewrite changes the status and nothing else. */
  lemma {:induction false} OnlyTheStatus(info: Info, status: string)
    ensures var after := WithStatus(info, status);
      after.status == status && after.pid == info.pid && after.pidStartTime == info.pidStartTime && after.detach == info.detach &&
      after.containerId == info.containerId && after.image == info.image && after.command == info.command &&
      after.created == info.created && after.ipAddr == info.ipAddr && after.name == info.name && after.volumes == info.volumes
  {
  }
}
