/** The commands that rewrite a container's metadata while it exists: refresh, stop and the end of a foreground run
    (docker/status_info.c, docker/container.c). */
module StatusCommands {
  import opened Text
  import opened Names
  import opened StatusCodec
  import opened MetadataRoundTrip
  import opened StatusInfo
  import opened ContainerRun

  const STOP_POLLS_PER_SECOND := 10
  const KILL_POLLS := 20

  /** What the system makes of one stop. counts(i) is the i-th observation of the process list, negative when it could
      not be read. */
  datatype StopEnv = StopEnv(
    readOk: bool, lookup: Lookup, refreshOk: bool, termOk: bool, counts: nat -> int, killOk: bool,
    rereadOk: bool, writeOk: bool)

  /** The longest a stop watches the process list. */
  function MaxObservations(time: int): nat
  {
    1 + (if time > 0 then time * STOP_POLLS_PER_SECOND else 0) + KILL_POLLS
  }

  /** The first n observations, all but the last of them of a live container. */
  predicate WatchedUntil(counts: nat -> int, n: nat)
  {
    n > 0 && forall i: nat :: i < n - 1 ==> counts(i) > 0
  }

  /** The record in the file, as any reader sees it. */
  function Current(h: Option<string>, name: string): Option<Info>
  {
    ReadInfo(h, name, true)
  }

  /** refresh_container_status_if_needed on a record that was read before. */
  method Refresh(h: Host, name: string, info: Info, lookup: Lookup, writeOk: bool) returns (failed: bool, after: Info)
    modifies h`metadata
    ensures RefreshVerdict(info, lookup) == Keep ==> !failed && after == info && h.metadata == old(h.metadata)
    ensures RefreshVerdict(info, lookup) == CannotTell ==> failed && after == info && h.metadata == old(h.metadata)
    ensures RefreshVerdict(info, lookup) == MarkExited ==> after == WithStatus(info, "EXITED")
    ensures RefreshVerdict(info, lookup) == MarkExited ==>
      h.metadata == if failed then old(h.metadata) else Some(PrintInfo(after))
    ensures RefreshVerdict(info, lookup) == MarkExited && Sound(info) && name == info.name ==> failed == !writeOk
  {
    hide PrintInfo, ValidName, CRecord, Faithful, WriterAccepts;
    if info.status != "RUNNING" || info.pid <= 0 {
      return false, info;
    }
    match lookup {
      case LookupFailed => return true, info;
      case Found(startTime) =>
        if info.pidStartTime == 0 || startTime == info.pidStartTime {
          return false, info;
        }
      case NotFound =>
    }
    after := info.(status := "EXITED");
    if Sound(info) {
      SoundWithStatus(info, "EXITED");
      SoundName(info);
    }
    var ok := h.WriteMetadata(name, after, writeOk);
    return !ok, after;
  }

  /** The recorded process is still there, as far as the record can tell. */
  predicate SameProcess(info: Info, lookup: Lookup)
  {
    lookup.Found? && (info.pidStartTime == 0 || lookup.startTime == info.pidStartTime)
  }

  /** What ps, inspect and rm do to the file: read it and refresh the status. Every later reader sees RUNNING exactly when it
      was RUNNING and the process with the recorded identity exists, or the record is too old to tell, or nothing could be
      found out or written; all other fields are as they were. */
  method RefreshFile(h: Host, name: string, readOk: bool, lookup: Lookup, writeOk: bool) returns (info: Option<Info>)
    requires Current(h.metadata, name).Some? ==> Sound(Current(h.metadata, name).value) && Current(h.metadata, name).value.name == name
    modifies h`metadata
    ensures old(Current(h.metadata, name)) == None ==> h.metadata == old(h.metadata)
    ensures old(Current(h.metadata, name)).Some? ==>
      var before := old(Current(h.metadata, name)).value;
      var kept := !readOk || !writeOk || lookup.LookupFailed? || SameProcess(before, lookup);
      Current(h.metadata, name) == Some(if before.status != "RUNNING" || kept then before else WithStatus(before, "EXITED"))
  {
    hide PrintInfo, ReadInfo, CRecord, Faithful;
    ReadIsCurrent(h.metadata, name, readOk);
    info := ReadInfo(h.metadata, name, readOk);
    if info == None {
      return;
    }
    SoundWithStatus(info.value, "EXITED");
    SoundIsReadable(WithStatus(info.value, "EXITED"));
    var failed, after := Refresh(h, name, info.value, lookup, writeOk);
    info := if failed then None else Some(after);
  }

  lemma {:induction false} SoundName(info: Info)
    requires Sound(info)
    ensures ValidName(info.name, 127)
  {
  }

  /** update_container_status: reads the file again and writes the whole record back with another status. */
  method UpdateStatus(h: Host, name: string, status: string, readOk: bool, writeOk: bool) returns (ok: bool)
    requires ValidStatus(status)
    modifies h`metadata
    ensures match ReadInfo(old(h.metadata), name, readOk)
      case None => !ok && h.metadata == old(h.metadata)
      case Some(info) =>
        h.metadata == (if ok then Some(PrintInfo(WithStatus(info, status))) else old(h.metadata)) &&
        (Sound(info) && name == info.name ==> ok == writeOk)
  {
    hide PrintInfo, ValidName, CRecord, Faithful, WriterAccepts, ReadInfo;
    var info := ReadInfo(h.metadata, name, readOk);
    if info == None {
      return false;
    }
    if Sound(info.value) {
      SoundWithStatus(info.value, status);
      SoundName(info.value);
    }
    ok := h.WriteMetadata(name, info.value.(status := status), writeOk);
  }

  /** The loop shared by both waiting phases of docker_stop: look again until the list is empty or unreadable, or the
      polls are used up. */
  method Watch(env: StopEnv, observed: nat, count: int, polls: int) returns (seen: nat, last: int)
    requires WatchedUntil(env.counts, observed) && count == env.counts(observed - 1)
    ensures WatchedUntil(env.counts, seen) && last == env.counts(seen - 1)
    ensures observed <= seen <= observed + (if polls > 0 then polls else 0)
    ensures last > 0 ==> seen == observed + (if polls > 0 then polls else 0)
  {
    seen, last := observed, count;
    var poll := 0;
    while last > 0 && poll < polls
      invariant 0 <= poll && (polls > 0 ==> poll <= polls) && (polls <= 0 ==> poll == 0)
      invariant seen == observed + poll && WatchedUntil(env.counts, seen) && last == env.counts(seen - 1)
      decreases polls - poll
    {
      last := env.counts(seen);
      seen, poll := seen + 1, poll + 1;
    }
  }

  /** No action of the stop is refused. */
  predicate Smooth(env: StopEnv)
  {
    env.readOk && env.refreshOk && env.termOk && env.killOk && env.rereadOk && env.writeOk
  }

  /** A record of a container that is RUNNING and that a refresh keeps so. */
  predicate AliveRecord(info: Option<Info>, lookup: Lookup)
  {
    info.Some? && info.value.status == "RUNNING" && RefreshVerdict(info.value, lookup) == Keep
  }

  /** docker_stop for one container.

      STOPPED is written only after the process list was seen empty, at the first such observation, within
      time * 10 + 20 polls after the first look; the record is otherwise the one that was there. If nothing is refused,
      it is written whenever the list is seen empty in that time. */
  method DockerStop(h: Host, name: string, time: int, env: StopEnv) returns (ok: bool, stopped: bool, observed: nat)
    modifies h`metadata
    ensures observed <= MaxObservations(time) == (if time > 0 then time * 10 else 0) + 21
    ensures var info := Current(old(h.metadata), name);
      if stopped then
        ok && WatchedUntil(env.counts, observed) && env.counts(observed - 1) == 0 && AliveRecord(info, env.lookup) &&
        h.metadata == Some(PrintInfo(WithStatus(info.value, "STOPPED")))
      else
        h.metadata == old(h.metadata) ||
        (info.Some? && RefreshVerdict(info.value, env.lookup) == MarkExited &&
         h.metadata == Some(PrintInfo(WithStatus(info.value, "EXITED"))))
    ensures ok && !stopped ==>
      Current(old(h.metadata), name).Some? && !AliveRecord(Current(old(h.metadata), name), env.lookup)
    ensures var info := Current(old(h.metadata), name);
      AliveRecord(info, env.lookup) && Sound(info.value) && info.value.name == name && Smooth(env) ==>
        (stopped <==>
          exists n: nat :: 0 < n <= MaxObservations(time) && WatchedUntil(env.counts, n) && env.counts(n - 1) == 0)
  {
    hide PrintInfo, ReadInfo, Sound;
    ok, stopped, observed := false, false, 0;
    var info := ReadInfo(h.metadata, name, env.readOk);
    ReadIsCurrent(h.metadata, name, env.readOk);
    if info == None {
      return;
    }
    var failed, after := Refresh(h, name, info.value, env.lookup, env.refreshOk);
    if failed {
      return;
    }
    if after.status != "RUNNING" {
      return true, false, 0;
    }
    if !env.termOk {
      return;
    }
    var count := env.counts(0);
    observed, count := Watch(env, 1, count, time * STOP_POLLS_PER_SECOND);
    if count > 0 {
      if !env.killOk {
        return;
      }
      observed, count := Watch(env, observed, count, KILL_POLLS);
    }
    FirstEmpty(env.counts, observed, MaxObservations(time));
    if count != 0 {
      return;
    }
    assert h.metadata == old(h.metadata);
    ReadIsCurrent(h.metadata, name, env.rereadOk);
    ok := UpdateStatus(h, name, "STOPPED", env.rereadOk, env.writeOk);
    stopped := ok;
  }

  lemma {:induction false} ReadIsCurrent(file: Option<string>, name: string, readOk: bool)
    ensures ReadInfo(file, name, readOk) == if readOk then Current(file, name) else None
  {
    hide ParseInfo, ValidName;
  }

  lemma {:induction false} EarlierIsLive(counts: nat -> int, n: nat, later: nat)
    requires n > 0 && WatchedUntil(counts, later)
    ensures n < later ==> counts(n - 1) > 0
  {
  }

  /** The watch ends at the first observation that is not positive, so whether it ends on an empty list does not depend
      on how long it might have gone on. */
  lemma {:induction false} FirstEmpty(counts: nat -> int, observed: nat, most: nat)
    requires WatchedUntil(counts, observed) && observed <= most
    requires counts(observed - 1) > 0 ==> observed == most
    ensures counts(observed - 1) == 0 <==>
      exists n: nat :: 0 < n <= most && WatchedUntil(counts, n) && counts(n - 1) == 0
  {
    if n: nat :| 0 < n <= most && WatchedUntil(counts, n) && counts(n - 1) == 0 {
      EarlierIsLive(counts, n, observed);
      EarlierIsLive(counts, observed, n);
    }
  }
}
