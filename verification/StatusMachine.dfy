/** One container's metadata under any number of commands at once. The file is replaced by rename without any lock, so a
    reader sees a whole file, but what it writes back may be old (docker/status_info.c, docker/container.c). */
module StatusMachine {
  import opened Text
  import opened Names
  import opened StatusCodec
  import MetadataRoundTrip
  import opened StatusInfo
  import opened StatusCommands

  type Pid = nat

  /** Who works on the file: ps and inspect, stop, rm, and the foreground run at the end of its container. */
  datatype Kind = Refresher | Stopper(time: int) | Remover | Exiter

  /** Why a status was written. */
  datatype Reason = GoneOrReused(lookup: Lookup) | SeenEmpty(time: int, seen: seq<int>) | Waited

  datatype Phase =
    | Idle
    | Begun(kind: Kind)
    | Read(kind: Kind, info: Info)
    | Signalling(time: int)
    | Watching(time: int, seen: seq<int>)
    | SawEmpty(time: int, seen: seq<int>)
    | Writing(kind: Kind, info: Info, status: string, reason: Reason)
    | Cleaning
    | Done

  /** One published rewrite. */
  datatype Entry = Entry(status: string, reason: Reason)

  datatype State = State(file: Option<string>, name: string, procs: map<Pid, Phase>, log: seq<Entry>)
  {
    function At(p: Pid): Phase
    {
      if p in procs then procs[p] else Idle
    }

    function Move(p: Pid, phase: Phase): State
    {
      this.(procs := procs[p := phase])
    }
  }

  datatype Action =
    | Begin(pid: Pid, kind: Kind)
    | ReadFile(pid: Pid)
    | Look(pid: Pid, lookup: Lookup)
    | Signal(pid: Pid)
    | Observe(pid: Pid, count: int)
    | Write(pid: Pid)
    | Unlink(pid: Pid)
    | Stop(pid: Pid)

  /** After reading: an exiting run writes at once, everybody else checks the process first. */
  function AfterRead(kind: Kind, info: Info): Phase
  {
    if kind.Exiter? then Writing(kind, info, "EXITED", Waited) else Read(kind, info)
  }

  /** Going on with a record that the refresh has kept. */
  function AfterKeep(kind: Kind, info: Info): Phase
  {
    match kind
    case Stopper(time) => if info.status == "RUNNING" then Signalling(time) else Done
    case Remover => if info.status == "RUNNING" then Done else Cleaning
    case _ => Done
  }

  function AfterLook(kind: Kind, info: Info, lookup: Lookup): Phase
  {
    match RefreshVerdict(info, lookup)
    case Keep => AfterKeep(kind, info)
    case CannotTell => Done
    case MarkExited => Writing(kind, info, "EXITED", GoneOrReused(lookup))
  }

  /** One more observation of the process list: on to the rewrite when it is empty, given up when it is unreadable or the
      polls are used up. */
  function AfterObservation(time: int, seen: seq<int>): Phase
    requires seen != []
  {
    var last := seen[|seen| - 1];
    if last == 0 then SawEmpty(time, seen)
    else if last < 0 || |seen| >= MaxObservations(time) then Done
    else Watching(time, seen)
  }

  /** A rename, after which stop and refresh are finished and rm goes on. */
  function Publish(s: State, p: Pid, w: Phase): State
    requires w.Writing?
  {
    s.(file := Some(PrintInfo(WithStatus(w.info, w.status))), log := s.log + [Entry(w.status, w.reason)])
     .Move(p, if w.kind.Remover? then Cleaning else Done)
  }

  /** One step of one command. Stop stands for a failed call as well as for the death of the process; an action that is
      not possible now changes nothing. */
  function Next(s: State, a: Action): State
  {
    var phase := s.At(a.pid);
    match a
    case Begin(p, kind) => if phase.Idle? then s.Move(p, Begun(kind)) else s
    case ReadFile(p) =>
      var info := ReadInfo(s.file, s.name, true);
      (match phase
       case Begun(kind) => s.Move(p, if info == None then Done else AfterRead(kind, info.value))
       case SawEmpty(time, seen) =>
         s.Move(p, if info == None then Done else Writing(Stopper(time), info.value, "STOPPED", SeenEmpty(time, seen)))
       case _ => s)
    case Look(p, lookup) => if phase.Read? then s.Move(p, AfterLook(phase.kind, phase.info, lookup)) else s
    case Signal(p) => if phase.Signalling? then s.Move(p, Watching(phase.time, [])) else s
    case Observe(p, count) =>
      if phase.Watching? then s.Move(p, AfterObservation(phase.time, phase.seen + [count])) else s
    case Write(p) => if phase.Writing? then Publish(s, p, phase) else s
    case Unlink(p) => if phase.Cleaning? then s.(file := None).Move(p, Done) else s
    case Stop(p) => if phase.Idle? then s else s.Move(p, Done)
  }

  function Run(s: State, schedule: seq<Action>): State
  {
    if schedule == [] then s else Next(Run(s, schedule[..|schedule| - 1]), schedule[|schedule| - 1])
  }

  // ---------- the invariant ----------

  /** The record of the run with some status. */
  predicate VersionOf(info: Info, started: Info)
  {
    ValidStatus(info.status) && info == WithStatus(started, info.status)
  }

  ghost predicate FileOk(file: Option<string>, started: Info)
  {
    file.Some? ==> exists info :: VersionOf(info, started) && file.value == PrintInfo(info)
  }

  /** The observations of a stop: all but the last saw processes, and there were not too many. */
  predicate Watched(time: int, seen: seq<int>)
  {
    |seen| <= MaxObservations(time) && forall i :: 0 <= i < |seen| - 1 ==> seen[i] > 0
  }

  predicate EndedEmpty(time: int, seen: seq<int>)
  {
    Watched(time, seen) && seen != [] && seen[|seen| - 1] == 0
  }

  /** The evidence a status needs. */
  predicate Justified(status: string, reason: Reason, started: Info)
  {
    match reason
    case GoneOrReused(lookup) => status == "EXITED" && RefreshVerdict(started, lookup) == MarkExited
    case SeenEmpty(time, seen) => status == "STOPPED" && EndedEmpty(time, seen)
    case Waited => status == "EXITED"
  }

  predicate PhaseOk(phase: Phase, started: Info)
  {
    match phase
    case Read(_, info) => VersionOf(info, started)
    case Watching(time, seen) =>
      |seen| < MaxObservations(time) && forall i :: 0 <= i < |seen| ==> seen[i] > 0
    case SawEmpty(time, seen) => EndedEmpty(time, seen)
    case Writing(_, info, status, reason) => VersionOf(info, started) && Justified(status, reason, started)
    case _ => true
  }

  ghost predicate Inv(s: State, started: Info)
  {
    && Sound(started) && started.status == "RUNNING" && s.name == started.name
    && FileOk(s.file, started)
    && (forall p: Pid :: PhaseOk(s.At(p), started))
    && (forall i :: 0 <= i < |s.log| ==> Justified(s.log[i].status, s.log[i].reason, started))
  }

  /** Every read of the file gives a version of the record of the run. */
  lemma {:induction false} ReadsAVersion(s: State, started: Info)
    requires Sound(started) && s.name == started.name && FileOk(s.file, started)
    ensures var info := ReadInfo(s.file, s.name, true);
      (info.Some? <==> s.file.Some?) &&
      (info.Some? ==> VersionOf(info.value, started) && s.file == Some(PrintInfo(info.value)))
  {
    hide PrintInfo, ParseInfo, Sound, ValidName;
    if s.file.Some? {
      var info :| VersionOf(info, started) && s.file.value == PrintInfo(info);
      SoundWithStatus(started, info.status);
      SoundIsReadable(info);
    }
  }

  lemma {:induction false} StepKeepsInv(s: State, a: Action, started: Info)
    requires Inv(s, started)
    ensures Inv(Next(s, a), started)
  {
    hide PrintInfo, ReadInfo, Sound, Justified, VersionOf, EndedEmpty, AfterLook, AfterObservation, AfterRead;
    assert PhaseOk(s.At(a.pid), started);
    ReadsAVersion(s, started);
    var phase := s.At(a.pid);
    forall q: Pid | q != a.pid ensures PhaseOk(Next(s, a).At(q), started) { assert PhaseOk(s.At(q), started); }
    match a
    case ReadFile(p) =>
      ReadKeeps(s, p, started);
    case Look(p, lookup) =>
      if phase.Read? {
        LookKeeps(phase.kind, phase.info, lookup, started);
      }
    case Observe(p, count) =>
      if phase.Watching? {
        ObservationKeeps(phase.time, phase.seen, count, started);
      }
    case Write(p) =>
      if phase.Writing? {
        WriteKeeps(phase, started);
      }
    case _ =>
  }

  lemma {:induction false} ReadKeeps(s: State, p: Pid, started: Info)
    requires PhaseOk(s.At(p), started)
    requires var info := ReadInfo(s.file, s.name, true); info.Some? ==> VersionOf(info.value, started)
    ensures PhaseOk(Next(s, ReadFile(p)).At(p), started)
  {
    hide ReadInfo, PrintInfo, VersionOf, EndedEmpty;
  }

  lemma {:induction false} LookKeeps(kind: Kind, info: Info, lookup: Lookup, started: Info)
    requires VersionOf(info, started) && started.status == "RUNNING"
    ensures PhaseOk(AfterLook(kind, info, lookup), started)
  {
    if RefreshVerdict(info, lookup) == MarkExited {
      assert info == started;
    }
  }

  lemma {:induction false} ObservationKeeps(time: int, seen: seq<int>, count: int, started: Info)
    requires PhaseOk(Watching(time, seen), started)
    ensures PhaseOk(AfterObservation(time, seen + [count]), started)
  {
  }

  lemma {:induction false} WriteKeeps(phase: Phase, started: Info)
    requires phase.Writing? && PhaseOk(phase, started)
    ensures FileOk(Some(PrintInfo(WithStatus(phase.info, phase.status))), started)
    ensures Justified(phase.status, phase.reason, started)
  {
    hide PrintInfo;
    assert VersionOf(WithStatus(phase.info, phase.status), started);
  }

  lemma {:induction false} RunKeepsInv(s: State, schedule: seq<Action>, started: Info)
    requires Inv(s, started)
    ensures Inv(Run(s, schedule), started)
  {
    hide Inv, Next;
    if schedule != [] {
      RunKeepsInv(s, schedule[..|schedule| - 1], started);
      StepKeepsInv(Run(s, schedule[..|schedule| - 1]), schedule[|schedule| - 1], started);
    }
  }

  // ---------- the theorems ----------

  /** A completed run: its record is in the file, nobody is at work. */
  ghost predicate Beginning(s: State, started: Info)
  {
    Sound(started) && started.status == "RUNNING" && s.name == started.name &&
    s.file == Some(PrintInfo(started)) && s.log == [] && s.procs == map[]
  }

  /** In every interleaving the file, while it exists, is readable and differs from the record of the run in the status at
      most; STOPPED was published only by a stop whose last observation, within time * 10 + 20 polls of the first, saw no
      process while all earlier ones did; EXITED only by a refresh that found the process gone or reused, or by the run that
      had waited for it. */
  lemma {:induction false} EveryInterleavingIsHonest(s0: State, schedule: seq<Action>, started: Info)
    requires Beginning(s0, started)
    ensures var s := Run(s0, schedule);
      (s.file.Some? ==> ReadInfo(s.file, s.name, true).Some? && VersionOf(ReadInfo(s.file, s.name, true).value, started)) &&
      (forall i :: 0 <= i < |s.log| ==> Justified(s.log[i].status, s.log[i].reason, started))
  {
    hide Run, Next, PrintInfo, ReadInfo, Sound;
    assert VersionOf(started, started);
    assert Inv(s0, started);
    RunKeepsInv(s0, schedule, started);
    ReadsAVersion(Run(s0, schedule), started);
  }

  /** What a reader is told. */
  predicate ReadsRunning(s: State)
  {
    var info := ReadInfo(s.file, s.name, true);
    info.Some? && info.value.status == "RUNNING"
  }

  lemma {:induction false} StepIsMonotone(s: State, a: Action, started: Info)
    requires Inv(s, started) && !ReadsRunning(s)
    ensures !ReadsRunning(Next(s, a))
  {
    hide PrintInfo, ReadInfo, Sound;
    var phase, t := s.At(a.pid), Next(s, a);
    assert PhaseOk(phase, started);
    if a.Write? && phase.Writing? {
      var info := WithStatus(phase.info, phase.status);
      SoundWithStatus(started, phase.status);
      assert info == WithStatus(started, phase.status);
      SoundIsReadable(info);
      assert info.status != "RUNNING" by { assert "STOPPED"[0] == 'S' && "EXITED"[0] == 'E' && "RUNNING"[0] == 'R'; }
    } else if a.Unlink? && phase.Cleaning? {
      NoFile(s.name);
    } else {
      assert t.file == s.file;
    }
  }

  lemma {:induction false} StaysNotRunning(s: State, schedule: seq<Action>, started: Info)
    requires Inv(s, started) && !ReadsRunning(s)
    ensures !ReadsRunning(Run(s, schedule))
  {
    hide Inv, Next, ReadsRunning;
    if schedule != [] {
      StaysNotRunning(s, schedule[..|schedule| - 1], started);
      RunKeepsInv(s, schedule[..|schedule| - 1], started);
      StepIsMonotone(Run(s, schedule[..|schedule| - 1]), schedule[|schedule| - 1], started);
    }
  }

  /** Once the file does not say RUNNING, it never does again, however old the copies are that the commands write back. */
  lemma {:induction false} NeverRunningAgain(s0: State, first: seq<Action>, rest: seq<Action>, started: Info)
    requires Beginning(s0, started) && !ReadsRunning(Run(s0, first))
    ensures !ReadsRunning(Run(Run(s0, first), rest))
  {
    hide Run, Next, PrintInfo, ReadsRunning, Sound;
    assert VersionOf(started, started);
    assert Inv(s0, started);
    RunKeepsInv(s0, first, started);
    StaysNotRunning(Run(s0, first), rest, started);
  }

  // ---------- writing back after a removal ----------

  /** A command that can still write although it will not read the file again. */
  predicate HoldsACopy(phase: Phase)
  {
    phase.Writing? || (phase.Read? && RefreshVerdict(phase.info, NotFound) == MarkExited)
  }

  ghost predicate SomebodyHoldsACopy(s: State)
  {
    exists p: Pid :: HoldsACopy(s.At(p))
  }

  lemma {:induction false} NoCopyStep(s: State, a: Action)
    requires s.file == None && !SomebodyHoldsACopy(s)
    ensures Next(s, a).file == None && !SomebodyHoldsACopy(Next(s, a))
  {
    hide ReadInfo, PrintInfo, MaxObservations;
    NoFile(s.name);
    var t := Next(s, a);
    forall p: Pid ensures !HoldsACopy(t.At(p)) {
      assert !HoldsACopy(s.At(p));
      if p == a.pid && a.Look? && s.At(p).Read? && RefreshVerdict(s.At(p).info, a.lookup) == MarkExited {
        NoMarkWithoutNotFound(s.At(p).info, a.lookup);
      }
    }
  }

  lemma {:induction false} NoMarkWithoutNotFound(info: Info, lookup: Lookup)
    requires RefreshVerdict(info, lookup) == MarkExited
    ensures RefreshVerdict(info, NotFound) == MarkExited
  {
  }

  lemma {:induction false} NoCopyRun(s: State, schedule: seq<Action>)
    requires s.file == None && !SomebodyHoldsACopy(s)
    ensures Run(s, schedule).file == None && !SomebodyHoldsACopy(Run(s, schedule))
  {
    hide Next, SomebodyHoldsACopy;
    if schedule != [] {
      NoCopyRun(s, schedule[..|schedule| - 1]);
      NoCopyStep(Run(s, schedule[..|schedule| - 1]), schedule[|schedule| - 1]);
    }
  }

  /** Removed metadata stays removed in every continuation exactly when no other command still holds a copy to write back
      at that moment; otherwise its rename recreates the file of a container of which nothing is left. */
  lemma {:induction false} RemovedForGoodIff(s: State)
    requires s.file == None
    ensures (forall schedule: seq<Action> :: Run(s, schedule).file == None) <==> !SomebodyHoldsACopy(s)
  {
    hide Next;
    if SomebodyHoldsACopy(s) {
      var p: Pid :| HoldsACopy(s.At(p));
      var schedule := WriteBack(s, p);
    } else {
      forall schedule: seq<Action> ensures Run(s, schedule).file == None {
        NoCopyRun(s, schedule);
      }
    }
  }

  lemma {:induction false} WriteBack(s: State, p: Pid) returns (schedule: seq<Action>)
    requires HoldsACopy(s.At(p))
    ensures Run(s, schedule).file.Some?
  {
    hide ReadInfo, PrintInfo;
    var none: seq<Action> := [];
    if s.At(p).Writing? {
      schedule := [Write(p)];
      assert schedule[..0] == none && Run(s, none) == s;
    } else {
      schedule := [Look(p, NotFound), Write(p)];
      var one := [Look(p, NotFound)];
      assert schedule[..1] == one && one[..0] == none && Run(s, none) == s;
      assert Run(s, one) == Next(s, Look(p, NotFound));
      assert Run(s, one).At(p).Writing?;
      assert Run(s, schedule) == Next(Run(s, one), Write(p));
    }
  }

  lemma {:induction false} RunSnoc(s: State, schedule: seq<Action>, a: Action)
    ensures Run(s, schedule + [a]) == Next(Run(s, schedule), a)
  {
    hide Next;
    assert (schedule + [a])[..|schedule|] == schedule;
  }

  /** That happens: one command has read the file and not looked at the process yet when an rm reads it, finds the process
      gone, and goes through to the end. */
  lemma {:induction false} CopyHeldAtRemoval(s0: State, started: Info) returns (schedule: seq<Action>)
    requires Beginning(s0, started)
    ensures Run(s0, schedule).file == None && SomebodyHoldsACopy(Run(s0, schedule))
  {
    hide PrintInfo, ReadInfo, Sound, Run, MaxObservations;
    StartedIsRead(s0, started);
    var none: seq<Action> := [];
    var s1 := Next(s0, Begin(0, Refresher));
    var s2 := Next(s1, ReadFile(0));
    var s3 := Next(s2, Begin(1, Remover));
    var s4 := Next(s3, ReadFile(1));
    var s5 := Next(s4, Look(1, NotFound));
    var s6 := Next(s5, Write(1));
    var s7 := Next(s6, Unlink(1));
    assert s2.At(0) == Read(Refresher, started) && s4.At(1) == Read(Remover, started);
    assert s5.At(1).Writing? && s6.At(1) == Cleaning;
    assert s7.file == None && s7.At(0) == Read(Refresher, started) && HoldsACopy(s7.At(0));
    schedule := [Begin(0, Refresher), ReadFile(0), Begin(1, Remover), ReadFile(1), Look(1, NotFound), Write(1), Unlink(1)];
    RunSeven(s0, schedule);
  }

  lemma {:induction false} StartedIsRead(s0: State, started: Info)
    requires Beginning(s0, started)
    ensures ReadInfo(s0.file, s0.name, true) == Some(started) && started.pid > 0
  {
    hide PrintInfo, ReadInfo, ValidName, MetadataRoundTrip.CRecord, MetadataRoundTrip.Faithful;
    SoundIsReadable(started);
  }

  lemma {:induction false} RunSeven(s: State, a: seq<Action>)
    requires |a| == 7
    ensures Run(s, a) == Next(Next(Next(Next(Next(Next(Next(s, a[0]), a[1]), a[2]), a[3]), a[4]), a[5]), a[6])
  {
    hide Next;
    var none: seq<Action> := [];
    RunSnoc(s, none, a[0]);
    RunSnoc(s, [a[0]], a[1]);
    RunSnoc(s, [a[0], a[1]], a[2]);
    RunSnoc(s, [a[0], a[1], a[2]], a[3]);
    RunSnoc(s, [a[0], a[1], a[2], a[3]], a[4]);
    RunSnoc(s, [a[0], a[1], a[2], a[3], a[4]], a[5]);
    RunSnoc(s, [a[0], a[1], a[2], a[3], a[4], a[5]], a[6]);
    assert none + [a[0]] == [a[0]] && [a[0]] + [a[1]] == [a[0], a[1]] && [a[0], a[1]] + [a[2]] == [a[0], a[1], a[2]];
    assert [a[0], a[1], a[2]] + [a[3]] == [a[0], a[1], a[2], a[3]];
    assert [a[0], a[1], a[2], a[3]] + [a[4]] == [a[0], a[1], a[2], a[3], a[4]];
    assert [a[0], a[1], a[2], a[3], a[4]] + [a[5]] == [a[0], a[1], a[2], a[3], a[4], a[5]];
    assert [a[0], a[1], a[2], a[3], a[4], a[5]] + [a[6]] == a;
  }

  /** A stop alone that finds the process of the run and then sees no process any more makes every reader see STOPPED; all else
      in the record is as the run wrote it. */
  lemma {:induction false} StopAlonePublishes(s0: State, started: Info, time: int) returns (schedule: seq<Action>)
    requires Beginning(s0, started)
    ensures ReadInfo(Run(s0, schedule).file, s0.name, true) == Some(started.(status := "STOPPED"))
    ensures Run(s0, schedule).log == [Entry("STOPPED", SeenEmpty(time, [0]))]
  {
    hide PrintInfo, ReadInfo, Sound, Run, MaxObservations;
    StartedIsRead(s0, started);
    var found := Found(started.pidStartTime);
    var s1 := Next(s0, Begin(0, Stopper(time)));
    var s2 := Next(s1, ReadFile(0));
    var s3 := Next(s2, Look(0, found));
    var s4 := Next(s3, Signal(0));
    var s5 := Next(s4, Observe(0, 0));
    var s6 := Next(s5, ReadFile(0));
    var s7 := Next(s6, Write(0));
    assert s2.At(0) == Read(Stopper(time), started) && s3.At(0) == Signalling(time) && s4.At(0) == Watching(time, []);
    assert [] + [0] == [0];
    assert s5.At(0) == SawEmpty(time, [0]);
    assert s6.At(0) == Writing(Stopper(time), started, "STOPPED", SeenEmpty(time, [0]));
    SoundWithStatus(started, "STOPPED");
    SoundIsReadable(WithStatus(started, "STOPPED"));
    schedule := [Begin(0, Stopper(time)), ReadFile(0), Look(0, found), Signal(0), Observe(0, 0), ReadFile(0), Write(0)];
    RunSeven(s0, schedule);
  }

  /** A foreground run alone that has waited for its container makes every reader see EXITED, and so does any command alone
      that looks for the process and does not find it. */
  lemma {:induction false} ExitAlonePublishes(s0: State, started: Info)
    returns (waited: seq<Action>, looked: seq<Action>)
    requires Beginning(s0, started)
    ensures ReadInfo(Run(s0, waited).file, s0.name, true) == Some(started.(status := "EXITED"))
    ensures ReadInfo(Run(s0, looked).file, s0.name, true) == Some(started.(status := "EXITED"))
    ensures Run(s0, waited).log == [Entry("EXITED", Waited)] && Run(s0, looked).log == [Entry("EXITED", GoneOrReused(NotFound))]
  {
    hide PrintInfo, ReadInfo, Sound, MaxObservations;
    StartedIsRead(s0, started);
    SoundWithStatus(started, "EXITED");
    SoundIsReadable(WithStatus(started, "EXITED"));
    waited := WriteAlone(s0, started, Exiter, []);
    looked := WriteAlone(s0, started, Refresher, [Look(0, NotFound)]);
  }

  lemma {:induction false} WriteAlone(s0: State, started: Info, kind: Kind, look: seq<Action>) returns (schedule: seq<Action>)
    requires Beginning(s0, started) && ReadInfo(s0.file, s0.name, true) == Some(started) && started.pid > 0
    requires if kind.Exiter? then look == [] else kind.Refresher? && look == [Look(0, NotFound)]
    ensures var reason := if kind.Exiter? then Waited else GoneOrReused(NotFound);
      var t := Run(s0, schedule);
      t.file == Some(PrintInfo(WithStatus(started, "EXITED"))) && t.log == [Entry("EXITED", reason)]
  {
    hide PrintInfo, ReadInfo, Sound, MaxObservations;
    var none: seq<Action> := [];
    RunSnoc(s0, none, Begin(0, kind));
    var begun := none + [Begin(0, kind)];
    RunSnoc(s0, begun, ReadFile(0));
    var read := begun + [ReadFile(0)];
    schedule := read;
    if !kind.Exiter? {
      RunSnoc(s0, read, Look(0, NotFound));
      schedule := read + [Look(0, NotFound)];
    }
    RunSnoc(s0, schedule, Write(0));
    schedule := schedule + [Write(0)];
  }

  // ---------- a container that lives ----------

  /** What an action can find out while the process of the run lives: who looks for it finds it or finds out nothing, the
      process list is never seen empty, and the foreground run still waits. */
  predicate WhileAlive(a: Action, started: Info)
  {
    match a
    case Look(_, lookup) => lookup == Found(started.pidStartTime) || lookup == LookupFailed
    case Observe(_, count) => count != 0
    case Begin(_, kind) => !kind.Exiter?
    case _ => true
  }

  predicate CalmPhase(phase: Phase, started: Info)
  {
    !phase.Writing? && !phase.SawEmpty? && !phase.Cleaning? && (phase.Read? ==> phase.info == started) &&
    (phase.Begun? || phase.Read? ==> !phase.kind.Exiter?)
  }

  ghost predicate Calm(s: State, started: Info)
  {
    s.file == Some(PrintInfo(started)) && s.name == started.name && s.log == [] &&
    forall p: Pid :: CalmPhase(s.At(p), started)
  }

  lemma {:induction false} CalmStep(s: State, a: Action, started: Info)
    requires Sound(started) && started.status == "RUNNING" && Calm(s, started) && WhileAlive(a, started)
    ensures Calm(Next(s, a), started)
  {
    hide PrintInfo, ReadInfo, Sound, MaxObservations;
    assert CalmPhase(s.At(a.pid), started);
    SoundIsReadable(started);
    forall p: Pid | p != a.pid ensures CalmPhase(Next(s, a).At(p), started) { assert CalmPhase(s.At(p), started); }
  }

  /** While the process of the run lives, no number of refreshes, stops and removals in any order changes the file or removes
      it. */
  lemma {:induction false} LivingIsLeftAlone(s0: State, schedule: seq<Action>, started: Info)
    requires Beginning(s0, started) && forall i :: 0 <= i < |schedule| ==> WhileAlive(schedule[i], started)
    ensures Calm(Run(s0, schedule), started) && Run(s0, schedule).file == s0.file
  {
    hide PrintInfo, Sound, Next, WhileAlive;
    if schedule != [] {
      LivingIsLeftAlone(s0, schedule[..|schedule| - 1], started);
      CalmStep(Run(s0, schedule[..|schedule| - 1]), schedule[|schedule| - 1], started);
    }
  }
}
