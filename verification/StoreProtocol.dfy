/** Any number of commands working on the network state file at once, interleaved step by step, with
    failures and crashes anywhere and readers that take no lock.

    A published file is an inode: `rename` moves a name from one inode to another, a reader that has opened
    the file keeps its inode, and a temporary file is an inode no published name points to.
  */
module StoreProtocol {
  import opened Text
  import opened NetworkState
  import opened NetworkFile
  import opened NetworkTable
  import NetworkStore

  type Pid = nat
  type Inode = nat
  type Path = nat

  /** Where a command is in docker/network.c. `since` counts the updates published when a reader opened the file. */
  datatype Phase =
    | Idle
    | WantLock(op: Op)
    | Locked(op: Op)
    | Opened(op: Op, source: Option<Inode>)
    | Loaded(op: Op, records: seq<Record>)
    | Writing(op: Op, next: Outcome, path: Path, inode: Inode)
    | Synced(op: Op, next: Outcome, path: Path, inode: Inode)
    | Renamed(op: Op, next: Outcome)
    | Succeeded(op: Op, address: nat)
    | Failed(op: Op)
    | Reading(source: Option<Inode>, since: nat)
    | ReadDone(result: Option<seq<Record>>, since: nat)
    | Crashed

  /** One published update: who made it, what it was, the address it handed out. */
  datatype Entry = Entry(pid: Pid, op: Op, address: nat)

  datatype State = State(
    visible: Option<Inode>,
    data: map<Inode, string>,
    temps: map<Path, Inode>,
    lock: Option<Pid>,
    procs: map<Pid, Phase>,
    commits: seq<Entry>)
  {
    function At(p: Pid): Phase
    {
      if p in procs then procs[p] else Idle
    }

    function Move(p: Pid, phase: Phase): State
    {
      this.(procs := procs[p := phase])
    }

    /** Closing the lock file, on return or by dying, releases the lock. */
    function Unlock(p: Pid): State
    {
      if lock == Some(p) then this.(lock := None) else this
    }
  }

  datatype Action =
    | Start(pid: Pid, op: Op)
    | StartRead(pid: Pid)
    | Acquire(pid: Pid)
    | Open(pid: Pid)
    | Load(pid: Pid)
    | Prepare(pid: Pid, path: Path, inode: Inode)
    | Append(pid: Pid, count: nat)
    | Sync(pid: Pid)
    | Rename(pid: Pid)
    | Finish(pid: Pid)
    | FinishRead(pid: Pid)
    | Fail(pid: Pid, unlinked: bool)
    | Crash(pid: Pid)

  /** What load_network_records gets from an open file; a missing file is an empty table. */
  function LoadFile(s: State, source: Option<Inode>): Option<seq<Record>>
  {
    match source
    case None => Some([])
    case Some(inode) => if inode in s.data then LoadImage(s.data[inode]) else None
  }

  predicate HoldsLock(phase: Phase)
  {
    phase.Locked? || phase.Opened? || phase.Loaded? || phase.Writing? || phase.Synced? || phase.Renamed?
  }

  /** The steps that may fail: everything of an update before its rename. */
  predicate MayFail(phase: Phase)
  {
    phase.WantLock? || phase.Locked? || phase.Opened? || phase.Loaded? || phase.Writing? || phase.Synced?
  }

  function GiveUp(s: State, p: Pid, op: Op): State
  {
    s.Unlock(p).Move(p, Failed(op))
  }

  function RemoveTemp(s: State, path: Path): State
  {
    s.(temps := s.temps - {path})
  }

  /** One step of one command; an action that is not possible now changes nothing. */
  function Next(s: State, a: Action): State
  {
    var phase := s.At(a.pid);
    match a
    case Start(p, op) => if phase.Idle? then s.Move(p, WantLock(op)) else s
    case StartRead(p) => if phase.Idle? then s.Move(p, Reading(s.visible, |s.commits|)) else s
    case Acquire(p) =>
      if phase.WantLock? && s.lock == None then s.(lock := Some(p)).Move(p, Locked(phase.op)) else s
    case Open(p) => if phase.Locked? then s.Move(p, Opened(phase.op, s.visible)) else s
    case Load(p) =>
      if !phase.Opened? then s
      else
        (match LoadFile(s, phase.source)
         case None => GiveUp(s, p, phase.op)
         case Some(records) => s.Move(p, Loaded(phase.op, records)))
    case Prepare(p, path, inode) =>
      if !phase.Loaded? then s
      else
        (match Apply(phase.op, phase.records)
         case None => GiveUp(s, p, phase.op)
         case Some(next) =>
           if path in s.temps || inode in s.data then s
           else s.(data := s.data[inode := []], temps := s.temps[path := inode])
                 .Move(p, Writing(phase.op, next, path, inode)))
    case Append(p, count) =>
      if !phase.Writing? || phase.inode !in s.data then s
      else
        var image := PrintImage(phase.next.records);
        var written := |s.data[phase.inode]| + count;
        if written > |image| then s else s.(data := s.data[phase.inode := image[..written]])
    case Sync(p) =>
      if phase.Writing? && phase.inode in s.data && |s.data[phase.inode]| == |PrintImage(phase.next.records)|
      then s.Move(p, Synced(phase.op, phase.next, phase.path, phase.inode)) else s
    case Rename(p) =>
      if !phase.Synced? then s
      else RemoveTemp(s, phase.path)
           .(visible := Some(phase.inode), commits := s.commits + [Entry(p, phase.op, phase.next.address)])
           .Move(p, Renamed(phase.op, phase.next))
    case Finish(p) =>
      if phase.Renamed? then s.Unlock(p).Move(p, Succeeded(phase.op, phase.next.address)) else s
    case FinishRead(p) =>
      if phase.Reading? then s.Move(p, ReadDone(LoadFile(s, phase.source), phase.since)) else s
    case Fail(p, unlinked) =>
      if !MayFail(phase) then s
      else
        var t := if unlinked && (phase.Writing? || phase.Synced?) then RemoveTemp(s, phase.path) else s;
        GiveUp(t, p, phase.op)
    case Crash(p) =>
      if MayFail(phase) || phase.Renamed? || phase.Reading? then s.Unlock(p).Move(p, Crashed) else s
  }

  function Run(s: State, schedule: seq<Action>): State
  {
    if schedule == [] then s else Next(Run(s, schedule[..|schedule| - 1]), schedule[|schedule| - 1])
  }

  // ---------- the invariant ----------

  function Ops(commits: seq<Entry>): (ops: seq<Op>)
    ensures |ops| == |commits|
    ensures forall i :: 0 <= i < |ops| ==> ops[i] == commits[i].op
  {
    seq(|commits|, i requires 0 <= i < |commits| => commits[i].op)
  }

  /** The committed table: every published update applied in order. */
  function Table(initial: seq<Record>, s: State): seq<Record>
  {
    Replay(initial, Ops(s.commits))
  }

  /** Each update was computed from the table as it was when the update was published. */
  predicate CommitOk(initial: seq<Record>, commits: seq<Entry>, i: nat)
    requires i < |commits|
  {
    var before := Replay(initial, Ops(commits)[..i]);
    Harmless(commits[i].op) && Apply(commits[i].op, before).Some? &&
    Apply(commits[i].op, before).value.address == commits[i].address
  }

  predicate CommitsOk(initial: seq<Record>, s: State)
  {
    (forall i :: 0 <= i < |s.commits| ==> CommitOk(initial, s.commits, i)) &&
    (forall i, j :: 0 <= i < j < |s.commits| ==> s.commits[i].pid != s.commits[j].pid)
  }

  predicate VisibleOk(initial: seq<Record>, s: State)
  {
    LoadFile(s, s.visible) == Some(Table(initial, s))
  }

  ghost predicate LockOk(s: State)
  {
    forall p: Pid :: HoldsLock(s.At(p)) <==> s.lock == Some(p)
  }

  /** A command in one of these places has published nothing. */
  predicate Unpublished(phase: Phase)
  {
    MayFail(phase) || phase.Idle? || phase.Failed? || phase.Reading? || phase.ReadDone?
  }

  predicate Published(s: State, p: Pid)
  {
    exists i :: 0 <= i < |s.commits| && s.commits[i].pid == p
  }

  /** The next content is the update applied to the committed table, and only a prefix of it is written yet. */
  ghost predicate DraftOk(initial: seq<Record>, s: State, op: Op, next: Outcome, inode: Inode)
  {
    Apply(op, Table(initial, s)) == Some(next) && inode in s.data &&
    s.data[inode] <= PrintImage(next.records) && s.visible != Some(inode) &&
    (forall q: Pid :: s.At(q).Reading? ==> s.At(q).source != Some(inode))
  }

  ghost predicate PhaseOk(initial: seq<Record>, s: State, p: Pid)
  {
    var phase := s.At(p);
    (MayFail(phase) ==> Harmless(phase.op)) &&
    (Unpublished(phase) ==> !Published(s, p)) &&
    match phase
    case Opened(op, source) => source == s.visible
    case Loaded(op, records) => records == Table(initial, s)
    case Writing(op, next, path, inode) => DraftOk(initial, s, op, next, inode)
    case Synced(op, next, path, inode) =>
      DraftOk(initial, s, op, next, inode) && s.data[inode] == PrintImage(next.records)
    case Renamed(op, next) => Entry(p, op, next.address) in s.commits
    case Succeeded(op, address) => Entry(p, op, address) in s.commits
    case Reading(source, since) =>
      since <= |s.commits| && LoadFile(s, source) == Some(Replay(initial, Ops(s.commits)[..since]))
    case ReadDone(result, since) =>
      since <= |s.commits| && result == Some(Replay(initial, Ops(s.commits)[..since]))
    case _ => true
  }

  ghost predicate Inv(initial: seq<Record>, s: State)
  {
    Storable(initial) && CommitsOk(initial, s) && VisibleOk(initial, s) && LockOk(s) &&
    (forall p: Pid :: PhaseOk(initial, s, p))
  }

  // ---------- one step keeps the invariant ----------

  predicate HarmlessAction(a: Action)
  {
    a.Start? ==> Harmless(a.op)
  }

  lemma {:induction false} OpsPrefix(commits: seq<Entry>, e: Entry, k: nat)
    requires k <= |commits|
    ensures Ops(commits + [e])[..k] == Ops(commits)[..k]
    ensures Ops(commits + [e]) == Ops(commits) + [e.op]
  {
  }

  lemma {:induction false} TableIsStorable(initial: seq<Record>, s: State)
    requires Storable(initial) && CommitsOk(initial, s)
    ensures AllHarmless(Ops(s.commits))
    ensures Storable(Table(initial, s))
  {
    forall i | 0 <= i < |s.commits| ensures Harmless(Ops(s.commits)[i]) {
      assert CommitOk(initial, s.commits, i);
    }
    ReplayIsStorable(initial, Ops(s.commits));
  }

  /** Steps that publish nothing: the file, its readers and the other commands see no difference. */
  lemma {:induction false} QuietStep(initial: seq<Record>, s: State, t: State, p: Pid)
    requires Inv(initial, s) && t.commits == s.commits && t.visible == s.visible
    requires forall q: Pid :: q != p ==> t.At(q) == s.At(q)
    requires forall i :: i in s.data && !WrittenBy(s, p, i) ==> i in t.data && t.data[i] == s.data[i]
    requires LockOk(t) && PhaseOk(initial, t, p)
    requires t.At(p).Reading? ==> t.At(p).source == s.visible || t.At(p) == s.At(p)
    requires HoldsLock(t.At(p)) ==> HoldsLock(s.At(p)) || s.lock == None
    ensures Inv(initial, t)
  {
    hide LoadImage, PrintImage, Apply, Replay, Storable;
    assert PhaseOk(initial, s, p);
    assert VisibleOk(initial, t);
    forall q: Pid ensures PhaseOk(initial, t, q) {
      if q != p {
        assert PhaseOk(initial, s, q);
        assert Published(t, q) == Published(s, q);
        OnlyOneWriter(s, p, q);
      }
    }
  }

  /** The inode that p is writing. */
  predicate WrittenBy(s: State, p: Pid, inode: Inode)
  {
    (s.At(p).Writing? || s.At(p).Synced?) && s.At(p).inode == inode
  }

  lemma {:induction false} OnlyOneWriter(s: State, p: Pid, q: Pid)
    requires LockOk(s) && p != q
    ensures !(HoldsLock(s.At(p)) && HoldsLock(s.At(q)))
  {
  }

  lemma {:induction false} SourceIsThere(s: State, source: Option<Inode>)
    requires LoadFile(s, source).Some?
    ensures source.Some? ==> source.value in s.data
  {
  }

  lemma {:induction false} PrepareKeepsInv(initial: seq<Record>, s: State, p: Pid, path: Path, inode: Inode)
    requires Inv(initial, s)
    ensures Inv(initial, Next(s, Prepare(p, path, inode)))
  {
    hide LoadImage, PrintImage, Apply, Replay, Storable;
    var t := Next(s, Prepare(p, path, inode));
    assert PhaseOk(initial, s, p);
    if t.At(p).Writing? && !s.At(p).Writing? {
      SourceIsThere(s, s.visible);
      forall q: Pid | t.At(q).Reading? ensures t.At(q).source != Some(inode) {
        assert PhaseOk(initial, s, q);
        SourceIsThere(s, s.At(q).source);
      }
    }
    assert Published(t, p) == Published(s, p);
    QuietStep(initial, s, t, p);
  }

  lemma {:induction false} RenameKeepsInv(initial: seq<Record>, s: State, p: Pid)
    requires Inv(initial, s)
    ensures Inv(initial, Next(s, Rename(p)))
  {
    hide LoadImage, PrintImage, Apply, Replay, Storable;
    var t, phase := Next(s, Rename(p)), s.At(p);
    assert PhaseOk(initial, s, p);
    if phase.Synced? {
      var e := Entry(p, phase.op, phase.next.address);
      OpsPrefix(s.commits, e, |s.commits|);
      ReplaySnoc(initial, Ops(s.commits), phase.op);
      TableIsStorable(initial, s);
      NetworkStore.PublishedIsReadable(phase.op, Table(initial, s));
      assert VisibleOk(initial, t);
      assert Ops(s.commits)[..|s.commits|] == Ops(s.commits);
      forall i | 0 <= i < |t.commits| ensures CommitOk(initial, t.commits, i) {
        if i < |s.commits| {
          assert CommitOk(initial, s.commits, i);
          OpsPrefix(s.commits, e, i);
        }
      }
      assert t.commits[|s.commits|] == e;
      forall q: Pid ensures PhaseOk(initial, t, q) {
        if q != p {
          RenameSeenByOthers(initial, s, p, q);
        }
      }
    }
  }

  lemma {:induction false} RenameSeenByOthers(initial: seq<Record>, s: State, p: Pid, q: Pid)
    requires Inv(initial, s) && s.At(p).Synced? && p != q
    ensures PhaseOk(initial, Next(s, Rename(p)), q)
  {
    hide LoadImage, PrintImage, Apply, Replay, Storable, CommitsOk;
    var t, e := Next(s, Rename(p)), Entry(p, s.At(p).op, s.At(p).next.address);
    assert PhaseOk(initial, s, q);
    OnlyOneWriter(s, p, q);
    SamePublished(s, t, q, e);
    if s.At(q).Reading? || s.At(q).ReadDone? {
      OpsPrefix(s.commits, e, s.At(q).since);
    }
  }

  lemma {:induction false} SamePublished(s: State, t: State, q: Pid, e: Entry)
    requires t.commits == s.commits + [e] && e.pid != q
    ensures Published(t, q) == Published(s, q)
  {
    if Published(s, q) {
      var i :| 0 <= i < |s.commits| && s.commits[i].pid == q;
      assert t.commits[i].pid == q;
    }
  }

  lemma {:induction false} StepKeepsInv(initial: seq<Record>, s: State, a: Action)
    requires Inv(initial, s) && HarmlessAction(a)
    ensures Inv(initial, Next(s, a))
  {
    match a
    case Rename(p) => RenameKeepsInv(initial, s, p);
    case Prepare(p, path, inode) => PrepareKeepsInv(initial, s, p, path, inode);
    case Append(_, _) => WritingKeepsInv(initial, s, a);
    case Sync(_) => WritingKeepsInv(initial, s, a);
    case Finish(_) => EndingKeepsInv(initial, s, a);
    case Fail(_, _) => FailingKeepsInv(initial, s, a);
    case Crash(_) => EndingKeepsInv(initial, s, a);
    case Open(_) => LoadingKeepsInv(initial, s, a);
    case Load(_) => LoadingKeepsInv(initial, s, a);
    case FinishRead(_) => LoadingKeepsInv(initial, s, a);
    case _ => StartingKeepsInv(initial, s, a);
  }

  lemma {:induction false} StartingKeepsInv(initial: seq<Record>, s: State, a: Action)
    requires Inv(initial, s) && HarmlessAction(a)
    requires a.Start? || a.StartRead? || a.Acquire?
    ensures Inv(initial, Next(s, a))
  {
    hide LoadImage, PrintImage, Apply, Replay, Storable;
    var t, p := Next(s, a), a.pid;
    assert PhaseOk(initial, s, p);
    assert Published(t, p) == Published(s, p);
    assert Ops(s.commits)[..|s.commits|] == Ops(s.commits);
    QuietStep(initial, s, t, p);
  }

  lemma {:induction false} LoadingKeepsInv(initial: seq<Record>, s: State, a: Action)
    requires Inv(initial, s) && HarmlessAction(a)
    requires a.Open? || a.Load? || a.FinishRead?
    ensures Inv(initial, Next(s, a))
  {
    hide LoadImage, PrintImage, Apply, Replay, Storable;
    var t, p := Next(s, a), a.pid;
    assert PhaseOk(initial, s, p);
    assert Published(t, p) == Published(s, p);
    assert Ops(s.commits)[..|s.commits|] == Ops(s.commits);
    QuietStep(initial, s, t, p);
  }

  lemma {:induction false} WritingKeepsInv(initial: seq<Record>, s: State, a: Action)
    requires Inv(initial, s) && HarmlessAction(a)
    requires a.Append? || a.Sync?
    ensures Inv(initial, Next(s, a))
  {
    hide LoadImage, PrintImage, Apply, Replay, Storable;
    var t, p := Next(s, a), a.pid;
    assert PhaseOk(initial, s, p);
    assert Published(t, p) == Published(s, p);
    assert Ops(s.commits)[..|s.commits|] == Ops(s.commits);
    QuietStep(initial, s, t, p);
  }

  lemma {:induction false} EndingKeepsInv(initial: seq<Record>, s: State, a: Action)
    requires Inv(initial, s) && HarmlessAction(a)
    requires a.Finish? || a.Crash?
    ensures Inv(initial, Next(s, a))
  {
    hide LoadImage, PrintImage, Apply, Replay, Storable, CommitsOk, VisibleOk, LoadFile;
    var t, p := Next(s, a), a.pid;
    assert PhaseOk(initial, s, p);
    assert Published(t, p) == Published(s, p);
    QuietStep(initial, s, t, p);
  }

  lemma {:induction false} FailingKeepsInv(initial: seq<Record>, s: State, a: Action)
    requires Inv(initial, s) && HarmlessAction(a)
    requires a.Fail?
    ensures Inv(initial, Next(s, a))
  {
    hide LoadImage, PrintImage, Apply, Replay, Storable;
    var t, p := Next(s, a), a.pid;
    assert PhaseOk(initial, s, p);
    assert Published(t, p) == Published(s, p);
    QuietStep(initial, s, t, p);
  }

  // ---------- every interleaving ----------

  /** Nobody is at work yet; the file, if any, can be read, and holds `initial`. */
  predicate Beginning(initial: seq<Record>, s: State)
  {
    s.procs == map[] && s.lock == None && s.commits == [] && LoadFile(s, s.visible) == Some(initial)
  }

  lemma {:induction false} BeginningInv(initial: seq<Record>, s: State)
    requires Beginning(initial, s)
    ensures Inv(initial, s)
  {
    hide LoadImage, Storable;
    NetworkStore.ImageIsStorable(if s.visible.Some? then Some(s.data[s.visible.value]) else None);
  }

  predicate HarmlessSchedule(schedule: seq<Action>)
  {
    forall i :: 0 <= i < |schedule| ==> HarmlessAction(schedule[i])
  }

  lemma {:induction false} RunKeepsInv(initial: seq<Record>, s: State, schedule: seq<Action>)
    requires Inv(initial, s) && HarmlessSchedule(schedule)
    ensures Inv(initial, Run(s, schedule))
  {
    hide Inv, Next;
    if schedule != [] {
      RunKeepsInv(initial, s, schedule[..|schedule| - 1]);
      StepKeepsInv(initial, Run(s, schedule[..|schedule| - 1]), schedule[|schedule| - 1]);
    }
  }

  /** Success is reported for a published update, failure for one that was not published, and a reader reports
      a committed table. */
  predicate HonestReport(initial: seq<Record>, s: State, p: Pid)
  {
    match s.At(p)
    case Succeeded(op, address) => Entry(p, op, address) in s.commits
    case Failed(op) => !Published(s, p)
    case ReadDone(result, since) =>
      since <= |s.commits| && result == Some(Replay(initial, Ops(s.commits)[..since]))
    case _ => true
  }

  /** Safety of every interleaving. The visible file is a complete image of the committed table; every
      published update was computed from the latest published table, so none is lost; a command that reports
      success has published its update exactly once, and one that reports failure never; an unlocked reader
      gets the whole table as it was when it opened the file; and only a living command keeps the lock. */
  lemma {:induction false} EveryInterleavingIsSafe(initial: seq<Record>, s0: State, schedule: seq<Action>)
    requires Beginning(initial, s0) && HarmlessSchedule(schedule)
    ensures var s := Run(s0, schedule);
      && LoadFile(s, s.visible) == Some(Table(initial, s)) && Storable(Table(initial, s))
      && (forall i :: 0 <= i < |s.commits| ==> CommitOk(initial, s.commits, i))
      && (forall i, j :: 0 <= i < j < |s.commits| ==> s.commits[i].pid != s.commits[j].pid)
      && (forall p: Pid :: HonestReport(initial, s, p))
      && (s.lock.Some? ==> HoldsLock(s.At(s.lock.value)))
  {
    hide LoadImage, PrintImage, Apply, Replay, Storable;
    BeginningInv(initial, s0);
    RunKeepsInv(initial, s0, schedule);
    var s := Run(s0, schedule);
    TableIsStorable(initial, s);
    forall p: Pid ensures HonestReport(initial, s, p) {
      assert PhaseOk(initial, s, p);
    }
  }

  lemma {:induction false} CommitsGrow(s: State, a: Action)
    ensures s.commits <= Next(s, a).commits
  {
    hide LoadFile, PrintImage, Apply;
  }

  /** A published update stays published: a step only ever appends to the history. */
  lemma {:induction false} HistoryOnlyGrows(s: State, schedule: seq<Action>)
    ensures s.commits <= Run(s, schedule).commits
  {
    hide Next;
    if schedule != [] {
      HistoryOnlyGrows(s, schedule[..|schedule| - 1]);
      CommitsGrow(Run(s, schedule[..|schedule| - 1]), schedule[|schedule| - 1]);
    }
  }

  /** In every interleaving, two commands never hold the same address of a network at the same time. */
  lemma {:induction false} LiveHoldersDiffer(initial: seq<Record>, s0: State, schedule: seq<Action>, i: nat, j: nat, name: string)
    requires Beginning(initial, s0) && HarmlessSchedule(schedule)
    requires i < j < |Run(s0, schedule).commits|
    requires Run(s0, schedule).commits[i].op == Alloc(name) == Run(s0, schedule).commits[j].op
    requires StillHeld(Ops(Run(s0, schedule).commits)[..j], i, name, Run(s0, schedule).commits[i].address)
    ensures Run(s0, schedule).commits[i].address != Run(s0, schedule).commits[j].address
  {
    hide LoadImage, PrintImage, Replay, Storable;
    EveryInterleavingIsSafe(initial, s0, schedule);
    var s := Run(s0, schedule);
    BeginningInv(initial, s0);
    RunKeepsInv(initial, s0, schedule);
    TableIsStorable(initial, s);
    assert CommitOk(initial, s.commits, i) && CommitOk(initial, s.commits, j);
    NoTwoHolders(initial, Ops(s.commits), i, j, name, s.commits[i].address, s.commits[j].address);
  }

  // ---------- a command alone ----------

  /** Only p acts, and nothing fails. */
  predicate OnlyWorks(schedule: seq<Action>, p: Pid)
  {
    forall i :: 0 <= i < |schedule| ==> schedule[i].pid == p && !schedule[i].Fail? && !schedule[i].Crash?
  }

  lemma {:induction false} Fresh(used: set<nat>) returns (n: nat)
    ensures forall k :: k in used ==> k < n
  {
    n := 0;
    if used != {} {
      var k :| k in used;
      var rest := used - {k};
      var above := Fresh(rest);
      n := if above <= k then k + 1 else above;
      assert forall j :: j in used ==> j == k || j in rest;
    }
  }

  lemma {:induction false} RunSnoc(s: State, schedule: seq<Action>, a: Action)
    ensures Run(s, schedule + [a]) == Next(Run(s, schedule), a)
  {
    assert (schedule + [a])[..|schedule|] == schedule;
  }

  /** From the start to the loaded table. */
  lemma {:induction false} AloneLoads(s: State, p: Pid, op: Op) returns (schedule: seq<Action>)
    requires s.At(p).Idle? && s.lock == None && LoadFile(s, s.visible).Some?
    ensures OnlyWorks(schedule, p)
    ensures var t := Run(s, schedule);
      t.At(p) == Loaded(op, LoadFile(s, s.visible).value) && t.lock == Some(p) && t.commits == s.commits
  {
    hide LoadImage;
    var none: seq<Action> := [];
    RunSnoc(s, none, Start(p, op));
    RunSnoc(s, none + [Start(p, op)], Acquire(p));
    RunSnoc(s, none + [Start(p, op)] + [Acquire(p)], Open(p));
    RunSnoc(s, none + [Start(p, op)] + [Acquire(p)] + [Open(p)], Load(p));
    schedule := none + [Start(p, op)] + [Acquire(p)] + [Open(p)] + [Load(p)];
  }

  /** From the loaded table to the complete temporary file. */
  lemma {:induction false} AloneDrafts(s: State, p: Pid, op: Op, records: seq<Record>) returns (schedule: seq<Action>)
    requires s.At(p) == Loaded(op, records) && s.lock == Some(p) && Apply(op, records).Some?
    ensures OnlyWorks(schedule, p)
    ensures var t := Run(s, schedule);
      t.At(p).Synced? && t.At(p).op == op && t.At(p).next == Apply(op, records).value && t.lock == Some(p) &&
      t.commits == s.commits && t.At(p).inode in t.data && t.data[t.At(p).inode] == PrintImage(t.At(p).next.records)
  {
    hide LoadImage, PrintImage, Apply;
    var path := Fresh(s.temps.Keys);
    var inode := Fresh(s.data.Keys);
    var image := PrintImage(Apply(op, records).value.records);
    var none: seq<Action> := [];
    assert image[..|image|] == image;
    RunSnoc(s, none, Prepare(p, path, inode));
    RunSnoc(s, none + [Prepare(p, path, inode)], Append(p, |image|));
    RunSnoc(s, none + [Prepare(p, path, inode)] + [Append(p, |image|)], Sync(p));
    schedule := none + [Prepare(p, path, inode)] + [Append(p, |image|)] + [Sync(p)];
  }

  /** From the loaded table to the end. */
  lemma {:induction false} AlonePublishes(s: State, p: Pid, op: Op, records: seq<Record>) returns (schedule: seq<Action>)
    requires s.At(p) == Loaded(op, records) && s.lock == Some(p) && Apply(op, records).Some?
    ensures OnlyWorks(schedule, p)
    ensures var t := Run(s, schedule);
      var next := Apply(op, records).value;
      t.commits == s.commits + [Entry(p, op, next.address)] && t.At(p) == Succeeded(op, next.address) && t.lock == None &&
      LoadFile(t, t.visible) == LoadImage(PrintImage(next.records))
  {
    hide LoadImage, PrintImage, Apply, Run;
    var drafting := AloneDrafts(s, p, op, records);
    RunSnoc(s, drafting, Rename(p));
    RunSnoc(s, drafting + [Rename(p)], Finish(p));
    schedule := drafting + [Rename(p)] + [Finish(p)];
  }

  lemma {:induction false} RunConcat(s: State, first: seq<Action>, rest: seq<Action>)
    ensures Run(s, first + rest) == Run(Run(s, first), rest)
    decreases |rest|
  {
    hide Next;
    if rest == [] {
      assert first + rest == first;
    } else {
      var n := |rest| - 1;
      assert first + rest == (first + rest[..n]) + [rest[n]] && rest == rest[..n] + [rest[n]];
      RunConcat(s, first, rest[..n]);
      RunSnoc(s, first + rest[..n], rest[n]);
    }
  }

  /** Whatever has happened before, an update that finds the lock free, works alone from then on and meets no failure is
      published and reported as a success, provided that it applies to the committed table; every reader then gets the
      updated table. */
  lemma {:induction false} AloneUpdates(initial: seq<Record>, s0: State, before: seq<Action>, p: Pid, op: Op)
    returns (schedule: seq<Action>)
    requires Beginning(initial, s0) && HarmlessSchedule(before) && Harmless(op)
    requires Run(s0, before).At(p).Idle? && Run(s0, before).lock == None
    requires Apply(op, Table(initial, Run(s0, before))).Some?
    ensures OnlyWorks(schedule, p)
    ensures var s, t := Run(s0, before), Run(s0, before + schedule);
      var next := Apply(op, Table(initial, s)).value;
      t.commits == s.commits + [Entry(p, op, next.address)] && t.At(p) == Succeeded(op, next.address) && t.lock == None &&
      LoadFile(t, t.visible) == Some(next.records)
  {
    hide LoadImage, PrintImage, Apply, Replay, Storable, Next;
    EveryInterleavingIsSafe(initial, s0, before);
    var s := Run(s0, before);
    var loading := AloneLoads(s, p, op);
    var publishing := AlonePublishes(Run(s, loading), p, op, Table(initial, s));
    schedule := loading + publishing;
    RunConcat(s, loading, publishing);
    RunConcat(s0, before, schedule);
    NetworkStore.PublishedIsReadable(op, Table(initial, s));
  }

  /** A reader is never kept waiting: its two steps give it the committed table, whoever holds the lock. */
  lemma {:induction false} ReadersNeverWait(initial: seq<Record>, s0: State, before: seq<Action>, p: Pid)
    requires Beginning(initial, s0) && HarmlessSchedule(before) && Run(s0, before).At(p).Idle?
    ensures var s := Run(s0, before);
      Run(s0, before + [StartRead(p)] + [FinishRead(p)]).At(p) == ReadDone(Some(Table(initial, s)), |s.commits|)
  {
    hide LoadImage, PrintImage, Apply, Replay, Storable;
    EveryInterleavingIsSafe(initial, s0, before);
    RunSnoc(s0, before, StartRead(p));
    RunSnoc(s0, before + [StartRead(p)], FinishRead(p));
  }
}
