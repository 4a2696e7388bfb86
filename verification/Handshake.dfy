/** The start of a container as two processes and a one-byte pipe (docker/container.c): `docker_run` sets the container up
    and then writes the byte, the cloned child waits for it before it executes the user's command.

    Neither pipe end is close-on-exec, so the commands that `docker_run` starts meanwhile hold both ends too. Nothing
    ignores SIGPIPE, so writing to a pipe that nobody can read kills the writer. The cleanup goes on to wait for the child
    when its kill is refused.

    `closesFirst` selects a cleanup that closes its pipe ends before it waits; the code waits first.
  */
module Handshake {
  import opened Text

  /** What docker_run does between the clone and the byte, in order. */
  datatype Stage = Apply | Network | Ports | Metadata

  const ALL_STAGES: set<Stage> := {Apply, Network, Ports, Metadata}

  datatype Parent =
    | Working(stage: Stage)
    | Releasing
    | ReadEndClosed
    | Written
    | Released
    | Killing
    | Reaping
    | ClosingEnds
    | Failed
    | Gone(brokenPipe: bool)

  datatype Child =
    | Starting
    | RootSwitched
    | Waiting
    | Received(message: Option<char>)
    | Executed
    | Exited
    | Killed

  datatype State = State(
    parent: Parent, child: Child,
    parentRead: bool, parentWrite: bool, childRead: bool, childWrite: bool,
    helper: bool, commandsLeft: nat,
    buffer: string,
    succeeded: set<Stage>,
    closesFirst: bool)
  {
    /** Somebody could still write to the pipe; a running helper command holds both ends. */
    predicate Writers()
    {
      parentWrite || childWrite || helper
    }

    predicate Readers()
    {
      parentRead || childRead || helper
    }

    function ParentGone(brokenPipe: bool): State
    {
      this.(parent := Gone(brokenPipe), parentRead := false, parentWrite := false)
    }

    /** On to waiting for the child. */
    function BeginWait(): State
    {
      if closesFirst then this.(parent := Reaping, parentRead := false, parentWrite := false) else this.(parent := Reaping)
    }

    function ChildEnds(phase: Child): State
    {
      this.(child := phase, childRead := false, childWrite := false)
    }
  }

  datatype Action =
    | StartCommand | EndCommand | StageOk | StageFail
    | CloseReadEnd | WriteByte | WriteFail | CloseWriteEnd
    | Kill | KillFails | Reap | CloseEnds | ParentDies
    | SwitchRoot | GiveUp | CloseChildWriteEnd | Read | Decide | ChildDies

  function AfterStage(stage: Stage): Parent
  {
    match stage
    case Apply => Working(Network)
    case Network => Working(Ports)
    case Ports => Working(Metadata)
    case Metadata => Releasing
  }

  /** Only the network stages run commands. */
  predicate RunsCommands(p: Parent)
  {
    p.Working? && (p.stage.Network? || p.stage.Ports?)
  }

  predicate ChildOver(c: Child)
  {
    c.Exited? || c.Killed?
  }

  /** The stages of docker_run and the commands they run; an action that is not possible now changes nothing. */
  function WorkStep(s: State, a: Action): State
  {
    match a
    case StartCommand =>
      if RunsCommands(s.parent) && !s.helper && s.commandsLeft > 0
      then s.(helper := true, commandsLeft := s.commandsLeft - 1) else s
    case EndCommand => s.(helper := false)
    case StageOk =>
      if s.parent.Working? && !s.helper
      then s.(parent := AfterStage(s.parent.stage), succeeded := s.succeeded + {s.parent.stage}) else s
    case StageFail => if s.parent.Working? && !s.helper then s.(parent := Killing) else s
    case _ => s
  }

  /** The release of the child. */
  function ReleaseStep(s: State, a: Action): State
  {
    match a
    case CloseReadEnd => if s.parent.Releasing? then s.(parent := ReadEndClosed, parentRead := false) else s
    case WriteByte =>
      if !s.parent.ReadEndClosed? then s
      else if s.Readers() then s.(parent := Written, buffer := s.buffer + ['1'])
      else s.ParentGone(true)
    case WriteFail => if s.parent.ReadEndClosed? then s.(parent := Killing, parentWrite := false) else s
    case CloseWriteEnd => if s.parent.Written? then s.(parent := Released, parentWrite := false) else s
    case _ => s
  }

  /** cleanup_run_failure, and the death of the parent. */
  function CleanupStep(s: State, a: Action): State
  {
    match a
    case Kill =>
      if !s.parent.Killing? then s
      else (if ChildOver(s.child) then s else s.ChildEnds(Killed)).BeginWait()
    case KillFails => if s.parent.Killing? then s.BeginWait() else s
    case Reap => if s.parent.Reaping? && ChildOver(s.child) then s.(parent := ClosingEnds) else s
    case CloseEnds =>
      if s.parent.ClosingEnds? then s.(parent := Failed, parentRead := false, parentWrite := false) else s
    case ParentDies => if s.parent.Released? || s.parent.Failed? || s.parent.Gone? then s else s.ParentGone(false)
    case _ => s
  }

  /** child_fn from the root switch on. */
  function ChildStep(s: State, a: Action): State
  {
    match a
    case SwitchRoot => if s.child.Starting? then s.(child := RootSwitched) else s
    case GiveUp => if s.child.Starting? then s.ChildEnds(Exited) else s
    case CloseChildWriteEnd => if s.child.RootSwitched? then s.(child := Waiting, childWrite := false) else s
    case Read =>
      if !s.child.Waiting? then s
      else if s.buffer != [] then s.(child := Received(Some(s.buffer[0])), buffer := s.buffer[1..], childRead := false)
      else if !s.Writers() then s.(child := Received(None), childRead := false)
      else s
    case Decide =>
      if !s.child.Received? then s
      else if s.child.message == Some('1') then s.(child := Executed) else s.ChildEnds(Exited)
    case ChildDies =>
      if s.child.Executed? || ChildOver(s.child) then s else s.ChildEnds(Killed)
    case _ => s
  }

  function Next(s: State, a: Action): State
  {
    ChildStep(CleanupStep(ReleaseStep(WorkStep(s, a), a), a), a)
  }

  function Run(s: State, schedule: seq<Action>): State
  {
    if schedule == [] then s else Next(Run(s, schedule[..|schedule| - 1]), schedule[|schedule| - 1])
  }

  /** After the clone: both processes hold both ends; any number of commands will be run. */
  function AfterClone(commands: nat, closesFirst: bool): State
  {
    State(Working(Apply), Starting, true, true, true, true, false, commands, [], {}, closesFirst)
  }

  // ---------- the invariant ----------

  function Before(stage: Stage): set<Stage>
  {
    match stage
    case Apply => {}
    case Network => {Apply}
    case Ports => {Apply, Network}
    case Metadata => {Apply, Network, Ports}
  }

  predicate Cleaning(p: Parent)
  {
    p.Killing? || p.Reaping? || p.ClosingEnds? || p.Failed?
  }

  /** The byte has been written: it is in the pipe, or the child has it. */
  predicate ByteSent(s: State)
  {
    s.buffer != [] || s.child == Received(Some('1')) || s.child.Executed?
  }

  predicate EndsOk(s: State)
  {
    (s.parent.Working? || s.parent.Releasing? ==> s.parentRead && s.parentWrite) &&
    (s.parent.ReadEndClosed? || s.parent.Written? ==> !s.parentRead && s.parentWrite) &&
    (s.parent.Released? || s.parent.Failed? || s.parent.Gone? ==> !s.parentRead && !s.parentWrite) &&
    (s.child.Starting? || s.child.RootSwitched? ==> s.childRead && s.childWrite) &&
    (s.child.Waiting? ==> s.childRead && !s.childWrite) &&
    (!s.child.Starting? && !s.child.RootSwitched? && !s.child.Waiting? ==> !s.childRead && !s.childWrite) &&
    (s.helper ==> RunsCommands(s.parent) || s.parent.Gone?)
  }

  predicate StagesOk(s: State)
  {
    (s.parent.Working? ==> s.succeeded == Before(s.parent.stage)) &&
    (s.parent.Releasing? || s.parent.ReadEndClosed? || s.parent.Written? || s.parent.Released? ==> s.succeeded == ALL_STAGES)
  }

  predicate ByteOk(s: State)
  {
    (s.buffer == [] || s.buffer == ['1']) && (s.child.Received? ==> s.child.message in {None, Some('1')}) &&
    (ByteSent(s) ==> s.succeeded == ALL_STAGES && (s.parent.Written? || s.parent.Released? || s.parent.Gone?)) &&
    (s.buffer != [] ==> !s.child.Received? && !s.child.Executed?) &&
    (s.child == Received(None) ==> !s.parent.Working? && !s.parent.Releasing? && !s.parent.ReadEndClosed?)
  }

  predicate EndingOk(s: State)
  {
    (s.parent == Gone(true) ==> s.succeeded == ALL_STAGES && ChildOver(s.child)) &&
    (s.parent.ClosingEnds? || s.parent.Failed? ==> ChildOver(s.child)) &&
    (s.parent.Reaping? && s.closesFirst ==> !s.parentWrite)
  }

  predicate Inv(s: State)
  {
    EndsOk(s) && StagesOk(s) && ByteOk(s) && EndingOk(s)
  }

  lemma {:induction false} StepKeepsInv(s: State, a: Action)
    requires Inv(s)
    ensures Inv(Next(s, a))
  {
    hide Inv, WorkStep, ReleaseStep, CleanupStep, ChildStep;
    OneActs(s, a);
    WorkKeepsInv(s, a);
    ReleaseKeepsInv(s, a);
    CleanupKeepsInv(s, a);
    ChildKeepsInv(s, a);
  }

  lemma {:induction false} OneActs(s: State, a: Action)
    ensures Next(s, a) in {WorkStep(s, a), ReleaseStep(s, a), CleanupStep(s, a), ChildStep(s, a)}
  {
  }

  lemma {:induction false} WorkKeepsInv(s: State, a: Action)
    requires Inv(s)
    ensures Inv(WorkStep(s, a))
  {
  }

  lemma {:induction false} ReleaseKeepsInv(s: State, a: Action)
    requires Inv(s)
    ensures Inv(ReleaseStep(s, a))
  {
  }

  lemma {:induction false} CleanupKeepsInv(s: State, a: Action)
    requires Inv(s)
    ensures Inv(CleanupStep(s, a))
  {
    hide CleanupStep, EndsOk, StagesOk, ByteOk, EndingOk;
    CleanupKeepsEnds(s, a);
    CleanupKeepsRest(s, a);
  }

  lemma {:induction false} CleanupKeepsEnds(s: State, a: Action)
    requires EndsOk(s)
    ensures EndsOk(CleanupStep(s, a))
  {
  }

  lemma {:induction false} CleanupKeepsRest(s: State, a: Action)
    requires Inv(s)
    ensures StagesOk(CleanupStep(s, a)) && ByteOk(CleanupStep(s, a)) && EndingOk(CleanupStep(s, a))
  {
  }

  lemma {:induction false} ChildKeepsInv(s: State, a: Action)
    requires Inv(s)
    ensures Inv(ChildStep(s, a))
  {
    hide ChildStep, EndsOk, StagesOk, ByteOk, EndingOk;
    ChildKeepsEnds(s, a);
    ChildKeepsByte(s, a);
    ChildKeepsRest(s, a);
  }

  lemma {:induction false} ChildKeepsEnds(s: State, a: Action)
    requires EndsOk(s)
    ensures EndsOk(ChildStep(s, a))
  {
  }

  lemma {:induction false} ChildKeepsByte(s: State, a: Action)
    requires EndsOk(s) && ByteOk(s)
    ensures ByteOk(ChildStep(s, a))
  {
  }

  lemma {:induction false} ChildKeepsRest(s: State, a: Action)
    requires StagesOk(s) && EndingOk(s)
    ensures StagesOk(ChildStep(s, a)) && EndingOk(ChildStep(s, a))
  {
  }

  lemma {:induction false} RunKeepsInv(s: State, schedule: seq<Action>)
    requires Inv(s)
    ensures Inv(Run(s, schedule))
  {
    hide Inv, Next;
    if schedule != [] {
      RunKeepsInv(s, schedule[..|schedule| - 1]);
      StepKeepsInv(Run(s, schedule[..|schedule| - 1]), schedule[|schedule| - 1]);
    }
  }

  /** In every interleaving, with failures and deaths anywhere: the command is executed only after all four stages have
      succeeded; once the cleanup has begun it is not executed and the byte is not in the pipe; and the parent is killed by
      the broken pipe only when the metadata is published, so that the container can be removed. */
  lemma {:induction false} EveryInterleavingIsSafe(commands: nat, closesFirst: bool, schedule: seq<Action>)
    ensures var s := Run(AfterClone(commands, closesFirst), schedule);
      (s.child.Executed? ==> s.succeeded == ALL_STAGES) &&
      (Cleaning(s.parent) ==> !s.child.Executed? && s.buffer == []) &&
      (s.parent.Failed? ==> ChildOver(s.child)) &&
      (s.parent == Gone(true) ==> s.succeeded == ALL_STAGES && ChildOver(s.child))
  {
    hide Run, Next;
    AfterCloneInv(commands, closesFirst);
    RunKeepsInv(AfterClone(commands, closesFirst), schedule);
  }

  // ---------- nobody waits for ever ----------

  function ParentRank(p: Parent): nat
  {
    match p
    case Working(stage) => (match stage case Apply => 11 case Network => 10 case Ports => 9 case Metadata => 8)
    case Releasing => 7
    case ReadEndClosed => 6
    case Written => 1
    case Released => 0
    case Killing => 4
    case Reaping => 3
    case ClosingEnds => 2
    case Failed => 0
    case Gone(_) => 0
  }

  function ChildRank(c: Child): nat
  {
    match c
    case Starting => 4
    case RootSwitched => 3
    case Waiting => 2
    case Received(_) => 1
    case _ => 0
  }

  /** A bound on the steps that can still change anything. */
  function Rank(s: State): nat
  {
    ParentRank(s.parent) + ChildRank(s.child) + 2 * s.commandsLeft + (if s.helper then 1 else 0)
  }

  lemma {:induction false} EveryStepCosts(s: State, a: Action)
    ensures Next(s, a) != s ==> Rank(Next(s, a)) < Rank(s)
  {
    hide Rank, WorkStep, ReleaseStep, CleanupStep, ChildStep;
    OneActs(s, a);
    WorkCosts(s, a);
    ReleaseCosts(s, a);
    CleanupCosts(s, a);
    ChildStepCosts(s, a);
  }

  lemma {:induction false} WorkCosts(s: State, a: Action)
    ensures WorkStep(s, a) != s ==> Rank(WorkStep(s, a)) < Rank(s)
  {
  }

  lemma {:induction false} ReleaseCosts(s: State, a: Action)
    ensures ReleaseStep(s, a) != s ==> Rank(ReleaseStep(s, a)) < Rank(s)
  {
  }

  lemma {:induction false} CleanupCosts(s: State, a: Action)
    ensures CleanupStep(s, a) != s ==> Rank(CleanupStep(s, a)) < Rank(s)
  {
  }

  lemma {:induction false} ChildStepCosts(s: State, a: Action)
    ensures ChildStep(s, a) != s ==> Rank(ChildStep(s, a)) < Rank(s)
  {
  }

  /** How many steps of a run changed anything. */
  function EffectiveSteps(s: State, schedule: seq<Action>): nat
  {
    if schedule == [] then 0
    else
      var before := Run(s, schedule[..|schedule| - 1]);
      EffectiveSteps(s, schedule[..|schedule| - 1]) +
      (if Next(before, schedule[|schedule| - 1]) != before then 1 else 0)
  }

  /** No run goes on for ever. */
  lemma {:induction false} RunsAreBounded(s: State, schedule: seq<Action>)
    ensures EffectiveSteps(s, schedule) + Rank(Run(s, schedule)) <= Rank(s)
  {
    hide Next, Rank;
    if schedule != [] {
      RunsAreBounded(s, schedule[..|schedule| - 1]);
      EveryStepCosts(Run(s, schedule[..|schedule| - 1]), schedule[|schedule| - 1]);
    }
  }

  predicate Death(a: Action)
  {
    a.ParentDies? || a.ChildDies?
  }

  /** Nothing can happen any more except that somebody dies. */
  ghost predicate Quiescent(s: State)
  {
    forall a: Action :: !Death(a) ==> Next(s, a) == s
  }

  predicate Resolved(s: State)
  {
    (s.child.Executed? || ChildOver(s.child)) && (s.parent.Released? || s.parent.Failed? || s.parent.Gone?) && !s.helper
  }

  /** The parent waits for the child to end, with its write end open; the child waits for the byte. */
  predicate Deadlocked(s: State)
  {
    s.parent.Reaping? && s.parentWrite && s.child.Waiting?
  }

  /** On the way there: only the child's last step before its wait is missing. */
  predicate Doomed(s: State)
  {
    s.parent.Reaping? && s.parentWrite && (s.child.RootSwitched? || s.child.Waiting?)
  }

  /** A step towards the end for whoever is not there yet. */
  function Pending(s: State): Action
  {
    if s.helper then EndCommand
    else
      match s.parent
      case Working(_) => StageOk
      case Releasing => CloseReadEnd
      case ReadEndClosed => WriteByte
      case Written => CloseWriteEnd
      case Killing => Kill
      case ClosingEnds => CloseEnds
      case _ =>
        if s.parent.Reaping? && ChildOver(s.child) then Reap
        else
          match s.child
          case Starting => if s.parentWrite then GiveUp else SwitchRoot
          case RootSwitched => CloseChildWriteEnd
          case Waiting => Read
          case _ => Decide
  }

  lemma {:induction false} SomethingIsPending(s: State)
    requires Inv(s) && !Resolved(s) && !Deadlocked(s)
    ensures Next(s, Pending(s)) != s && !Death(Pending(s))
    ensures !Doomed(s) ==> !Doomed(Next(s, Pending(s)))
  {
  }

  lemma {:induction false} EndIsQuiescent(s: State)
    requires Inv(s) && (Resolved(s) || Deadlocked(s))
    ensures Quiescent(s)
  {
  }

  /** As long as no kill is refused, the parent waits only for a child that is over. */
  lemma {:induction false} KilledIsOver(commands: nat, closesFirst: bool, schedule: seq<Action>)
    requires KillFails !in schedule
    ensures var s := Run(AfterClone(commands, closesFirst), schedule); s.parent.Reaping? ==> ChildOver(s.child)
  {
    if schedule != [] {
      hide Next;
      KilledIsOver(commands, closesFirst, schedule[..|schedule| - 1]);
      KilledStep(Run(AfterClone(commands, closesFirst), schedule[..|schedule| - 1]), schedule[|schedule| - 1]);
    }
  }

  lemma {:induction false} KilledStep(s: State, a: Action)
    requires (s.parent.Reaping? ==> ChildOver(s.child)) && a != KillFails
    ensures Next(s, a).parent.Reaping? ==> ChildOver(Next(s, a).child)
  {
    hide WorkStep, ReleaseStep, CleanupStep, ChildStep;
    OneActs(s, a);
    WorkDoesNotWait(s, a);
    CleanupWaits(s, a);
    ChildStaysOver(s, a);
  }

  lemma {:induction false} WorkDoesNotWait(s: State, a: Action)
    ensures WorkStep(s, a).parent.Reaping? ==> WorkStep(s, a).child == s.child && s.parent.Reaping?
    ensures ReleaseStep(s, a).parent.Reaping? ==> ReleaseStep(s, a).child == s.child && s.parent.Reaping?
  {
  }

  lemma {:induction false} CleanupWaits(s: State, a: Action)
    requires (s.parent.Reaping? ==> ChildOver(s.child)) && a != KillFails
    ensures CleanupStep(s, a).parent.Reaping? ==> ChildOver(CleanupStep(s, a).child)
  {
  }

  lemma {:induction false} ChildStaysOver(s: State, a: Action)
    ensures ChildStep(s, a).parent == s.parent && (ChildOver(s.child) ==> ChildOver(ChildStep(s, a).child))
  {
  }

  /** Who may wait for ever. In every reachable state, whoever has died, some step other than a death is possible unless all
      are at their end, the child having executed the command or being over, or unless the cleanup waits for a child that
      waits for the byte; and a run makes at most 15 + 2 * commands effective steps. So a byte, an end of file or a kill is
      always coming, except in that one state; it needs a refused kill, and a cleanup that closes its write end before it
      waits never gets there. */
  lemma {:induction false} NobodyWaitsForEver(commands: nat, closesFirst: bool, schedule: seq<Action>)
    ensures var s := Run(AfterClone(commands, closesFirst), schedule);
      (Quiescent(s) <==> Resolved(s) || Deadlocked(s)) &&
      (Deadlocked(s) ==> KillFails in schedule && !closesFirst) &&
      EffectiveSteps(AfterClone(commands, closesFirst), schedule) <= 15 + 2 * commands
  {
    hide Run, Next, Inv, Pending;
    var start := AfterClone(commands, closesFirst);
    var s := Run(start, schedule);
    AfterCloneInv(commands, closesFirst);
    RunKeepsInv(start, schedule);
    RunsAreBounded(start, schedule);
    if Resolved(s) || Deadlocked(s) {
      EndIsQuiescent(s);
    } else {
      SomethingIsPending(s);
    }
    if KillFails !in schedule {
      KilledIsOver(commands, closesFirst, schedule);
    }
    SameOrder(start, schedule);
    WaitingAfterClose(s);
  }

  lemma {:induction false} SameOrder(s: State, schedule: seq<Action>)
    ensures Run(s, schedule).closesFirst == s.closesFirst
  {
    hide Next;
    if schedule != [] {
      SameOrder(s, schedule[..|schedule| - 1]);
      SameOrderStep(Run(s, schedule[..|schedule| - 1]), schedule[|schedule| - 1]);
    }
  }

  lemma {:induction false} SameOrderStep(s: State, a: Action)
    ensures Next(s, a).closesFirst == s.closesFirst
  {
    hide WorkStep, ReleaseStep, CleanupStep, ChildStep;
    OneActs(s, a);
    SameOrderParent(s, a);
    SameOrderChild(s, a);
  }

  lemma {:induction false} SameOrderParent(s: State, a: Action)
    ensures WorkStep(s, a).closesFirst == s.closesFirst && ReleaseStep(s, a).closesFirst == s.closesFirst
    ensures CleanupStep(s, a).closesFirst == s.closesFirst
  {
  }

  lemma {:induction false} SameOrderChild(s: State, a: Action)
    ensures ChildStep(s, a).closesFirst == s.closesFirst
  {
  }

  lemma {:induction false} WaitingAfterClose(s: State)
    requires Inv(s)
    ensures s.parent.Reaping? && s.closesFirst ==> !s.parentWrite
  {
  }

  /** The deadlock is reached: a stage fails while the child waits, and the kill is refused. */
  lemma {:induction false} RefusedKillDeadlocks(commands: nat)
    ensures Deadlocked(Run(AfterClone(commands, false), [SwitchRoot, CloseChildWriteEnd, StageFail, KillFails]))
  {
    var s0 := AfterClone(commands, false);
    var s1 := s0.(child := RootSwitched);
    var s2 := s1.(child := Waiting, childWrite := false);
    var s3 := s2.(parent := Killing);
    assert Next(s0, SwitchRoot) == s1 && Next(s1, CloseChildWriteEnd) == s2 && Next(s2, StageFail) == s3;
    assert Deadlocked(Next(s3, KillFails));
    hide Next;
    var none: seq<Action> := [];
    RunFromNext(s0, SwitchRoot, [CloseChildWriteEnd, StageFail, KillFails]);
    RunFromNext(s1, CloseChildWriteEnd, [StageFail, KillFails]);
    RunFromNext(s2, StageFail, [KillFails]);
    RunFromNext(s3, KillFails, none);
    assert [KillFails] + none == [KillFails] && [StageFail] + [KillFails] == [StageFail, KillFails];
    assert [CloseChildWriteEnd] + [StageFail, KillFails] == [CloseChildWriteEnd, StageFail, KillFails];
    assert [SwitchRoot] + [CloseChildWriteEnd, StageFail, KillFails] == [SwitchRoot, CloseChildWriteEnd, StageFail, KillFails];
  }

  lemma {:induction false} AfterCloneInv(commands: nat, closesFirst: bool)
    ensures Inv(AfterClone(commands, closesFirst))
  {
  }

  predicate WithoutDeaths(schedule: seq<Action>)
  {
    forall a :: a in schedule ==> !Death(a)
  }

  lemma {:induction false} FinishFrom(s: State) returns (rest: seq<Action>)
    requires Inv(s) && !Doomed(s)
    ensures Resolved(Run(s, rest)) && WithoutDeaths(rest)
    decreases Rank(s)
  {
    hide Inv, Next, Pending, Rank;
    if Resolved(s) {
      rest := [];
    } else {
      SomethingIsPending(s);
      StepKeepsInv(s, Pending(s));
      EveryStepCosts(s, Pending(s));
      var more := FinishFrom(Next(s, Pending(s)));
      rest := [Pending(s)] + more;
      RunFromNext(s, Pending(s), more);
    }
  }

  lemma {:induction false} DoomedStays(s: State, rest: seq<Action>)
    requires Inv(s) && Doomed(s) && WithoutDeaths(rest)
    ensures Doomed(Run(s, rest))
  {
    hide Inv, Next;
    if rest != [] {
      var front := rest[..|rest| - 1];
      DoomedStays(s, front);
      RunKeepsInv(s, front);
      DoomedStep(Run(s, front), rest[|rest| - 1]);
    }
  }

  lemma {:induction false} DoomedStep(s: State, a: Action)
    requires Inv(s) && Doomed(s) && !Death(a)
    ensures Doomed(Next(s, a))
  {
  }

  /** Exactly when the protocol can still be brought to its end without anybody dying. */
  lemma {:induction false} CanAlwaysFinish(s: State)
    requires Inv(s)
    ensures (exists rest: seq<Action> :: WithoutDeaths(rest) && Resolved(Run(s, rest))) <==> !Doomed(s)
  {
    hide Inv, Run;
    if Doomed(s) {
      forall rest: seq<Action> | WithoutDeaths(rest) ensures !Resolved(Run(s, rest)) {
        DoomedStays(s, rest);
      }
    } else {
      var rest := FinishFrom(s);
    }
  }

  lemma {:induction false} RunFromNext(s: State, a: Action, schedule: seq<Action>)
    ensures Run(s, [a] + schedule) == Run(Next(s, a), schedule)
  {
    hide Next;
    if schedule == [] {
      assert [a] + schedule == [a] && [a][..0] == [];
    } else {
      var n := |schedule| - 1;
      assert ([a] + schedule)[..n + 1] == [a] + schedule[..n];
      RunFromNext(s, a, schedule[..n]);
    }
  }

  /** The order in the child matters: with its own write end still open a child reading from an empty pipe would wait for
      ever after the parent's death, since no end of file could come. */
  lemma {:induction false} OwnWriteEndWouldBlock(s: State)
    requires s.child.Waiting? && s.childWrite && s.buffer == [] && s.parent.Gone? && !s.helper
    ensures Quiescent(s) && !Resolved(s)
  {
  }

  // ---------- the command is executed ----------

  /** The child has not ended by itself: the byte, once sent, is still on its way to it or has done its work. */
  predicate OnCourse(s: State)
  {
    (s.parent.Working? || s.parent.Releasing? || s.parent.ReadEndClosed? ==>
       s.child.Starting? || s.child.RootSwitched? || s.child.Waiting?) &&
    (s.parent.Written? || s.parent.Released? ==>
       (s.buffer == ['1'] && (s.child.Starting? || s.child.RootSwitched? || s.child.Waiting?)) ||
       s.child == Received(Some('1')) || s.child.Executed?)
  }

  /** The two ways in which a child ends that was neither killed by its parent nor left without a byte. */
  predicate ChildFails(a: Action)
  {
    a.GiveUp? || a.ChildDies?
  }

  lemma {:induction false} StaysOnCourse(s: State, a: Action)
    requires Inv(s) && OnCourse(s) && !ChildFails(a)
    ensures OnCourse(Next(s, a))
  {
    hide WorkStep, ReleaseStep, CleanupStep, ChildStep, Inv, OnCourse;
    OneActs(s, a);
    WorkOnCourse(s, a);
    ReleaseOnCourse(s, a);
    CleanupOnCourse(s, a);
    ChildOnCourse(s, a);
  }

  lemma {:induction false} WorkOnCourse(s: State, a: Action)
    requires OnCourse(s)
    ensures OnCourse(WorkStep(s, a))
  {
  }

  lemma {:induction false} ReleaseOnCourse(s: State, a: Action)
    requires Inv(s) && OnCourse(s)
    ensures OnCourse(ReleaseStep(s, a))
  {
  }

  lemma {:induction false} CleanupOnCourse(s: State, a: Action)
    requires OnCourse(s)
    ensures OnCourse(CleanupStep(s, a))
  {
  }

  lemma {:induction false} ChildOnCourse(s: State, a: Action)
    requires Inv(s) && OnCourse(s) && !ChildFails(a)
    ensures OnCourse(ChildStep(s, a))
  {
  }

  lemma {:induction false} RunOnCourse(commands: nat, closesFirst: bool, schedule: seq<Action>)
    requires GiveUp !in schedule && ChildDies !in schedule
    ensures Inv(Run(AfterClone(commands, closesFirst), schedule)) && OnCourse(Run(AfterClone(commands, closesFirst), schedule))
  {
    hide Inv, Next, OnCourse;
    var start := AfterClone(commands, closesFirst);
    AfterCloneInv(commands, closesFirst);
    RunKeepsInv(start, schedule);
    if schedule == [] {
      StartIsOnCourse(commands, closesFirst);
    } else {
      var n := |schedule| - 1;
      RunOnCourse(commands, closesFirst, schedule[..n]);
      assert schedule[n] in schedule;
      StaysOnCourse(Run(start, schedule[..n]), schedule[n]);
    }
  }

  lemma {:induction false} StartIsOnCourse(commands: nat, closesFirst: bool)
    ensures OnCourse(AfterClone(commands, closesFirst))
  {
  }

  /** The point of it all: once the parent has released the child and everything has come to its end, the user's command has
      been executed, in every schedule in which the child neither fails to switch its root nor dies. */
  lemma {:induction false} ReleasedMeansExecuted(commands: nat, closesFirst: bool, schedule: seq<Action>)
    requires GiveUp !in schedule && ChildDies !in schedule
    ensures var s := Run(AfterClone(commands, closesFirst), schedule);
      s.parent.Released? && Resolved(s) ==> s.child.Executed?
  {
    hide Run, Inv;
    RunOnCourse(commands, closesFirst, schedule);
  }

  lemma {:induction false} RunSnoc(s: State, schedule: seq<Action>, a: Action)
    ensures Run(s, schedule + [a]) == Next(Run(s, schedule), a)
  {
    hide Next;
    assert (schedule + [a])[..|schedule|] == schedule;
  }

  lemma {:induction false} OnlyWork(s: State, a: Action)
    requires a.StageOk?
    ensures Next(s, a) == WorkStep(s, a)
  {
    hide WorkStep;
  }

  lemma {:induction false} OnlyRelease(s: State, a: Action)
    requires a.CloseReadEnd? || a.WriteByte? || a.CloseWriteEnd?
    ensures Next(s, a) == ReleaseStep(s, a)
  {
    hide ReleaseStep;
  }

  lemma {:induction false} OnlyChild(s: State, a: Action)
    requires a.SwitchRoot? || a.CloseChildWriteEnd? || a.Read? || a.Decide?
    ensures Next(s, a) == ChildStep(s, a)
  {
    hide ChildStep;
  }

  lemma {:induction false} StagesDone(s: State)
    requires s.parent == Working(Apply) && !s.helper && s.succeeded == {}
    ensures Run(s, [StageOk, StageOk, StageOk, StageOk]) == s.(parent := Releasing, succeeded := ALL_STAGES)
  {
    hide Next, Run;
    var s1 := s.(parent := Working(Network), succeeded := {Apply});
    var s2 := s.(parent := Working(Ports), succeeded := {Apply, Network});
    var s3 := s.(parent := Working(Metadata), succeeded := {Apply, Network, Ports});
    assert s.succeeded + {Apply} == {Apply} && {Apply} + {Network} == {Apply, Network};
    assert {Apply, Network} + {Ports} == {Apply, Network, Ports} && {Apply, Network, Ports} + {Metadata} == ALL_STAGES;
    OnlyWork(s, StageOk);
    OnlyWork(s1, StageOk);
    OnlyWork(s2, StageOk);
    OnlyWork(s3, StageOk);
    RunFour(s, StageOk, StageOk, StageOk, StageOk);
  }

  lemma {:induction false} ByteReleased(s: State)
    requires s.parent.Releasing? && s.childRead && s.buffer == []
    ensures Run(s, [CloseReadEnd, WriteByte, CloseWriteEnd, EndCommand]) ==
      s.(parent := Released, parentRead := false, parentWrite := false, buffer := ['1'], helper := false)
  {
    hide Next, Run, WorkStep;
    var s1 := s.(parent := ReadEndClosed, parentRead := false);
    var s2 := s1.(parent := Written, buffer := ['1']);
    var s3 := s2.(parent := Released, parentWrite := false);
    assert s1.buffer + ['1'] == ['1'];
    OnlyRelease(s, CloseReadEnd);
    OnlyRelease(s1, WriteByte);
    OnlyRelease(s2, CloseWriteEnd);
    CommandsEnd(s3);
    RunFour(s, CloseReadEnd, WriteByte, CloseWriteEnd, EndCommand);
  }

  lemma {:induction false} CommandsEnd(s: State)
    ensures Next(s, EndCommand) == s.(helper := false)
  {
  }

  lemma {:induction false} ByteTaken(s: State)
    requires s.child.Starting? && s.buffer == ['1']
    ensures Run(s, [SwitchRoot, CloseChildWriteEnd, Read, Decide]) ==
      s.(child := Executed, childRead := false, childWrite := false, buffer := [])
  {
    hide Next, Run;
    var s1 := s.(child := RootSwitched);
    var s2 := s1.(child := Waiting, childWrite := false);
    var s3 := s2.(child := Received(Some('1')), childRead := false, buffer := []);
    assert ['1'][1..] == [];
    OnlyChild(s, SwitchRoot);
    OnlyChild(s1, CloseChildWriteEnd);
    OnlyChild(s2, Read);
    OnlyChild(s3, Decide);
    RunFour(s, SwitchRoot, CloseChildWriteEnd, Read, Decide);
  }

  lemma {:induction false} RunFour(s: State, a: Action, b: Action, c: Action, d: Action)
    ensures Run(s, [a, b, c, d]) == Next(Next(Next(Next(s, a), b), c), d)
  {
    hide Next;
    var none: seq<Action> := [];
    RunSnoc(s, none, a);
    RunSnoc(s, [a], b);
    RunSnoc(s, [a, b], c);
    RunSnoc(s, [a, b, c], d);
    assert none + [a] == [a] && [a] + [b] == [a, b] && [a, b] + [c] == [a, b, c] && [a, b, c] + [d] == [a, b, c, d];
  }

  lemma {:induction false} RunConcat(s: State, first: seq<Action>, rest: seq<Action>)
    ensures Run(s, first + rest) == Run(Run(s, first), rest)
  {
    hide Next;
    if rest == [] {
      assert first + rest == first;
    } else {
      var n := |rest| - 1;
      assert (first + rest)[..|first| + n] == first + rest[..n];
      RunConcat(s, first, rest[..n]);
    }
  }

  /** And there is such a schedule: nothing fails, nobody dies. */
  lemma {:induction false} CommandCanBeExecuted(commands: nat, closesFirst: bool) returns (schedule: seq<Action>)
    ensures var s := Run(AfterClone(commands, closesFirst), schedule);
      s.child.Executed? && s.parent.Released? && Resolved(s) && s.succeeded == ALL_STAGES
    ensures forall a :: a in schedule ==> !Death(a) && !a.GiveUp? && !a.StageFail? && !a.WriteFail? && !a.Kill? && !a.KillFails?
  {
    hide Run;
    var start := AfterClone(commands, closesFirst);
    var first, second := [StageOk, StageOk, StageOk, StageOk], [CloseReadEnd, WriteByte, CloseWriteEnd, EndCommand];
    var third := [SwitchRoot, CloseChildWriteEnd, Read, Decide];
    StagesDone(start);
    ByteReleased(Run(start, first));
    RunConcat(start, first, second);
    ByteTaken(Run(start, first + second));
    RunConcat(start, first + second, third);
    schedule := first + second + third;
  }
}
