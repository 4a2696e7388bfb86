/** `docker_run` as a resource protocol (docker/container.c): stages that acquire, any of which may fail, and the
    cleanup that has to undo exactly what was acquired. Everything the operating system decides is a parameter. */
module ContainerRun {
  import opened Text
  import opened Numbers
  import opened Ipv4
  import opened Names
  import opened VolumeSpec
  import opened NetworkState
  import opened NetworkFile
  import AddressPool
  import opened NetworkTable
  import opened NetworkStore
  import opened StatusCodec
  import opened MetadataVolumes
  import opened Mounts
  import opened Volumes
  import opened NatRules
  import opened Cgroup

  const DEFAULT_NETWORK := "tinydocker-0"

  datatype Child = NoChild | Alive | Reaped

  /** The host end of the container's interface pair: absent, ours by its alias, or somebody else's. */
  datatype Veth = Absent | Owned | Foreign

  datatype RunArgs = RunArgs(
    name: string, mountpoint: string, image: string, command: seq<string>, detach: int,
    volumes: seq<Volume>, maps: seq<PortMap>)

  datatype Stage =
    | ExistenceCheck | FilesystemPrepare | VolumeMount | CgroupPrepare | SyncPipe | ProcessCreate
    | CgroupApply | NetworkPrepare | PortMapping | MetadataWrite | ChildRelease

  /** Blocked: the cleanup waits for a child that it could not kill and that does not end. */
  datatype RunResult = Refused | FailedAt(stage: Stage) | Blocked(stage: Stage) | Started

  // ---------- what the system decides ----------

  datatype WorkspaceEnv = LowerFailed | UpperFailed(partly: bool) | MountpointFailed | OverlayFailed | Ready

  datatype ConnectEnv = ConnectEnv(
    alloc: Io, pidFound: bool, peerFree: bool, addOk: bool, aliasOk: bool, configOk: bool,
    deleteOk: bool, release: Io)

  datatype InfoEnv = InfoEnv(startTimeOk: bool, pid: int, startTime: nat, id: string, created: string, writeOk: bool)

  /** Besides the refusals: whether the child ends although the kill was refused. */
  datatype CleanupEnv = CleanupEnv(
    killOk: bool, childEnds: bool, unset: UnsetEnv, disconnectOk: bool, release: Io, teardown: TeardownEnv,
    removeOk: bool, rmdirOk: bool, unlinkOk: bool)

  datatype RunEnv = RunEnv(
    workspace: WorkspaceEnv, mount: Volumes.MountEnv, cgroup: PrepareEnv, pipeOk: bool, cloneOk: bool, applyOk: bool,
    connect: ConnectEnv, maps: seq<NatRules.MapEnv>, info: InfoEnv, releaseOk: bool, cleanup: CleanupEnv)
  {
    predicate For(args: RunArgs)
    {
      mount.For(args.volumes) && |maps| == |args.maps| && |cleanup.teardown.refused| == |args.volumes|
    }

    /** Every stage may fail, but no cleanup action does. */
    ghost predicate Quiet()
    {
      mount.Quiet() && cgroup.rmdirOk && connect.deleteOk && Granting(connect.release) &&
      (forall i :: 0 <= i < |maps| ==> maps[i].undoOk) &&
      cleanup.killOk && cleanup.unset.Quiet() && cleanup.disconnectOk && Granting(cleanup.release) && cleanup.teardown.Quiet() &&
      cleanup.removeOk && cleanup.rmdirOk && cleanup.unlinkOk
    }
  }

  predicate Granting(io: Io)
  {
    io.lockOk && io.readOk && io.writeOk
  }

  /** What a run has got hold of when a stage fails; the local variables of docker_run. */
  datatype Attempt = Attempt(stage: Stage, mountpointSet: bool, pipeCreated: bool, forked: bool, ip: string)

  /** The state of the host that matters to one container. */
  datatype Snapshot = Snapshot(
    mounts: Table, output: seq<Rule>, prerouting: seq<Rule>, image: Option<seq<Record>>, directories: set<string>,
    workspace: bool, veth: Veth, metadata: Option<string>, child: Child, readEnd: bool, writeEnd: bool)

  class Host {
    const table: MountTable
    const rules: NatTable
    const store: Store
    const hierarchy: Hierarchy
    var workspace: bool
    var veth: Veth
    var metadata: Option<string>
    var child: Child
    var readEnd: bool
    var writeEnd: bool
    /** How often a pipe end was closed that was not open. */
    var badCloses: nat
    /** How often a workspace was deleted with something mounted in it. */
    var unsafeDeletes: nat

    constructor (table: MountTable, rules: NatTable, store: Store, hierarchy: Hierarchy)
      ensures this.table == table && this.rules == rules && this.store == store && this.hierarchy == hierarchy
      ensures !workspace && veth == Absent && metadata == None && child == NoChild && !readEnd && !writeEnd
    {
      this.table, this.rules, this.store, this.hierarchy := table, rules, store, hierarchy;
      workspace, veth, metadata, child, readEnd, writeEnd := false, Absent, None, NoChild, false, false;
      badCloses, unsafeDeletes := 0, 0;
    }

    ghost function Now(): Snapshot
      reads this, table, rules, store, hierarchy
    {
      Snapshot(table.mounts, rules.output, rules.prerouting, store.Image(), hierarchy.directories,
               workspace, veth, metadata, child, readEnd, writeEnd)
    }

    ghost predicate Valid()
      reads rules
    {
      AllCanonical(rules.output) && AllCanonical(rules.prerouting)
    }

    // ---------- small steps ----------

    method CloseReadEnd()
      modifies this`readEnd, this`badCloses
      ensures !readEnd && badCloses == old(badCloses) + (if old(readEnd) then 0 else 1)
    {
      if !readEnd {
        badCloses := badCloses + 1;
      }
      readEnd := false;
    }

    method CloseWriteEnd()
      modifies this`writeEnd, this`badCloses
      ensures !writeEnd && badCloses == old(badCloses) + (if old(writeEnd) then 0 else 1)
    {
      if !writeEnd {
        badCloses := badCloses + 1;
      }
      writeEnd := false;
    }

    /** remove_dir on the container directory: deletes recursively, through whatever is mounted there. */
    method RemoveWorkspace(mountpoint: string, ok: bool)
      modifies this`workspace, this`unsafeDeletes
      ensures workspace == (old(workspace) && !ok)
      ensures unsafeDeletes == old(unsafeDeletes) + (if Outside(table.mounts, RootPath(mountpoint)) then 0 else 1)
    {
      if exists i :: 0 <= i < |table.mounts| && RootPath(mountpoint) <= table.mounts[i].target {
        unsafeDeletes := unsafeDeletes + 1;
      }
      if ok {
        workspace := false;
      }
    }

    /** container_exists */
    method ContainerExists(name: string) returns (present: bool)
      ensures present == (CgroupPath(name) in hierarchy.directories || metadata.Some? || workspace)
    {
      return CgroupPath(name) in hierarchy.directories || metadata.Some? || workspace;
    }

    // ---------- file system ----------

    /** init_container_workerspace: the mount point is known before the overlay is mounted on it. */
    method InitWorkspace(args: RunArgs, env: WorkspaceEnv) returns (ok: bool, mountpointSet: bool)
      modifies this`workspace, table
      ensures ok == env.Ready? && mountpointSet == (env.MountpointFailed? || env.OverlayFailed? || env.Ready?)
      ensures table.mounts == if ok then old(table.mounts) + [RootMount(args.mountpoint)] else old(table.mounts)
      ensures mountpointSet ==> workspace
    {
      match env
      case LowerFailed => return false, false;
      case UpperFailed(partly) =>
        workspace := workspace || partly;
        return false, false;
      case MountpointFailed =>
        workspace := true;
        return false, true;
      case OverlayFailed =>
        workspace := true;
        return false, true;
      case Ready =>
        workspace := true;
        table.Bind("overlay", RootPath(args.mountpoint));
        return true, true;
    }

    /** The workspace and volume stages. What they leave on failure is within the bounds the cleanup relies on. */
    method PrepareFilesystem(args: RunArgs, env: RunEnv) returns (ok: bool, mountpointSet: bool, ghost live: Table)
      requires env.For(args) && Outside(table.mounts, RootPath(args.mountpoint))
      modifies this`workspace, table
      ensures table.mounts == old(table.mounts) + live && Bounded(live, args.mountpoint, args.volumes)
      ensures !mountpointSet ==> live == [] && !ok
      ensures mountpointSet == MountpointKnown(env.workspace)
      ensures mountpointSet ==> workspace
      ensures ok <==> CgroupReached(args, env)
      ensures ok ==> live == AllMounts(args.mountpoint, args.volumes) && AllJoinable(args.mountpoint, args.volumes)
      ensures !ok && env.mount.Quiet() ==> live == [] || live == [RootMount(args.mountpoint)]
    {
      hide Bounded, RolledBack, Joinable, Succeeds, Shows, MountsOf, Outside, RootPath, Unrefused;
      NothingIsBounded(args.mountpoint, args.volumes);
      live := [];
      assert table.mounts == table.mounts + live;
      ok, mountpointSet := InitWorkspace(args, env.workspace);
      if !ok {
        return;
      }
      ok := table.MountVolumes(args.mountpoint, args.volumes, env.mount);
      if ok {
        SucceedingIsJoinable(args.mountpoint, args.volumes, env.mount.attempts);
        live := AllMounts(args.mountpoint, args.volumes);
        AllMountsBounded(args.mountpoint, args.volumes);
      } else {
        live := RolledBackIsBounded(old(table.mounts), table.mounts, args.mountpoint, args.volumes);
        if env.mount.Quiet() {
          SameRest(old(table.mounts), live, [RootMount(args.mountpoint)]);
        }
      }
    }

    // ---------- network ----------

    /** release_used_ip for an address that was allocated from the table `before`. */
    method UndoAlloc(ip: string, io: Io, ghost before: seq<Record>, ghost o: Outcome) returns (ok: bool)
      requires AllocatedFrom(before, o, ip) && store.Image() == Some(o.records)
      modifies store
      ensures Granting(io) ==> ok && store.Image() == Some(before)
      ensures !Granting(io) ==> !ok && store.Image() == old(store.Image())
    {
      hide Apply, LoadImage, PrintImage, Storable, InetPton, InetNtop, ValidRecord;
      ReleaseUndoesAlloc(before, o, ip);
      ok := store.ReleaseUsedIp(DEFAULT_NETWORK, ip, io);
    }

    /** connect_container: an address, then the interface pair; each failure undoes what was done before it. */
    method ConnectContainer(name: string, env: ConnectEnv) returns (ok: bool, ip: string, ghost o: Outcome)
      modifies this`veth, store
      ensures !ok ==> ip == []
      ensures ok ==> store.Image() == Some(o.records) && veth == Owned && old(veth) == Absent
      ensures ok ==> old(store.Image()).Some? && AllocatedFrom(old(store.Image()).value, o, ip) && VethName(name).Some?
      ensures ok <==> ConnectGranted(name, old(store.Image()), old(veth), env)
      ensures ok ==> Published(Alloc(DEFAULT_NETWORK), old(store.Image()), env.alloc) == Some(o)
      ensures !ok && env.deleteOk && Granting(env.release) ==>
        veth == old(veth) && store.Image() == old(store.Image())
    {
      hide Apply, LoadImage, PrintImage, Storable, InetPton, InetNtop, ValidRecord, VethName;
      o := Outcome([], 0);
      ghost var file := store.file;
      var granted, text := store.AllocNewIp(DEFAULT_NETWORK, env.alloc);
      if granted == 0 {
        return false, [], o;
      }
      o := Published(Alloc(DEFAULT_NETWORK), old(store.Image()), env.alloc).value;
      ghost var before := old(store.Image()).value;
      AllocIsReadable(file, before, o);
      if !env.pidFound || VethName(name) == None || veth != Absent || !env.peerFree || !env.addOk {
        var ignored := UndoAlloc(text, env.release, before, o);
        return false, [], o;
      }
      // The pair exists, but is not marked as ours yet.
      veth := Foreign;
      if !env.aliasOk {
        if env.deleteOk {
          veth := Absent;
        }
        var ignored := UndoAlloc(text, env.release, before, o);
        return false, [], o;
      }
      veth := Owned;
      if !env.configOk {
        if env.deleteOk {
          veth := Absent;
        }
        var ignored := UndoAlloc(text, env.release, before, o);
        return false, [], o;
      }
      return true, text, o;
    }

    /** disconnect_container: only an interface with our alias is deleted. */
    method DisconnectContainer(name: string, deleteOk: bool) returns (ok: bool)
      modifies this`veth
      ensures VethName(name) == None ==> !ok && veth == old(veth)
      ensures VethName(name).Some? ==> ok == (old(veth) == Absent || (old(veth) == Owned && deleteOk))
      ensures VethName(name).Some? ==> veth == if ok then Absent else old(veth)
    {
      hide VethName;
      if VethName(name) == None {
        return false;
      }
      if veth == Absent {
        return true;
      }
      if veth != Owned || !deleteOk {
        return false;
      }
      veth := Absent;
      return true;
    }

    // ---------- metadata ----------

    /** create_container_info */
    method CreateContainerInfo(args: RunArgs, ip: string, env: InfoEnv) returns (info: Option<Info>)
      ensures info.Some? <==> env.startTimeOk && args.command != [] && InfoFits(args, ip, env)
      ensures info.Some? ==> info.value == RunInfo(args, ip, env)
    {
      hide PrintVolumes, Recordable;
      if args.command == [] || !env.startTimeOk || |env.id| >= 128 || |args.image| >= 128 ||
         |Join(args.command, ' ')| >= 512 || |env.created| != 19 || |ip| >= 16 || |args.name| >= 128 {
        return None;
      }
      var strings := CreateVolumeStrings(args.volumes);
      if strings == None {
        return None;
      }
      return Some(Info(env.pid, env.startTime, args.detach, env.id, args.image, Join(args.command, ' '), env.created,
                       "RUNNING", ip, args.name, strings.value));
    }

    /** write_container_info: a complete new file, or nothing. */
    method WriteMetadata(name: string, info: Info, writeOk: bool) returns (ok: bool)
      modifies this`metadata
      ensures ok == (ValidName(name, 127) && name == info.name && WriterAccepts(info) && writeOk)
      ensures metadata == if ok then Some(PrintInfo(info)) else old(metadata)
    {
      hide WriterAccepts, PrintInfo;
      var valid := ValidateName(name, 127);
      if !valid || name != info.name {
        return false;
      }
      var text := WriteContainerInfo(info);
      if text == None || !writeOk {
        return false;
      }
      metadata := text;
      return true;
    }

    // ---------- the run ----------

    /** The stages of docker_run from the workspace to the child in its cgroup. */
    method ProcessStages(args: RunArgs, env: RunEnv, cg: CgroupState)
      returns (ok: bool, attempt: Attempt, ghost live: Table)
      requires env.For(args) && Untouched(Now(), args) && !cg.created
      modifies this`workspace, this`child, this`readEnd, this`writeEnd, table, hierarchy, cg
      ensures MountsInProgress(old(Now()), Now(), args, attempt, live) && ProcessInProgress(Now(), attempt)
      ensures CgroupInProgress(old(Now()), Now(), args, env, cg)
      ensures attempt.ip == []
      ensures env.mount.Quiet() ==> QuietLive(args, live)
      ensures ok <==> ProcessGranted(old(Now()), args, env)
      ensures ok ==> attempt.pipeCreated && attempt.forked
      ensures attempt.mountpointSet == MountpointKnown(env.workspace) && (attempt.mountpointSet ==> workspace)
      ensures ok ==> attempt.mountpointSet
      ensures ok ==> live == AllMounts(args.mountpoint, args.volumes) && AllJoinable(args.mountpoint, args.volumes)
      ensures ok ==> hierarchy.directories == OtherDirectories(old(Now()), args, env) + {CgroupPath(args.name)}
    {
      hide Bounded, Joinable, AllMounts, ValidName, Unrefused, Outside, LoadImage, AllJoinable, CgroupPath;
      attempt := Attempt(FilesystemPrepare, false, false, false, []);
      var mountpointSet;
      ok, mountpointSet, live := PrepareFilesystem(args, env);
      attempt := attempt.(mountpointSet := mountpointSet);
      if !ok {
        return;
      }
      attempt := attempt.(stage := CgroupPrepare);
      ok := cg.Prepare(hierarchy, args.name, env.cgroup);
      if !ok {
        return;
      }
      attempt := attempt.(stage := SyncPipe);
      if !env.pipeOk {
        return false, attempt, live;
      }
      readEnd, writeEnd := true, true;
      attempt := attempt.(pipeCreated := true, stage := ProcessCreate);
      if !env.cloneOk {
        return false, attempt, live;
      }
      child := Alive;
      attempt := attempt.(forked := true, stage := CgroupApply);
      ok := cg.Apply(env.info.pid, env.applyOk);
    }

    /** The network and port mapping stages. */
    method NetworkStages(args: RunArgs, env: RunEnv, before: Attempt) returns (ok: bool, attempt: Attempt, ghost o: Outcome)
      requires |env.maps| == |args.maps| && Valid() && before.ip == []
      modifies this`veth, rules, store
      ensures Valid()
      ensures NetworkInProgress(old(Now()), Now(), args, attempt, o)
      ensures attempt == before.(stage := attempt.stage, ip := attempt.ip)
      ensures !ok && env.connect.deleteOk && Granting(env.connect.release) && attempt.ip == [] ==>
        veth == old(veth) && store.Image() == old(store.Image())
      ensures ok <==> ConnectGranted(args.name, old(store.Image()), old(veth), env.connect) && MapsGranted(env.maps)
      ensures ok ==> attempt.ip != [] && o.address <= UINT32_MAX && attempt.ip == InetNtop(o.address)
      ensures ok ==> Published(Alloc(DEFAULT_NETWORK), old(store.Image()), env.connect.alloc) == Some(o)
      ensures ok ==> rules.output == old(rules.output) + MapRules(attempt.ip, args.maps)
      ensures ok ==> rules.prerouting == old(rules.prerouting) + MapRules(attempt.ip, args.maps)
    {
      hide VethName, AllCanonical, InetNtop, InetPton, LoadImage, MapRules, Long, AllocatedFrom;
      attempt := before.(stage := NetworkPrepare);
      var ip;
      ok, ip, o := ConnectContainer(args.name, env.connect);
      if !ok {
        return;
      }
      AllocatedText(old(store.Image()).value, o, ip);
      attempt := attempt.(ip := ip, stage := PortMapping);
      ok := rules.SetPortMap(ip, args.maps, env.maps);
    }

    /** The metadata stage and the release of the child. */
    method ReleaseStages(args: RunArgs, env: RunEnv, before: Attempt) returns (ok: bool, attempt: Attempt)
      requires metadata == None && before.pipeCreated && readEnd && writeEnd
      modifies this`metadata, this`readEnd, this`writeEnd, this`badCloses
      ensures badCloses == old(badCloses)
      ensures attempt == before.(stage := attempt.stage, pipeCreated := attempt.pipeCreated)
      ensures readEnd == writeEnd && (!ok ==> readEnd == attempt.pipeCreated) && (ok ==> !readEnd)
      ensures ok <==> ReleaseGranted(args, before.ip, env)
      ensures ok ==> args.command != [] && metadata == Some(PrintInfo(RunInfo(args, before.ip, env.info)))
      ensures ok ==> WriterAccepts(RunInfo(args, before.ip, env.info)) && InfoFits(args, before.ip, env.info)
    {
      hide InfoFits, ValidName, WriterAccepts, PrintInfo, PrintVolumes;
      attempt := before.(stage := MetadataWrite);
      var info := CreateContainerInfo(args, before.ip, env.info);
      if info == None {
        return false, attempt;
      }
      ok := WriteMetadata(args.name, info.value, env.info.writeOk);
      if !ok {
        return;
      }
      attempt := attempt.(stage := ChildRelease);
      CloseReadEnd();
      if !env.releaseOk {
        CloseWriteEnd();
        return false, attempt.(pipeCreated := false);
      }
      CloseWriteEnd();
    }

    /** The network part of the cleanup: rules, interface, address, each whatever became of the one before. */
    method CleanupNetwork(args: RunArgs, attempt: Attempt, env: CleanupEnv, ghost b: Snapshot, ghost o: Outcome)
      requires Valid() && NetworkInProgress(b, Now(), args, attempt, o)
      modifies this`veth, rules, store
      ensures Valid()
      ensures attempt.ip == [] ==> veth == old(veth) && store.Image() == old(store.Image())
      ensures attempt.ip != [] && env.disconnectOk ==> veth == b.veth
      ensures attempt.ip != [] && Granting(env.release) ==> store.Image() == b.image
      ensures env.unset.Quiet() && (attempt.ip == [] || (NoRulesFor(b.output, attempt.ip) && NoRulesFor(b.prerouting, attempt.ip)))
        ==> rules.output == b.output && rules.prerouting == b.prerouting
    {
      hide AllCanonical, ForAddress, InetPton, VethName, Long, AllocatedFrom, LoadImage, NatRules.Others, Canonical;
      if attempt.ip == [] {
        return;
      }
      var ip := attempt.ip;
      if NoRulesFor(b.output, ip) && NoRulesFor(b.prerouting, ip) {
        RulesCanGo(b.output, rules.output, ip);
        RulesCanGo(b.prerouting, rules.prerouting, ip);
      }
      var ignored := rules.UnsetPortMap(ip, env.unset);
      ignored := DisconnectContainer(args.name, env.disconnectOk);
      ignored := UndoAlloc(ip, env.release, b.image.value, o);
    }

    /** The process part of the cleanup: kill and reap the child, then close both pipe ends. A refused kill is only logged;
        the wait then ends if the child ends by itself, as it does when the write end is already closed. */
    method ReleaseProcess(attempt: Attempt, env: CleanupEnv) returns (reaped: bool)
      requires ProcessInProgress(Now(), attempt)
      modifies this`child, this`readEnd, this`writeEnd, this`badCloses
      ensures reaped <==> !attempt.forked || env.killOk || env.childEnds || !attempt.pipeCreated
      ensures reaped ==> child != Alive && !readEnd && !writeEnd
      ensures !reaped ==> child == old(child) && readEnd == old(readEnd) && writeEnd == old(writeEnd)
      ensures badCloses == old(badCloses)
    {
      if attempt.forked {
        if !env.killOk && !env.childEnds && attempt.pipeCreated {
          return false;
        }
        child := Reaped;
      }
      if attempt.pipeCreated {
        CloseReadEnd();
        CloseWriteEnd();
      }
      return true;
    }

    /** The file system part of the cleanup: the workspace is only deleted when everything was unmounted. */
    method CleanupFilesystem(args: RunArgs, attempt: Attempt, env: CleanupEnv, ghost base: Table, ghost live: Table)
      returns (unmounted: bool)
      requires |env.teardown.refused| == |args.volumes| && Outside(base, RootPath(args.mountpoint))
      requires table.mounts == base + live && Bounded(live, args.mountpoint, args.volumes)
      requires !attempt.mountpointSet ==> live == []
      modifies this`workspace, this`unsafeDeletes, table
      ensures unsafeDeletes == old(unsafeDeletes)
      ensures unmounted ==> table.mounts == base && workspace == (old(workspace) && !env.removeOk)
      ensures !unmounted ==> workspace == old(workspace)
      ensures env.teardown.Quiet() && QuietLive(args, live) ==>
        table.mounts == base && (unmounted <==> !attempt.mountpointSet || AllJoinable(args.mountpoint, args.volumes))
    {
      hide Bounded, Joinable, AllMounts, Outside, AllJoinable, Teardown, Unrefused;
      unmounted := true;
      if attempt.mountpointSet {
        TeardownFacts(base, live, args, env.teardown);
        unmounted := table.TeardownMounts(args.mountpoint, args.volumes, env.teardown);
      } else {
        assert base + live == base;
      }
      if unmounted {
        RemoveWorkspace(args.mountpoint, env.removeOk);
      }
    }

    /** The rest of the cleanup: file system, cgroup, and the metadata unless a mount could not be undone. */
    method CleanupStorage(args: RunArgs, attempt: Attempt, cg: CgroupState, env: CleanupEnv,
                          ghost base: Table, ghost live: Table)
      requires |env.teardown.refused| == |args.volumes| && Outside(base, RootPath(args.mountpoint))
      requires table.mounts == base + live && Bounded(live, args.mountpoint, args.volumes)
      requires (!attempt.mountpointSet ==> live == []) && (cg.created ==> cg.path != [])
      modifies this`workspace, this`unsafeDeletes, this`metadata, table, hierarchy, cg
      ensures unsafeDeletes == old(unsafeDeletes)
      ensures hierarchy.directories == old(hierarchy.directories) || hierarchy.directories == old(hierarchy.directories) - old(cg.Owned())
      ensures env.rmdirOk ==> hierarchy.directories == old(hierarchy.directories) - old(cg.Owned())
      ensures metadata == None || metadata == old(metadata)
      ensures env.teardown.Quiet() && QuietLive(args, live) && env.removeOk && env.unlinkOk ==>
        var unmounted := !attempt.mountpointSet || AllJoinable(args.mountpoint, args.volumes);
        table.mounts == base && (unmounted ==> !workspace && metadata == None) &&
        (!unmounted ==> workspace == old(workspace) && metadata == old(metadata))
    {
      hide Bounded, Joinable, AllMounts, Outside, AllJoinable, Teardown, Unrefused;
      var unmounted := CleanupFilesystem(args, attempt, env, base, live);
      var cleaned := cg.Cleanup(hierarchy, env.rmdirOk);
      if unmounted && env.unlinkOk {
        metadata := None;
      }
    }

    /** cleanup_run_failure */
    method CleanupRunFailure(args: RunArgs, attempt: Attempt, cg: CgroupState, env: CleanupEnv, ghost run: RunEnv,
                             ghost b: Snapshot, ghost live: Table, ghost o: Outcome) returns (ended: bool)
      requires Valid() && |env.teardown.refused| == |args.volumes| && Outside(b.mounts, RootPath(args.mountpoint))
      requires run.For(args) && InProgress(b, Now(), args, attempt, live, o) && CgroupInProgress(b, Now(), args, run, cg)
      modifies this, table, rules, store, hierarchy, cg
      ensures Valid()
      ensures badCloses == old(badCloses) && unsafeDeletes == old(unsafeDeletes)
      ensures ended <==> !attempt.forked || env.killOk || env.childEnds || !attempt.pipeCreated
      ensures !ended ==> Now() == old(Now())
      ensures ended ==> child != Alive && !readEnd && !writeEnd
      ensures Meanwhile(b, args, run) <= hierarchy.directories
      ensures hierarchy.directories == old(hierarchy.directories) || hierarchy.directories == old(hierarchy.directories) - old(cg.Owned())
      ensures QuietCleanup(env) && QuietProgress(b, old(Now()), args, attempt, live) ==>
        Restored(b, Now(), args, attempt, old(Now()), old(cg.Owned()))
    {
      hide Bounded, Joinable, AllMounts, AllocatedFrom, VethName, AllCanonical, Unrefused, InetPton, RulesInProgress,
           Outside, NoRulesFor, AllJoinable, LoadImage, AllGranted, CgroupPath, RootMount;
      ended := ReleaseProcess(attempt, env);
      if !ended {
        return;
      }
      CleanupNetwork(args, attempt, env, b, o);
      CleanupStorage(args, attempt, cg, env, b.mounts, live);
    }

    /** All stages after the existence check. */
    method RunStages(args: RunArgs, env: RunEnv, cg: CgroupState)
      returns (done: bool, attempt: Attempt, ghost live: Table, ghost o: Outcome)
      requires env.For(args) && Valid() && Untouched(Now(), args) && !cg.created
      modifies this, table, rules, store, hierarchy, cg
      ensures Valid() && badCloses == old(badCloses) && unsafeDeletes == old(unsafeDeletes)
      ensures CgroupInProgress(old(Now()), Now(), args, env, cg)
      ensures !done ==> InProgress(old(Now()), Now(), args, attempt, live, o)
      ensures !done && env.Quiet() ==> QuietProgress(old(Now()), Now(), args, attempt, live)
      ensures attempt.mountpointSet == MountpointKnown(env.workspace) && (attempt.mountpointSet ==> workspace)
      ensures done <==> EveryStageGranted(old(Now()), args, env)
      ensures done ==> EverythingAcquired(old(Now()), Now(), args, env, o)
    {
      hide Bounded, Joinable, AllMounts, AllocatedFrom, VethName, WriterAccepts, PrintInfo, AllCanonical, RulesInProgress,
           InetNtop, InetPton, Outside, LoadImage, MapRules, AllJoinable, AllGranted, CgroupPath, Unrefused, InfoFits,
           ProcessGranted, ConnectGranted, MapsGranted, ReleaseGranted, CgroupReached, NoLong, MountsOf, Published;
      ghost var b := Now();
      o := Outcome([], 0);
      done, attempt, live := ProcessStages(args, env, cg);
      if !done {
        return;
      }
      done, attempt, o := NetworkStages(args, env, attempt);
      if !done {
        return;
      }
      done, attempt := ReleaseStages(args, env, attempt);
    }

    /** docker_run up to the point where the child may execute the command.

        A container that exists is refused without a trace. Otherwise the container is started exactly when every stage is
        granted. A failed run has killed its child and closed each pipe end exactly once, has removed no cgroup but its own,
        and has deleted no workspace with something mounted in it, however many cleanup actions were refused; if none was,
        everything it acquired is given back. The cleanup never ends when the kill is refused and the child goes on waiting. */
    method DockerRun(args: RunArgs, env: RunEnv) returns (result: RunResult, ip: string, ghost o: Outcome)
      requires env.For(args) && Valid() && child == NoChild && !readEnd && !writeEnd
      requires Outside(table.mounts, RootPath(args.mountpoint))
      modifies this, table, rules, store, hierarchy
      ensures Valid() && badCloses == old(badCloses) && unsafeDeletes == old(unsafeDeletes)
      ensures result.Refused? == (CgroupPath(args.name) in old(hierarchy.directories) || old(metadata).Some? || old(workspace))
      ensures result.Refused? ==> Now() == old(Now())
      ensures result.Started? <==> !result.Refused? && EveryStageGranted(old(Now()), args, env)
      ensures result.Blocked? ==> !env.cleanup.killOk && !env.cleanup.childEnds && child == Alive && readEnd && writeEnd
      ensures result.FailedAt? ==> child != Alive && !readEnd && !writeEnd
      ensures result.FailedAt? || result.Blocked? ==> Meanwhile(old(Now()), args, env) <= hierarchy.directories
      ensures result.FailedAt? && env.Quiet() ==> GivenBack(old(Now()), Now(), args, env, ip)
      ensures result.Started? ==> EverythingAcquired(old(Now()), Now(), args, env, o)
    {
      hide Bounded, Joinable, AllMounts, AllocatedFrom, VethName, WriterAccepts, PrintInfo, AllCanonical, RulesInProgress,
           InetNtop, InetPton, Outside, LoadImage, MapRules, AllJoinable, AllGranted, CgroupPath, Unrefused, NoRulesFor, InfoFits,
           EveryStageGranted, CgroupReached;
      o := Outcome([], 0);
      var present := ContainerExists(args.name);
      if present {
        return Refused, [], o;
      }
      var cg := new CgroupState();
      var done, attempt;
      ghost var live;
      done, attempt, live, o := RunStages(args, env, cg);
      if done {
        return Started, attempt.ip, o;
      }
      var ended := CleanupRunFailure(args, attempt, cg, env.cleanup, env, old(Now()), live, o);
      return if ended then FailedAt(attempt.stage) else Blocked(attempt.stage), attempt.ip, o;
    }
  }

  /** The mounts of a run that failed without a refused cleanup. */
  predicate QuietLive(args: RunArgs, live: Table)
  {
    live == [] || live == [RootMount(args.mountpoint)] ||
    (live == AllMounts(args.mountpoint, args.volumes) && AllJoinable(args.mountpoint, args.volumes))
  }

  ghost predicate QuietCleanup(env: CleanupEnv)
  {
    env.killOk && env.unset.Quiet() && env.disconnectOk && Granting(env.release) && env.teardown.Quiet() &&
    env.removeOk && env.rmdirOk && env.unlinkOk
  }

  /** With no rule for the address before, every rule for it now is a short mapping rule, and the others are as before. */
  lemma {:induction false} RulesCanGo(before: seq<Rule>, now: seq<Rule>, ip: string)
    requires RulesInProgress(before, now, ip) && NoRulesFor(before, ip)
    ensures NatRules.NoLong(now, ip) && NatRules.Others(now, ip) == before
  {
    hide ForAddress, Long;
    OthersNone(before, ip);
    forall i | 0 <= i < |now| ensures !(ForAddress(now[i], ip) && Long(now[i])) {
      assert now[i] in now;
    }
  }

  /** What the cleanup relies on about the mounts of a failed run. */
  lemma {:induction false} TeardownFacts(base: Table, live: Table, args: RunArgs, env: TeardownEnv)
    requires Outside(base, RootPath(args.mountpoint)) && Bounded(live, args.mountpoint, args.volumes)
    requires |env.refused| == |args.volumes|
    ensures var end := Teardown(base + live, args.mountpoint, args.volumes, env);
      && (end.ok ==> end.table == base)
      && (env.Quiet() && (live == [] || live == [RootMount(args.mountpoint)]) ==>
            end == Step(base, AllJoinable(args.mountpoint, args.volumes)))
      && (env.Quiet() && live == AllMounts(args.mountpoint, args.volumes) && AllJoinable(args.mountpoint, args.volumes) ==>
            end == Step(base, true))
  {
    hide Bounded, Joinable, AllMounts, Teardown, Outside, AllJoinable;
    if Teardown(base + live, args.mountpoint, args.volumes, env).ok {
      GuardDownMeansGone(base, live, args.mountpoint, args.volumes, env);
    }
    if env.Quiet() && (live == [] || live == [RootMount(args.mountpoint)]) {
      QuietTeardownOfRoot(base, live, args.mountpoint, args.volumes, env);
    }
    if env.Quiet() && live == AllMounts(args.mountpoint, args.volumes) && AllJoinable(args.mountpoint, args.volumes) {
      QuietTeardownOfAll(base, args.mountpoint, args.volumes, env);
    }
  }

  /** Everything a failed run acquired is given back. The one thing that may stay is the workspace directory: it is kept
      exactly when the mount point was known and some volume's path cannot be built, because the cleanup then takes the
      path for a mount it could not undo. */
  ghost predicate Restored(b: Snapshot, s: Snapshot, args: RunArgs, attempt: Attempt, during: Snapshot, owned: set<string>)
  {
    && s.mounts == b.mounts && s.image == b.image && s.veth == b.veth
    && s.directories == during.directories - owned
    && s.child != Alive && !s.readEnd && !s.writeEnd && s.metadata == None
    && (s.workspace <==> attempt.mountpointSet && during.workspace && !AllJoinable(args.mountpoint, args.volumes))
    && (attempt.ip == [] || (NoRulesFor(b.output, attempt.ip) && NoRulesFor(b.prerouting, attempt.ip)) ==>
          s.output == b.output && s.prerouting == b.prerouting)
  }

  /** Every field fits its array. */
  predicate InfoFits(args: RunArgs, ip: string, env: InfoEnv)
    requires args.command != []
  {
    |env.id| < 128 && |args.image| < 128 && |Join(args.command, ' ')| < 512 && |env.created| == 19 && |ip| < 16 &&
    |args.name| < 128 && forall i :: 0 <= i < |Recorded(args.volumes)| ==> Recordable(args.volumes[i])
  }

  function RunInfo(args: RunArgs, ip: string, env: InfoEnv): Info
    requires args.command != []
  {
    Info(env.pid, env.startTime, args.detach, env.id, args.image, Join(args.command, ' '), env.created,
         "RUNNING", ip, args.name, PrintVolumes(Recorded(args.volumes)))
  }

  /** The host before a run of a container that does not exist yet. */
  predicate Untouched(b: Snapshot, args: RunArgs)
  {
    b.child == NoChild && !b.readEnd && !b.writeEnd && b.metadata == None && !b.workspace &&
    CgroupPath(args.name) !in b.directories && Outside(b.mounts, RootPath(args.mountpoint))
  }

  ghost predicate MountsInProgress(b: Snapshot, s: Snapshot, args: RunArgs, attempt: Attempt, live: Table)
  {
    s.mounts == b.mounts + live && Bounded(live, args.mountpoint, args.volumes) && (!attempt.mountpointSet ==> live == [])
  }

  predicate ProcessInProgress(s: Snapshot, attempt: Attempt)
  {
    s.readEnd == attempt.pipeCreated && s.writeEnd == attempt.pipeCreated &&
    s.child == (if attempt.forked then Alive else NoChild)
  }

  ghost predicate NetworkInProgress(b: Snapshot, s: Snapshot, args: RunArgs, attempt: Attempt, o: Outcome)
  {
    && (attempt.ip == [] ==> s.output == b.output && s.prerouting == b.prerouting)
    && (attempt.ip != [] ==>
          && b.image.Some? && AllocatedFrom(b.image.value, o, attempt.ip) && s.image == Some(o.records)
          && s.veth == Owned && b.veth == Absent && VethName(args.name).Some? && InetPton(attempt.ip).Some?
          && RulesInProgress(b.output, s.output, attempt.ip) && RulesInProgress(b.prerouting, s.prerouting, attempt.ip))
  }

  /** What a failed run may have acquired, in terms of what its attempt records. */
  ghost predicate InProgress(b: Snapshot, s: Snapshot, args: RunArgs, attempt: Attempt, live: Table, o: Outcome)
  {
    && MountsInProgress(b, s, args, attempt, live) && ProcessInProgress(s, attempt)
    && NetworkInProgress(b, s, args, attempt, o)
    && (s.metadata.Some? ==> attempt.mountpointSet && live == AllMounts(args.mountpoint, args.volumes) &&
                             AllJoinable(args.mountpoint, args.volumes))
  }

  lemma {:induction false} AllocatedText(before: seq<Record>, o: Outcome, ip: string)
    requires AllocatedFrom(before, o, ip)
    ensures InetPton(ip) == Some(o.address) && ip == InetNtop(o.address) && ip != []
  {
    hide Storable, Apply, InetPton, InetNtop;
    NtopThenPton(o.address);
  }

  /** A chain that has gained at most mapping rules of the address. */
  predicate RulesInProgress(before: seq<Rule>, now: seq<Rule>, ip: string)
  {
    NatRules.Others(now, ip) == NatRules.Others(before, ip) && forall r :: r in now ==> r in before || !Long(r)
  }

  /** The directories there without this run: those that were there, and one that somebody else may have made. */
  function OtherDirectories(b: Snapshot, args: RunArgs, env: RunEnv): set<string>
  {
    b.directories + (if env.cgroup.appeared then {CgroupPath(args.name)} else {})
  }

  /** The run gets as far as its cgroup. */
  predicate CgroupReached(args: RunArgs, env: RunEnv)
    requires env.For(args)
  {
    env.workspace.Ready? && env.mount.sourcesPresent && AllSucceed(args.mountpoint, args.volumes, env.mount.attempts)
  }

  /** The directories of others as this run leaves them. */
  function Meanwhile(b: Snapshot, args: RunArgs, env: RunEnv): set<string>
    requires env.For(args)
  {
    if CgroupReached(args, env) then OtherDirectories(b, args, env) else b.directories
  }

  ghost predicate CgroupInProgress(b: Snapshot, s: Snapshot, args: RunArgs, env: RunEnv, cg: CgroupState)
    requires env.For(args)
    reads cg
  {
    s.directories == Meanwhile(b, args, env) + cg.Owned() && (cg.created ==> cg.path != [] && cg.path !in Meanwhile(b, args, env))
  }

  ghost predicate QuietProgress(b: Snapshot, s: Snapshot, args: RunArgs, attempt: Attempt, live: Table)
  {
    && QuietLive(args, live)
    && (attempt.ip == [] ==> s.image == b.image && s.veth == b.veth)
  }

  /** A failed run has given back everything. Rules come back exactly when there were none for its address before. The
      workspace directory may stay, but only if some volume's path cannot be built below the mount point; whether it
      does then depends on how far the workspace stage came. */
  ghost predicate GivenBack(b: Snapshot, s: Snapshot, args: RunArgs, env: RunEnv, ip: string)
    requires env.For(args)
  {
    && s.mounts == b.mounts && s.image == b.image && s.veth == b.veth && s.metadata == None
    && s.child != Alive && !s.readEnd && !s.writeEnd
    && s.directories == Meanwhile(b, args, env)
    && (s.workspace <==> MountpointKnown(env.workspace) && !AllJoinable(args.mountpoint, args.volumes))
    && (ip == [] || (NoRulesFor(b.output, ip) && NoRulesFor(b.prerouting, ip)) ==>
          s.output == b.output && s.prerouting == b.prerouting)
  }

  predicate MountpointKnown(env: WorkspaceEnv)
  {
    env.MountpointFailed? || env.OverlayFailed? || env.Ready?
  }

  /** The stages up to the child in its cgroup succeed. */
  predicate ProcessGranted(b: Snapshot, args: RunArgs, env: RunEnv)
    requires env.For(args)
  {
    && CgroupReached(args, env)
    && ValidName(args.name, 127) && CgroupPath(args.name) !in OtherDirectories(b, args, env)
    && env.cgroup.mkdirOk && env.cgroup.limitsOk && env.pipeOk && env.cloneOk && env.info.pid > 0 && env.applyOk
  }

  /** An address is handed out, an interface can be named, made and configured. */
  predicate ConnectGranted(name: string, image: Option<seq<Record>>, veth: Veth, env: ConnectEnv)
  {
    && Published(Alloc(DEFAULT_NETWORK), image, env.alloc).Some?
    && env.pidFound && VethName(name).Some? && veth == Absent && env.peerFree && env.addOk && env.aliasOk && env.configOk
  }

  predicate MapsGranted(maps: seq<NatRules.MapEnv>)
  {
    forall i :: 0 <= i < |maps| ==> maps[i].outputOk && maps[i].preroutingOk
  }

  /** The record can be made and written, and the byte can be sent. */
  predicate ReleaseGranted(args: RunArgs, ip: string, env: RunEnv)
  {
    && env.info.startTimeOk && args.command != [] && InfoFits(args, ip, env.info)
    && WriterAccepts(RunInfo(args, ip, env.info)) && ValidName(args.name, 127) && env.info.writeOk && env.releaseOk
  }

  /** Exactly when a run starts its container. */
  ghost predicate EveryStageGranted(b: Snapshot, args: RunArgs, env: RunEnv)
    requires env.For(args)
  {
    && ProcessGranted(b, args, env) && ConnectGranted(args.name, b.image, b.veth, env.connect) && MapsGranted(env.maps)
    && ReleaseGranted(args, GrantedAddress(b, env), env)
  }

  /** The text of the address that the run is given, if any. */
  function GrantedAddress(b: Snapshot, env: RunEnv): string
  {
    match Published(Alloc(DEFAULT_NETWORK), b.image, env.connect.alloc)
    case None => []
    case Some(o) => if o.address <= UINT32_MAX then InetNtop(o.address) else []
  }

  /** An address is handed out exactly when the file can be updated, the default network is there, and its pool is not
      full. */
  lemma {:induction false} AddressGrantedIff(file: Option<string>, image: Option<seq<Record>>, io: Io)
    requires image == (match file case None => Some([]) case Some(text) => LoadImage(text))
    ensures Published(Alloc(DEFAULT_NETWORK), image, io).Some? <==>
      Granting(io) && image.Some? && Find(image.value, DEFAULT_NETWORK) < |image.value| &&
      (var r := image.value[Find(image.value, DEFAULT_NETWORK)];
       ValidCidr(r.cidr) && Range(r).prefix <= 32 && |r.usedIps| < AddressPool.Capacity(Range(r)))
  {
    hide LoadImage, Storable, ValidRecord, Ipv4.ParseCidr, Ipv4.ValidCidr, AddressPool.AllocAddress;
    if image.Some? && Find(image.value, DEFAULT_NETWORK) < |image.value| {
      ImageIsStorable(file);
      var none: seq<Op> := [];
      CapacityOverHistory(image.value, none, DEFAULT_NETWORK);
      var r := image.value[Find(image.value, DEFAULT_NETWORK)];
      StoredIsValid(image.value, Find(image.value, DEFAULT_NETWORK));
      AddressPool.RecordFacts(r);
      AddressPool.UsedWithinCapacity(Range(r), r.usedIps);
    }
  }

  lemma {:induction false} StoredIsValid(records: seq<Record>, k: nat)
    requires Storable(records) && k < |records|
    ensures ValidRecord(records[k])
  {
  }

  /** What a started container has. */
  ghost predicate EverythingAcquired(b: Snapshot, s: Snapshot, args: RunArgs, env: RunEnv, o: Outcome)
  {
    && s.mounts == b.mounts + AllMounts(args.mountpoint, args.volumes) && AllJoinable(args.mountpoint, args.volumes)
    && s.workspace && s.child == Alive && !s.readEnd && !s.writeEnd
    && s.directories == OtherDirectories(b, args, env) + {CgroupPath(args.name)}
    && o.address <= UINT32_MAX
    && b.image.Some? && AllocatedFrom(b.image.value, o, InetNtop(o.address)) && s.image == Some(o.records)
    && s.veth == Owned && VethName(args.name).Some?
    && s.output == b.output + MapRules(InetNtop(o.address), args.maps)
    && s.prerouting == b.prerouting + MapRules(InetNtop(o.address), args.maps)
    && args.command != [] && s.metadata == Some(PrintInfo(RunInfo(args, InetNtop(o.address), env.info)))
    && WriterAccepts(RunInfo(args, InetNtop(o.address), env.info)) && InfoFits(args, InetNtop(o.address), env.info)
  }

  /** The address text stands for the address that this allocation on the default network handed out. */
  ghost predicate AllocatedFrom(before: seq<Record>, o: Outcome, ip: string)
  {
    Storable(before) && Apply(Alloc(DEFAULT_NETWORK), before) == Some(o) &&
    0 < o.address <= UINT32_MAX && ip == InetNtop(o.address) && ip != []
  }

  lemma {:induction false} AllocIsReadable(file: Option<string>, before: seq<Record>, o: Outcome)
    requires (if file.Some? then LoadImage(file.value) else Some([])) == Some(before)
    requires Apply(Alloc(DEFAULT_NETWORK), before) == Some(o) && 0 < o.address <= UINT32_MAX
    ensures LoadImage(PrintImage(o.records)) == Some(o.records)
    ensures AllocatedFrom(before, o, InetNtop(o.address))
  {
    hide Apply, LoadImage, PrintImage, Storable, InetNtop;
    ImageIsStorable(file);
    PublishedIsReadable(Alloc(DEFAULT_NETWORK), before);
    NtopText(o.address);
  }

  lemma {:induction false} ReleaseUndoesAlloc(before: seq<Record>, o: Outcome, ip: string)
    requires AllocatedFrom(before, o, ip)
    ensures InetPton(ip) == Some(o.address)
    ensures Apply(Release(DEFAULT_NETWORK, o.address), o.records) == Some(Outcome(before, 0))
    ensures LoadImage(PrintImage(before)) == Some(before)
  {
    hide Apply, LoadImage, PrintImage, ValidRecord, InetPton, InetNtop;
    NtopThenPton(o.address);
    AllocThenReleaseTable(before, DEFAULT_NETWORK);
    ImageRoundTrip(before);
  }

  lemma {:induction false} SameRest(base: Table, a: Table, b: Table)
    requires base + a == base + b
    ensures a == b
  {
    assert a == (base + a)[|base|..] && b == (base + b)[|base|..];
  }

  lemma {:induction false} NothingIsBounded(mountpoint: string, volumes: seq<Volume>)
    ensures Bounded([], mountpoint, volumes)
  {
  }

  /** A started container has a name of at least six characters: with a shorter one the network stage fails. */
  lemma {:induction false} StartedNamesAreLong(b: Snapshot, s: Snapshot, args: RunArgs, env: RunEnv, o: Outcome)
    requires EverythingAcquired(b, s, args, env, o)
    ensures |args.name| >= 6 && ValidName(args.name, 127)
  {
    VethNameDefined(args.name);
  }
}
