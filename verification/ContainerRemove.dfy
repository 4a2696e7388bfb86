/** Removing a container, retried after any number of partial failures (docker/container.c), together with the commands
    that rewrite its metadata meanwhile. */
module ContainerRemove {
  import opened Text
  import opened Numbers
  import opened Ipv4
  import opened Names
  import opened Paths
  import opened VolumeSpec
  import opened NetworkState
  import opened NetworkFile
  import opened NetworkTable
  import opened NetworkStore
  import opened StatusCodec
  import opened MetadataRoundTrip
  import opened MetadataVolumes
  import opened StatusInfo
  import opened Mounts
  import opened MountOrder
  import opened Volumes
  import opened NatRules
  import opened Cgroup
  import opened ContainerRun
  import opened WorkspaceGuard
  import opened StatusCommands

  /** What the system makes of one removal. */
  datatype RemoveEnv = RemoveEnv(
    readOk: bool, lookup: Lookup, refreshOk: bool,
    refused: nat -> bool, rootRefused: bool, unset: UnsetEnv, disconnectOk: bool, release: Io,
    removeOk: bool, rmdirOk: bool, unlinkOk: bool)
  {
    function TeardownFor(count: nat): (t: TeardownEnv)
      ensures |t.refused| == count
    {
      TeardownEnv(seq(count, i requires 0 <= i < count => refused(i)), rootRefused)
    }

    /** No cleanup action is refused. */
    ghost predicate Quiet()
    {
      readOk && refreshOk && (forall i: nat :: !refused(i)) && !rootRefused && unset.Quiet() && disconnectOk && Granting(release) &&
      removeOk && rmdirOk && unlinkOk
    }
  }

  /** The container as its run left it: its name, mount point, volumes, and the address it was given. */
  datatype Container = Container(name: string, mountpoint: string, volumes: seq<Volume>, address: nat)
  {
    function Ip(): string
      requires address <= UINT32_MAX
    {
      InetNtop(address)
    }
  }

  /** A container that a run can have started. */
  predicate Startable(c: Container)
  {
    VethName(c.name).Some? && 0 < c.address <= UINT32_MAX && AllJoinable(c.mountpoint, c.volumes) &&
    forall v :: v in c.volumes ==> ValidVolume(v)
  }

  /** A record that describes the container. */
  ghost predicate Describes(info: Info, c: Container)
  {
    Startable(c) && Sound(info) && info.name == c.name && info.ipAddr == c.Ip() &&
    info.volumes == PrintVolumes(Recorded(c.volumes))
  }

  ghost predicate Described(file: Option<string>, c: Container)
  {
    file.Some? && exists info :: Describes(info, c) && file.value == PrintInfo(info)
  }

  lemma {:induction false} ReadDescribed(file: Option<string>, c: Container, readOk: bool) returns (info: Info)
    requires Described(file, c)
    ensures Describes(info, c) && file == Some(PrintInfo(info))
    ensures ReadInfo(file, c.name, readOk) == if readOk then Some(info) else None
    ensures ParseVolumes(info.volumes) == Some(Recorded(c.volumes))
  {
    hide PrintInfo, ParseInfo, Sound, Startable, PrintVolumes, ParseVolumes, ValidVolume;
    info :| Describes(info, c) && file.value == PrintInfo(info);
    SoundIsReadable(info);
    RecordedVolumesParse(c);
    if !readOk {
      assert ReadInfo(file, c.name, readOk) == None;
    }
  }

  lemma {:induction false} RecordedVolumesParse(c: Container)
    requires Startable(c)
    ensures ParseVolumes(PrintVolumes(Recorded(c.volumes))) == Some(Recorded(c.volumes))
  {
    hide ValidVolume, ParseVolumes, PrintVolumes;
    forall v | v in Recorded(c.volumes) ensures ValidVolume(v) { assert v in c.volumes; }
    VolumesRoundTrip(Recorded(c.volumes));
  }

  // ---------- what is left of a container ----------

  /** The address is marked as used on the default network. */
  ghost predicate AddressHeld(image: Option<seq<Record>>, address: nat)
  {
    image.Some? && InUse(image.value, DEFAULT_NETWORK, address)
  }

  /** Nothing of the container is left on the host. */
  ghost predicate NothingLeftOf(s: Snapshot, c: Container, base: Table)
    requires c.address <= UINT32_MAX
  {
    s.mounts == base && !s.workspace && CgroupPath(c.name) !in s.directories && s.veth == Absent &&
    !AddressHeld(s.image, c.address) && NoRulesFor(s.output, c.Ip()) && NoRulesFor(s.prerouting, c.Ip())
  }

  /** The invariant of a started container: its own mounts are within the bounds of what its metadata names, its rules
      can be deleted, its metadata, while it exists, describes it; and once the metadata is gone, so is everything. */
  ghost predicate Tracked(s: Snapshot, c: Container, base: Table, live: Table)
  {
    && Startable(c) && Outside(base, RootPath(c.mountpoint))
    && s.mounts == base + live && LeftOver(live, c.mountpoint, c.volumes) && GuardHolds(c.mountpoint, c.volumes)
    && s.veth != Foreign
    && NoLong(s.output, c.Ip()) && NoLong(s.prerouting, c.Ip())
    && (s.metadata.Some? ==> Described(s.metadata, c))
    && (s.metadata == None ==> NothingLeftOf(s, c, base))
  }

  /** What clean_container_runtime relies on, apart from the mounts. */
  ghost predicate Cleanable(s: Snapshot, c: Container)
  {
    Startable(c) && s.veth != Foreign && NoLong(s.output, c.Ip()) && NoLong(s.prerouting, c.Ip())
  }

  // ---------- clean_container_runtime ----------

  /** The network part of clean_container_runtime: each step only when the one before succeeded. */
  method CleanNetwork(h: Host, name: string, ip: string, env: RemoveEnv, ghost c: Container) returns (ok: bool)
    requires h.Valid() && Startable(c) && name == c.name && ip == c.Ip()
    modifies h`veth, h.rules, h.store
    ensures h.Valid()
    ensures Cleanable(old(h.Now()), c) ==> Cleanable(h.Now(), c)
    ensures ok ==> NoRulesFor(h.rules.output, c.Ip()) && NoRulesFor(h.rules.prerouting, c.Ip()) && h.veth == Absent
    ensures ok ==> !AddressHeld(h.store.Image(), c.address)
    ensures DefaultNetworkPresent(old(h.store.Image())) ==> DefaultNetworkPresent(h.store.Image())
    ensures env.Quiet() && DefaultNetworkPresent(old(h.store.Image())) && Cleanable(old(h.Now()), c) ==> ok
  {
    hide VethName, InetNtop, InetPton, LoadImage, PrintImage, ForAddress, Long, AllCanonical, NatRules.Others, Apply, Storable,
         AllJoinable, ValidVolume, AllGranted;
    ghost var out, pre := h.rules.output, h.rules.prerouting;
    NtopThenPton(c.address);
    NtopText(c.address);
    var unset := h.rules.UnsetPortMap(ip, env.unset);
    if Cleanable(old(h.Now()), c) {
      FewerRules(out, h.rules.output, c.Ip());
      FewerRules(pre, h.rules.prerouting, c.Ip());
    }
    if !unset {
      return false;
    }
    NoneLeft(out, c.Ip());
    NoneLeft(pre, c.Ip());
    var disconnected := h.DisconnectContainer(name, env.disconnectOk);
    if !disconnected {
      return false;
    }
    ReleaseFrees(h.store.file, h.store.Image(), c.address, env.release);
    ok := h.store.ReleaseUsedIp(DEFAULT_NETWORK, ip, env.release);
  }

  lemma {:induction false} FewerRules(before: seq<Rule>, after: seq<Rule>, ip: string)
    requires NoLong(before, ip) && forall r :: r in after ==> r in before
    ensures NoLong(after, ip)
  {
    hide ForAddress, Long;
    forall i | 0 <= i < |after| ensures !(ForAddress(after[i], ip) && Long(after[i])) {
      assert after[i] in after;
    }
  }

  lemma {:induction false} NoneLeft(before: seq<Rule>, ip: string)
    ensures NoRulesFor(NatRules.Others(before, ip), ip)
  {
    hide ForAddress;
    forall r | r in NatRules.Others(before, ip) ensures !ForAddress(r, ip) {
      OthersHas(before, ip, r);
    }
  }

  ghost predicate DefaultNetworkPresent(image: Option<seq<Record>>)
  {
    image.Some? && Find(image.value, DEFAULT_NETWORK) < |image.value|
  }

  /** A published release leaves the address free and the network present. */
  lemma {:induction false} ReleaseFrees(file: Option<string>, image: Option<seq<Record>>, address: nat, io: Io)
    requires image == (match file case None => Some([]) case Some(text) => LoadImage(text))
    requires 0 < address <= UINT32_MAX
    ensures var outcome := Published(Release(DEFAULT_NETWORK, address), image, io);
      outcome.Some? ==>
        var image' := LoadImage(PrintImage(outcome.value.records));
        !AddressHeld(image', address) && DefaultNetworkPresent(image')
    ensures DefaultNetworkPresent(image) && Granting(io) ==> Published(Release(DEFAULT_NETWORK, address), image, io).Some?
  {
    hide LoadImage, PrintImage, Storable, ValidRecord;
    var op := Release(DEFAULT_NETWORK, address);
    if Published(op, image, io).Some? {
      ImageIsStorable(file);
      PublishedIsReadable(op, image.value);
      var k := Find(image.value, DEFAULT_NETWORK);
      FindAfterUpdate(image.value, k, Revoke(image.value[k], address), DEFAULT_NETWORK);
    }
  }

  /** The workspace, unless a mount may be live, and the cgroup. */
  method RemoveStorage(h: Host, name: string, mountpoint: string, unmounted: bool, env: RemoveEnv) returns (ok: bool)
    modifies h`workspace, h`unsafeDeletes, h.hierarchy
    ensures h.unsafeDeletes == old(h.unsafeDeletes) +
      (if unmounted && !Outside(h.table.mounts, RootPath(mountpoint)) then 1 else 0)
    ensures h.workspace == (old(h.workspace) && !(unmounted && env.removeOk))
    ensures ok && unmounted ==> !h.workspace && CgroupPath(name) !in h.hierarchy.directories
    ensures old(h.hierarchy.directories) - {CgroupPath(name)} <= h.hierarchy.directories <= old(h.hierarchy.directories)
    ensures env.removeOk && env.rmdirOk ==> ok
  {
    hide Outside, CgroupPath;
    ok := true;
    if unmounted {
      h.RemoveWorkspace(mountpoint, env.removeOk);
      ok := !h.workspace;
    }
    var removed := RemoveCgroup(h.hierarchy, name, env.rmdirOk);
    ok := ok && removed;
  }

  /** clean_container_runtime: everything the metadata names, each step whatever became of the others, except that the
      workspace is kept while a teardown reports a failure, and the metadata while anything else failed. For a tracked
      container this is safe and keeps it tracked; in general the workspace is deleted under a mount exactly when the
      teardown reports success and has left one. */
  method CleanContainerRuntime(h: Host, name: string, mountpoint: string, info: Info, env: RemoveEnv,
                               ghost c: Container, ghost base: Table, ghost live: Table) returns (ok: bool, ghost left: Table)
    requires h.Valid() && h.metadata.Some?
    requires Describes(info, c) && name == c.name && mountpoint == c.mountpoint
    modifies h, h.table, h.rules, h.store, h.hierarchy
    ensures h.Valid()
    ensures var end := Teardown(old(h.table.mounts), mountpoint, Recorded(c.volumes), env.TeardownFor(|Recorded(c.volumes)|));
      h.table.mounts == end.table &&
      h.unsafeDeletes == old(h.unsafeDeletes) + (if end.ok && !Outside(end.table, RootPath(mountpoint)) then 1 else 0)
    ensures ok <==> h.metadata == None
    ensures !ok ==> h.metadata == old(h.metadata)
    ensures DefaultNetworkPresent(old(h.store.Image())) ==> DefaultNetworkPresent(h.store.Image())
    ensures Tracked(old(h.Now()), c, base, live) ==> Tracked(h.Now(), c, base, left) && h.unsafeDeletes == old(h.unsafeDeletes)
    ensures var smooth := Tracked(old(h.Now()), c, base, live) && |c.volumes| <= MAX_VOLUMES && env.Quiet() &&
                          DefaultNetworkPresent(old(h.store.Image()));
      smooth ==> left == [] && (OnePassEnough(live, c.mountpoint, c.volumes) ==> ok)
  {
    hide VethName, InetNtop, InetPton, LoadImage, PrintImage, PrintInfo, ForAddress, Long, AllCanonical, ValidVolume, LeftOver,
         AllJoinable, PartOf, Teardown, Sound, ParseVolumes, PrintVolumes, CgroupPath, Outside, AllGranted, ReadInfo, GuardHolds,
         OnePassEnough, AllMounts, Unrefused;
    left := live;
    RecordedVolumesParse(c);
    var parsed := ParseVolumeStrings(info.volumes);
    if parsed == None {
      return false, live;
    }
    if Tracked(h.Now(), c, base, live) {
      left := TeardownLeaves(base, live, mountpoint, c.volumes, env.TeardownFor(|parsed.value|));
    }
    TeardownIsQuiet(env, |parsed.value|);
    var unmounted := h.table.TeardownMounts(mountpoint, parsed.value, env.TeardownFor(|parsed.value|));
    ok := unmounted;
    NtopText(c.address);
    if info.ipAddr != [] {
      var network := CleanNetwork(h, name, info.ipAddr, env, c);
      if !network {
        ok := false;
      }
    }
    assert base + [] == base;
    var removed := RemoveStorage(h, name, mountpoint, unmounted, env);
    ok := ok && removed;
    if ok {
      if env.unlinkOk {
        h.metadata := None;
      } else {
        ok := false;
      }
    }
  }

  /** The consequence of a guard that does not hold: when earlier removals have left mounts on which a teardown reports
      success too early, the next removal deletes the workspace under them. */
  method RemoveTooEarly(h: Host, name: string, mountpoint: string, info: Info, env: RemoveEnv,
                        ghost c: Container, ghost base: Table, ghost live: Table) returns (ok: bool)
    requires h.Valid() && h.metadata.Some?
    requires Describes(info, c) && name == c.name && mountpoint == c.mountpoint && env.Quiet()
    requires h.table.mounts == base + live && Outside(base, RootPath(mountpoint)) && LeftOver(live, mountpoint, c.volumes)
    requires var end := Pass(live, NamedPaths(mountpoint, c.volumes), NoRefusals(1 + |Recorded(c.volumes)|));
      end.ok && end.table != []
    modifies h, h.table, h.rules, h.store, h.hierarchy
    ensures h.unsafeDeletes == old(h.unsafeDeletes) + 1 && !Outside(h.table.mounts, RootPath(mountpoint))
  {
    hide PrintInfo, LeftOver, GuardHolds, Startable, Sound, PrintVolumes, Pass, AllCanonical, DefaultNetworkPresent, NoLong,
         RemoveEnv.Quiet, Tracked, OnePassEnough;
    TooEarlyIsUnsafe(base, live, mountpoint, c.volumes, env);
    ghost var left;
    ok, left := CleanContainerRuntime(h, name, mountpoint, info, env, c, base, live);
  }

  lemma {:induction false} TooEarlyIsUnsafe(base: Table, live: Table, mountpoint: string, volumes: seq<Volume>, env: RemoveEnv)
    requires Outside(base, RootPath(mountpoint)) && LeftOver(live, mountpoint, volumes) && env.Quiet()
    requires var end := Pass(live, NamedPaths(mountpoint, volumes), NoRefusals(1 + |Recorded(volumes)|));
      end.ok && end.table != []
    ensures var end := Teardown(base + live, mountpoint, Recorded(volumes), env.TeardownFor(|Recorded(volumes)|));
      end.ok && !Outside(end.table, RootPath(mountpoint))
  {
    hide Pass, AllMounts, UnsetEnv.Quiet, AfterPasses, Recorded;
    var root, paths, refused := RootPath(mountpoint), NamedPaths(mountpoint, volumes), NoRefusals(1 + |Recorded(volumes)|);
    var all := AllMounts(mountpoint, volumes);
    var rounds: seq<seq<bool>> :| Rounds(rounds, |paths|) && live == AfterPasses(all, paths, rounds);
    MountsAre(mountpoint, volumes);
    NamedAreBelow(mountpoint, volumes);
    PassesKeepNesting(all, root, paths, rounds);
    PassKeepsNesting(live, root, paths, refused);
    PassWithBase(base, live, root, paths, refused);
    var left := Pass(live, paths, refused).table;
    assert (base + left)[|base|] == left[0];
    var quiet := env.TeardownFor(|Recorded(volumes)|);
    assert [quiet.rootRefused] + quiet.refused == refused;
  }

  lemma {:induction false} TeardownIsQuiet(env: RemoveEnv, count: nat)
    ensures env.Quiet() ==> env.TeardownFor(count).Quiet()
  {
  }

  /** remove_cgroup: whoever made the directory; an absent one is fine. */
  method RemoveCgroup(hierarchy: Hierarchy, name: string, rmdirOk: bool) returns (ok: bool)
    modifies hierarchy
    ensures ok == (rmdirOk || CgroupPath(name) !in old(hierarchy.directories))
    ensures hierarchy.directories == if ok then old(hierarchy.directories) - {CgroupPath(name)} else old(hierarchy.directories)
  {
    if CgroupPath(name) in hierarchy.directories {
      if !rmdirOk {
        return false;
      }
      hierarchy.directories := hierarchy.directories - {CgroupPath(name)};
    }
    return true;
  }

  // ---------- rm, and the commands between a run and the last rm ----------

  /** A refresh will not find the container running. */
  predicate NotRunning(info: Option<Info>, lookup: Lookup)
  {
    info.Some? && (info.value.status != "RUNNING" || RefreshVerdict(info.value, lookup) == MarkExited)
  }

  lemma {:induction false} DescribesWithStatus(info: Info, c: Container, status: string)
    requires Describes(info, c) && ValidStatus(status)
    ensures Describes(WithStatus(info, status), c) && Described(Some(PrintInfo(WithStatus(info, status))), c)
    ensures Current(Some(PrintInfo(WithStatus(info, status))), c.name) == Some(WithStatus(info, status))
  {
    hide PrintInfo, Sound, Startable, ValidStatus, ReadInfo;
    SoundWithStatus(info, status);
    SoundIsReadable(WithStatus(info, status));
  }

  /** What every reader makes of the file of a started container. */
  lemma {:induction false} CurrentOf(file: Option<string>, c: Container) returns (info: Info)
    requires Described(file, c)
    ensures Describes(info, c) && file == Some(PrintInfo(info)) && Current(file, c.name) == Some(info) && Sound(info)
    ensures info.pid > 0 && info.name == c.name
  {
    hide PrintInfo, ParseInfo, Startable, ParseVolumes, PrintVolumes, ReadInfo;
    info := ReadDescribed(file, c, true);
    assert WriterAccepts(info);
  }

  /** docker_rm for one container.

      A container that is running is not touched, whatever state the host is in. For a tracked container success is
      reported exactly when the metadata is gone, and then nothing of the container is left. Without refusals a container
      that is not running loses all its mounts, and with them everything else unless a busy mount had to be reported; one
      more such rm finishes the job. */
  method DockerRm(h: Host, name: string, mountpoint: string, env: RemoveEnv,
                  ghost c: Container, ghost base: Table, ghost live: Table) returns (ok: bool, ghost left: Table)
    requires h.Valid() && name == c.name && mountpoint == c.mountpoint
    requires h.metadata.Some? ==> Described(h.metadata, c)
    modifies h, h.table, h.rules, h.store, h.hierarchy
    ensures h.Valid()
    ensures Tracked(old(h.Now()), c, base, live) ==> Tracked(h.Now(), c, base, left) && h.unsafeDeletes == old(h.unsafeDeletes)
    ensures Tracked(old(h.Now()), c, base, live) ==> (ok <==> h.metadata == None)
    ensures Tracked(old(h.Now()), c, base, live) && ok ==> NothingLeftOf(h.Now(), c, base)
    ensures Tracked(old(h.Now()), c, base, live) && old(h.metadata) == None ==> ok
    ensures AliveRecord(Current(old(h.metadata), name), env.lookup) ==>
      !ok && h.Now() == old(h.Now()) && h.unsafeDeletes == old(h.unsafeDeletes)
    ensures DefaultNetworkPresent(old(h.store.Image())) ==> DefaultNetworkPresent(h.store.Image())
    ensures var smooth := Tracked(old(h.Now()), c, base, live) && |c.volumes| <= MAX_VOLUMES && env.Quiet() && DefaultNetworkPresent(old(h.store.Image())) &&
                          NotRunning(Current(old(h.metadata), name), env.lookup);
      (smooth && OnePassEnough(live, c.mountpoint, c.volumes) ==> ok) &&
      (smooth && !ok ==> left == [] && NotRunning(Current(h.metadata, name), LookupFailed))
  {
    hide VethName, InetNtop, InetPton, LoadImage, PrintImage, PrintInfo, ForAddress, Long, AllCanonical, ValidVolume,
         AllJoinable, PartOf, Sound, ParseVolumes, PrintVolumes, CgroupPath, Outside, AllGranted, ReadInfo, LeftOver, GuardHolds,
         OnePassEnough, AllMounts, Unrefused, Startable;
    left := live;
    NoFile(name);
    var present := h.ContainerExists(name);
    if !present {
      return true, left;
    }
    ghost var recorded;
    if h.metadata.Some? {
      recorded := CurrentOf(h.metadata, c);
    }
    ReadIsCurrent(h.metadata, name, env.readOk);
    var read := ReadInfo(h.metadata, name, env.readOk);
    if read == None {
      return false, left;
    }
    assert recorded == read.value;
    DescribesWithStatus(recorded, c, "EXITED");
    var failed, info := StatusCommands.Refresh(h, name, read.value, env.lookup, env.refreshOk);
    if failed {
      return false, left;
    }
    if info.status == "RUNNING" {
      return false, left;
    }
    ok, left := CleanContainerRuntime(h, name, mountpoint, info, env, c, base, live);
  }

  /** A second rm after one without refusals. */
  method RemoveTwice(h: Host, name: string, mountpoint: string, first: RemoveEnv, second: RemoveEnv,
                     ghost c: Container, ghost base: Table, ghost live: Table)
    requires h.Valid() && Tracked(h.Now(), c, base, live) && name == c.name && mountpoint == c.mountpoint
    requires |c.volumes| <= MAX_VOLUMES && DefaultNetworkPresent(h.store.Image()) && first.Quiet() && second.Quiet()
    requires h.metadata == None || NotRunning(Current(h.metadata, name), first.lookup)
    modifies h, h.table, h.rules, h.store, h.hierarchy
    ensures NothingLeftOf(h.Now(), c, base) && h.metadata == None && h.unsafeDeletes == old(h.unsafeDeletes)
  {
    hide LeftOver, GuardHolds, PrintInfo, ReadInfo, Startable, CgroupPath, NoRulesFor, AddressHeld, RemoveEnv.Quiet, Outside, NoLong,
         AllCanonical, DefaultNetworkPresent, EveryCutPasses;
    var ok, left := DockerRm(h, name, mountpoint, first, c, base, live);
    if !ok {
      ok, left := DockerRm(h, name, mountpoint, second, c, base, left);
    }
  }

  /** What may happen to a container between its run and the rm that finally succeeds. */
  datatype Command =
    | Look(readOk: bool, lookup: Lookup, writeOk: bool)
    | Stop(time: int, stop: StopEnv)
    | ForegroundExit(readOk: bool, writeOk: bool)
    | Remove(env: RemoveEnv)

  method Perform(h: Host, name: string, mountpoint: string, command: Command,
                 ghost c: Container, ghost base: Table, ghost live: Table) returns (ghost left: Table)
    requires h.Valid() && Tracked(h.Now(), c, base, live) && name == c.name && mountpoint == c.mountpoint
    modifies h, h.table, h.rules, h.store, h.hierarchy
    ensures h.Valid() && Tracked(h.Now(), c, base, left) && h.unsafeDeletes == old(h.unsafeDeletes)
    ensures DefaultNetworkPresent(old(h.store.Image())) ==> DefaultNetworkPresent(h.store.Image())
  {
    hide LeftOver, GuardHolds, PrintInfo, ReadInfo, Startable, CgroupPath, NoRulesFor, AddressHeld, RemoveEnv.Quiet, Outside, NoLong,
         AllCanonical, DefaultNetworkPresent, OnePassEnough, NotRunning, Sound, PrintVolumes;
    left := live;
    NoFile(name);
    if h.metadata.Some? {
      ghost var info := CurrentOf(h.metadata, c);
      DescribesWithStatus(info, c, "EXITED");
      DescribesWithStatus(info, c, "STOPPED");
    }
    match command
    case Look(readOk, lookup, writeOk) =>
      ReadIsCurrent(h.metadata, name, readOk);
      var info := ReadInfo(h.metadata, name, readOk);
      if info.Some? {
        var failed, after := StatusCommands.Refresh(h, name, info.value, lookup, writeOk);
      }
    case Stop(time, stop) =>
      var ok, stopped, observed := DockerStop(h, name, time, stop);
    case ForegroundExit(readOk, writeOk) =>
      ReadIsCurrent(h.metadata, name, readOk);
      var ok := UpdateStatus(h, name, "EXITED", readOk, writeOk);
    case Remove(env) =>
      var ok;
      ok, left := DockerRm(h, name, mountpoint, env, c, base, live);
  }

  /** Any sequence of refresh, stop, exit and rm, with any failures: as long as anything of the container remains, its
      metadata remains, and no workspace is ever deleted with something mounted in it. */
  method Session(h: Host, name: string, mountpoint: string, commands: seq<Command>,
                 ghost c: Container, ghost base: Table, ghost live: Table) returns (ghost left: Table)
    requires h.Valid() && Tracked(h.Now(), c, base, live) && name == c.name && mountpoint == c.mountpoint
    modifies h, h.table, h.rules, h.store, h.hierarchy
    ensures h.Valid() && Tracked(h.Now(), c, base, left) && h.unsafeDeletes == old(h.unsafeDeletes)
    ensures h.metadata == None ==> NothingLeftOf(h.Now(), c, base)
    ensures DefaultNetworkPresent(old(h.store.Image())) ==> DefaultNetworkPresent(h.store.Image())
  {
    hide LeftOver, GuardHolds, Startable, CgroupPath, NoRulesFor, AddressHeld, Outside, NoLong, AllCanonical, DefaultNetworkPresent,
         Described;
    left := live;
    for i := 0 to |commands|
      invariant h.Valid() && Tracked(h.Now(), c, base, left) && h.unsafeDeletes == old(h.unsafeDeletes)
      invariant DefaultNetworkPresent(old(h.store.Image())) ==> DefaultNetworkPresent(h.store.Image())
    {
      left := Perform(h, name, mountpoint, commands[i], c, base, left);
    }
  }

  /** However many commands have gone wrong before, once the process is gone two rms without refusals leave nothing. */
  method SessionThenRemove(h: Host, name: string, mountpoint: string, commands: seq<Command>,
                           first: RemoveEnv, second: RemoveEnv, ghost c: Container, ghost base: Table, ghost live: Table)
    requires h.Valid() && Tracked(h.Now(), c, base, live) && name == c.name && mountpoint == c.mountpoint
    requires |c.volumes| <= MAX_VOLUMES && DefaultNetworkPresent(h.store.Image()) && first.Quiet() && second.Quiet()
    requires first.lookup.NotFound?
    modifies h, h.table, h.rules, h.store, h.hierarchy
    ensures NothingLeftOf(h.Now(), c, base) && h.metadata == None && h.unsafeDeletes == old(h.unsafeDeletes)
  {
    hide LeftOver, GuardHolds, PrintInfo, ReadInfo, Startable, CgroupPath, NoRulesFor, AddressHeld, RemoveEnv.Quiet, Outside, NoLong,
         AllCanonical, DefaultNetworkPresent;
    ghost var left := Session(h, name, mountpoint, commands, c, base, live);
    if h.metadata.Some? {
      ghost var info := CurrentOf(h.metadata, c);
    }
    RemoveTwice(h, name, mountpoint, first, second, c, base, left);
  }

  // ---------- from the run to the removal ----------

  /** What C strings, the clock and the option parser guarantee about the values of a run. */
  predicate CValues(args: RunArgs, env: InfoEnv)
    requires args.command != []
  {
    env.pid <= INT_MAX && env.startTime <= UINT64_MAX && 0 <= args.detach <= 1 &&
    '\0' !in args.image && '\0' !in Join(args.command, ' ') && '\0' !in env.id && '\0' !in env.created &&
    KeepsLine(env.id) && KeepsLine(env.created) &&
    forall v :: v in args.volumes ==> ValidVolume(v) && '\0' !in v.host && '\0' !in v.container
  }

  lemma {:induction false} VolumeStringsFit(volumes: seq<Volume>)
    requires forall i :: 0 <= i < |Recorded(volumes)| ==> Recordable(volumes[i])
    requires forall v :: v in volumes ==> '\0' !in v.host && '\0' !in v.container
    ensures forall s :: s in PrintVolumes(Recorded(volumes)) ==> CString(s, VOLUME_SIZE) && s != []
  {
    hide PrintVolumes;
    var recorded := Recorded(volumes);
    forall s | s in PrintVolumes(recorded) ensures CString(s, VOLUME_SIZE) && s != [] {
      var i :| 0 <= i < |recorded| && PrintVolumes(recorded)[i] == s;
      assert s == PrintVolume(volumes[i]) && Recordable(volumes[i]) && volumes[i] in volumes;
      assert '\0' !in "ro" && '\0' !in "rw";
    }
  }

  lemma {:induction false} AddressKeepsLine(address: nat)
    requires address <= UINT32_MAX
    ensures KeepsLine(InetNtop(address)) && CString(InetNtop(address), 16)
  {
    hide InetNtop;
    NtopText(address);
    StripIdentity(InetNtop(address));
  }

  /** The record a run writes is sound and describes the container. */
  lemma {:induction false} RunInfoDescribes(b: Snapshot, s: Snapshot, args: RunArgs, env: RunEnv, o: Outcome)
    requires EverythingAcquired(b, s, args, env, o) && CValues(args, env.info)
    ensures Described(s.metadata, Container(args.name, args.mountpoint, args.volumes, o.address))
    ensures Startable(Container(args.name, args.mountpoint, args.volumes, o.address))
    ensures Sound(RunInfo(args, InetNtop(o.address), env.info)) && ValidName(args.name, 127)
  {
    hide InetNtop, PrintInfo, AllMounts, AllocatedFrom, VethName, MapRules, ValidVolume, PrintVolumes, Recordable, AllJoinable,
         CgroupPath, Strip;
    var c := Container(args.name, args.mountpoint, args.volumes, o.address);
    var info := RunInfo(args, InetNtop(o.address), env.info);
    StartedNamesAreLong(b, s, args, env, o);
    assert 0 < o.address by { assert AllocatedFrom(b.image.value, o, InetNtop(o.address)); AddressPositive(b, o); }
    VolumeStringsFit(args.volumes);
    AddressKeepsLine(o.address);
    NameIsClean(args.name);
    assert '\0' !in "RUNNING" && |"RUNNING"| == 7;
    assert CRecord(info) && Faithful(info);
    assert Describes(info, c);
  }

  lemma {:induction false} AddressPositive(b: Snapshot, o: Outcome)
    requires o.address <= UINT32_MAX && b.image.Some? && AllocatedFrom(b.image.value, o, InetNtop(o.address))
    ensures 0 < o.address
  {
    hide InetNtop;
  }

  lemma {:induction false} NameIsClean(name: string)
    requires ValidName(name, 127)
    ensures CString(name, 128)
  {
  }

  /** What every reader sees of a container that has just been started: it is RUNNING, as the process that was cloned, and
      the rest of the record is what the run was asked for and given. */
  lemma {:induction false} StartedRecord(b: Snapshot, s: Snapshot, args: RunArgs, env: RunEnv, o: Outcome)
    requires EverythingAcquired(b, s, args, env, o) && CValues(args, env.info)
    ensures ReadInfo(s.metadata, args.name, true).Some?
    ensures var info := ReadInfo(s.metadata, args.name, true).value;
      info.status == "RUNNING" && info.pid == env.info.pid > 0 && info.pidStartTime == env.info.startTime &&
      info.detach == args.detach && info.containerId == env.info.id && info.image == args.image &&
      info.command == Join(args.command, ' ') && info.created == env.info.created &&
      info.ipAddr == InetNtop(o.address) && info.name == args.name &&
      |info.volumes| == (if |args.volumes| <= 32 then |args.volumes| else 32) &&
      forall i :: 0 <= i < |info.volumes| ==> info.volumes[i] == PrintVolume(args.volumes[i])
  {
    hide InetNtop, PrintInfo, AllMounts, AllocatedFrom, VethName, MapRules, ValidVolume, PrintVolume, Recordable, AllJoinable,
         CgroupPath, CRecord, ReadInfo, ValidName, CValues;
    RunInfoDescribes(b, s, args, env, o);
    SoundIsReadable(RunInfo(args, InetNtop(o.address), env.info));
  }

  /** The process that was cloned keeps the record RUNNING, whatever the record says: its start time is the recorded one. */
  lemma {:induction false} StartedIsAlive(b: Snapshot, s: Snapshot, args: RunArgs, env: RunEnv, o: Outcome)
    requires EverythingAcquired(b, s, args, env, o) && CValues(args, env.info)
    ensures AliveRecord(Current(s.metadata, args.name), Found(env.info.startTime))
  {
    hide EverythingAcquired, CValues, ReadInfo;
    StartedRecord(b, s, args, env, o);
  }

  lemma {:induction false} AcquiredCommand(b: Snapshot, s: Snapshot, args: RunArgs, env: RunEnv, o: Outcome)
    requires EverythingAcquired(b, s, args, env, o)
    ensures args.command != []
  {
    hide AllMounts, MapRules, VethName, AllocatedFrom;
  }

  /** A run followed at once by an rm that finds the process of the container, by its start time: nothing is removed. */
  method RunThenRemove(h: Host, args: RunArgs, run: RunEnv, env: RemoveEnv)
    returns (result: RunResult, removed: bool, ghost o: Outcome)
    requires run.For(args) && h.Valid() && h.child == NoChild && !h.readEnd && !h.writeEnd
    requires Outside(h.table.mounts, RootPath(args.mountpoint)) && (args.command == [] || CValues(args, run.info))
    requires env.lookup == Found(run.info.startTime)
    modifies h, h.table, h.rules, h.store, h.hierarchy
    ensures result.Started? <==>
      CgroupPath(args.name) !in old(h.hierarchy.directories) && old(h.metadata) == None && !old(h.workspace) &&
      EveryStageGranted(old(h.Now()), args, run)
    ensures result.Started? ==> !removed && EverythingAcquired(old(h.Now()), h.Now(), args, run, o)
    ensures h.unsafeDeletes == old(h.unsafeDeletes)
  {
    hide EverythingAcquired, EveryStageGranted, CValues, ReadInfo, Outside, AllCanonical, GivenBack, Meanwhile, Tracked, Described,
         AliveRecord, NotRunning;
    ghost var b := h.Now();
    removed := false;
    var ip;
    result, ip, o := h.DockerRun(args, run);
    if result.Started? {
      ghost var s := h.Now();
      assert args.command != [] by { AcquiredCommand(b, s, args, run, o); }
      StartedIsAlive(b, s, args, run, o);
      RunInfoDescribes(b, s, args, run, o);
      ghost var c := Container(args.name, args.mountpoint, args.volumes, o.address);
      ghost var left;
      removed, left := DockerRm(h, args.name, args.mountpoint, env, c, b.mounts, []);
    }
  }

  /** Below its mount point a started container has the root file system and, on top of it, each of its volumes, from the
      host directory that was asked for and in the mode that was asked for. */
  lemma {:induction false} StartedMounts(b: Snapshot, s: Snapshot, args: RunArgs, env: RunEnv, o: Outcome)
    requires EverythingAcquired(b, s, args, env, o)
    ensures |s.mounts| == |b.mounts| + 1 + |args.volumes| && b.mounts <= s.mounts
    ensures s.mounts[|b.mounts|].target == Components(args.mountpoint)
    ensures forall i :: 0 <= i < |args.volumes| ==> Shows(s.mounts[|b.mounts| + 1 + i], args.mountpoint, args.volumes[i])
  {
    hide MapRules, VethName, PrintInfo, AllocatedFrom, WriterAccepts, InfoFits;
    forall i | 0 <= i < |args.volumes| ensures Shows(s.mounts[|b.mounts| + 1 + i], args.mountpoint, args.volumes[i]) {
      MountShows(args.mountpoint, args.volumes[i]);
      assert s.mounts[|b.mounts| + 1 + i] == MountsOf(args.mountpoint, args.volumes)[i];
    }
  }

  /** A started container is tracked from the start, so everything proved about sessions holds for it; with at most 32
      volumes its metadata names all its mounts. */
  lemma {:induction false} StartedIsTracked(b: Snapshot, s: Snapshot, args: RunArgs, env: RunEnv, o: Outcome)
    requires EverythingAcquired(b, s, args, env, o) && CValues(args, env.info)
    requires Outside(b.mounts, RootPath(args.mountpoint)) && GuardHolds(args.mountpoint, args.volumes)
    requires NoLong(b.output, InetNtop(o.address)) && NoLong(b.prerouting, InetNtop(o.address))
    ensures var c := Container(args.name, args.mountpoint, args.volumes, o.address);
      Tracked(s, c, b.mounts, AllMounts(args.mountpoint, args.volumes))
  {
    hide InetNtop, PrintInfo, AllMounts, AllocatedFrom, VethName, MapRules, ValidVolume, AllJoinable, CgroupPath, LeftOver,
         GuardHolds, Described, Startable, InfoFits, WriterAccepts, ForAddress, Long, CValues;
    RunInfoDescribes(b, s, args, env, o);
    NothingRemovedYet(args.mountpoint, args.volumes);
    MapRulesBelong(InetNtop(o.address), args.maps);
    var added := MapRules(InetNtop(o.address), args.maps);
    forall i | 0 <= i < |added| ensures !Long(added[i]) { assert added[i] in added; }
  }
}
