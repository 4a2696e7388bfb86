/** docker/volumes.c over the kernel's mount table: mounting a container's volumes with rollback, and unmounting them. */
module Volumes {
  import opened Text
  import opened Paths
  import opened VolumeSpec
  import opened Mounts

  const PATH_BUFFER: nat := 1024

  function RootPath(mountpoint: string): Path
  {
    Components(mountpoint)
  }

  /** Where a volume is mounted. */
  function VolumeTarget(mountpoint: string, v: Volume): Path
  {
    RootPath(mountpoint) + Components(v.container)
  }

  /** The joined path fits the buffer and passes the checks. */
  predicate Joinable(mountpoint: string, v: Volume)
  {
    JoinRootfs(mountpoint, v.container, PATH_BUFFER).Some?
  }

  predicate AllJoinable(mountpoint: string, volumes: seq<Volume>)
  {
    forall i :: 0 <= i < |volumes| ==> Joinable(mountpoint, volumes[i])
  }

  /** For a volume from the command line only the length can be in the way: the parser admits container paths that do not
      fit behind the mount point. */
  lemma {:induction false} JoinableIff(mountpoint: string, v: Volume)
    requires ValidVolume(v) && mountpoint != [] && mountpoint[0] == '/' && mountpoint[|mountpoint| - 1] != '/'
    ensures Joinable(mountpoint, v) <==> |mountpoint| + |v.container| < PATH_BUFFER
  {
  }

  /** Such a volume exists below every mount point: one with the longest container path that the parser admits. */
  lemma {:induction false} LongVolumeIsNotJoinable(mountpoint: string) returns (v: Volume)
    requires mountpoint != [] && mountpoint[0] == '/' && mountpoint[|mountpoint| - 1] != '/'
    ensures ValidVolume(v) && !Joinable(mountpoint, v)
  {
    var name := seq(1022, i => 'a');
    v := Volume("/data", "/" + name, false);
    assert '/' !in name && name[0] == 'a';
    OneComponent(name);
    JoinableIff(mountpoint, v);
  }

  lemma {:induction false} OneComponent(name: string)
    requires name != [] && '/' !in name
    ensures Components("/" + name) == [name]
  {
    ComponentsSkipSlash("/" + name);
    assert ("/" + name)[1..] == name;
    ComponentsTakeFirst(name);
    assert IndexOf(name, '/') == |name| && name[|name|..] == [] && name[..|name|] == name;
    NoComponentsIff([]);
  }

  function VolumePath(mountpoint: string, v: Volume): Option<Path>
  {
    if Joinable(mountpoint, v) then Some(VolumeTarget(mountpoint, v)) else None
  }

  function VolumePaths(mountpoint: string, volumes: seq<Volume>): (r: seq<Option<Path>>)
    ensures |r| == |volumes|
    ensures forall i :: 0 <= i < |r| ==> r[i] == VolumePath(mountpoint, volumes[i])
  {
    if volumes == [] then []
    else VolumePaths(mountpoint, volumes[..|volumes| - 1]) + [VolumePath(mountpoint, volumes[|volumes| - 1])]
  }

  function MountOf(mountpoint: string, v: Volume): Mount
  {
    Mount(v.host, VolumeTarget(mountpoint, v), v.readOnly)
  }

  /** The mount makes the volume's host directory visible at its container path below the mount point, and lets the
      container write exactly when the volume is not read-only. */
  predicate Shows(m: Mount, mountpoint: string, v: Volume)
  {
    m.source == v.host && m.target == Components(mountpoint) + Components(v.container) && (m.readOnly <==> v.readOnly)
  }

  lemma {:induction false} MountShows(mountpoint: string, v: Volume)
    ensures Shows(MountOf(mountpoint, v), mountpoint, v)
  {
  }

  function MountsOf(mountpoint: string, volumes: seq<Volume>): (r: Table)
    ensures |r| == |volumes|
    ensures forall i :: 0 <= i < |r| ==> r[i] == MountOf(mountpoint, volumes[i])
  {
    if volumes == [] then []
    else MountsOf(mountpoint, volumes[..|volumes| - 1]) + [MountOf(mountpoint, volumes[|volumes| - 1])]
  }

  lemma {:induction false} PathsAreTargets(mountpoint: string, volumes: seq<Volume>)
    requires AllJoinable(mountpoint, volumes)
    ensures VolumePaths(mountpoint, volumes) == Targets(MountsOf(mountpoint, volumes))
  {
    hide Joinable, MountOf;
    if volumes != [] {
      var n := |volumes| - 1;
      PathsAreTargets(mountpoint, volumes[..n]);
      var all := MountsOf(mountpoint, volumes);
      assert all[..n] == MountsOf(mountpoint, volumes[..n]);
      assert all[n].target == VolumeTarget(mountpoint, volumes[n]) by { TargetOf(mountpoint, volumes[n]); }
    }
  }

  lemma {:induction false} TargetOf(mountpoint: string, v: Volume)
    ensures MountOf(mountpoint, v).target == VolumeTarget(mountpoint, v)
  {
  }

  lemma {:induction false} PathsAreBelow(mountpoint: string, volumes: seq<Volume>)
    ensures AllBelow(VolumePaths(mountpoint, volumes), RootPath(mountpoint))
    ensures forall i :: 0 <= i < |volumes| ==> RootPath(mountpoint) <= MountsOf(mountpoint, volumes)[i].target
  {
  }

  /** A volume sits on the root itself exactly when its container path has no component. */
  lemma {:induction false} AtRootIff(mountpoint: string, v: Volume)
    ensures VolumeTarget(mountpoint, v) == RootPath(mountpoint) <==> Components(v.container) == []
  {
    assert |VolumeTarget(mountpoint, v)| == |RootPath(mountpoint)| + |Components(v.container)|;
  }

  // ---------- the mount table as the code uses it ----------

  /** What the system makes of one volume. */
  datatype Attempt = Mounted | NoSource | NoDirectory | MountFailed | ReadOnlyFailed(cleanupRefused: bool)

  /** How mounting goes: whether all sources exist at first, each attempt, and the refusals of the rollback. */
  datatype MountEnv = MountEnv(sourcesPresent: bool, attempts: seq<Attempt>, refused: seq<bool>)
  {
    predicate For(volumes: seq<Volume>)
    {
      |attempts| == |volumes| && |refused| == |volumes|
    }

    /** No cleanup action is refused. */
    predicate Quiet()
    {
      Unrefused(refused) &&
      forall i :: 0 <= i < |attempts| ==> attempts[i].ReadOnlyFailed? ==> !attempts[i].cleanupRefused
    }
  }

  /** Whether the i-th volume can be mounted. */
  predicate Succeeds(mountpoint: string, v: Volume, attempt: Attempt)
  {
    Joinable(mountpoint, v) && (attempt.Mounted? || (attempt.ReadOnlyFailed? && !v.readOnly))
  }

  /** The refusals of a teardown. */
  datatype TeardownEnv = TeardownEnv(refused: seq<bool>, rootRefused: bool)
  {
    predicate Quiet()
    {
      Unrefused(refused) && !rootRefused
    }
  }

  function Teardown(table: Table, mountpoint: string, volumes: seq<Volume>, env: TeardownEnv): Step
    requires |env.refused| == |volumes|
  {
    Pass(table, TeardownPaths(RootPath(mountpoint), VolumePaths(mountpoint, volumes)), [env.rootRefused] + env.refused)
  }

  lemma {:induction false} PassCons(table: Table, p: Option<Path>, paths: seq<Option<Path>>, r: bool, refused: seq<bool>)
    requires |refused| == |paths|
    ensures var rest := Pass(table, paths, refused);
      var last := UnmountStep(rest.table, p, r);
      Pass(table, [p] + paths, [r] + refused) == Step(last.table, rest.ok && last.ok)
    decreases |paths|
  {
    hide UnmountStep;
    if paths == [] {
      assert [p] + paths == [p] && [r] + refused == [r] && [p][..0] == [] && [r][..0] == [];
      assert Pass(UnmountStep(table, p, r).table, [], []) == Step(UnmountStep(table, p, r).table, true);
    } else {
      var n := |paths| - 1;
      assert ([p] + paths)[..n + 1] == [p] + paths[..n] && ([r] + refused)[..n + 1] == [r] + refused[..n];
      PassCons(UnmountStep(table, paths[n], refused[n]).table, p, paths[..n], r, refused[..n]);
    }
  }

  predicate AllSucceed(mountpoint: string, volumes: seq<Volume>, attempts: seq<Attempt>)
    requires |attempts| == |volumes|
  {
    forall i :: 0 <= i < |volumes| ==> Succeeds(mountpoint, volumes[i], attempts[i])
  }

  class MountTable {
    var mounts: Table

    constructor (mounts: Table)
      ensures this.mounts == mounts
    {
      this.mounts := mounts;
    }

    /** mount(2) with MS_BIND. */
    method Bind(source: string, target: Path)
      modifies this
      ensures mounts == old(mounts) + [Mount(source, target, false)]
    {
      mounts := mounts + [Mount(source, target, false)];
    }

    /** The read-only remount of the mount just made. */
    method Remount(ghost m: Mount)
      requires mounts != [] && mounts[|mounts| - 1] == m
      modifies this
      ensures mounts == old(mounts)[..|old(mounts)| - 1] + [m.(readOnly := true)]
    {
      var last := |mounts| - 1;
      mounts := mounts[..last] + [mounts[last].(readOnly := true)];
    }

    /** umount(2) and the errno test of its callers: EINVAL and ENOENT do not count as failures. */
    method Umount(path: Path, refused: bool) returns (ok: bool)
      modifies this
      ensures Step(mounts, ok) == UnmountStep(old(mounts), Some(path), refused)
    {
      if refused {
        return false;
      }
      match Unmount(mounts, path)
      case NotAMount => ok := true;
      case Busy => ok := false;
      case Gone(rest) =>
        mounts := rest;
        ok := true;
    }

    /** umount_volumes */
    method UmountVolumes(mountpoint: string, volumes: seq<Volume>, refused: seq<bool>) returns (ok: bool)
      requires |refused| == |volumes|
      modifies this
      ensures Step(mounts, ok) == Pass(old(mounts), VolumePaths(mountpoint, volumes), refused)
    {
      hide Joinable, Unmount;
      ok := true;
      var i := |volumes|;
      ghost var paths := VolumePaths(mountpoint, volumes);
      assert paths[..i] == paths && refused[..i] == refused;
      while i > 0
        invariant 0 <= i <= |volumes|
        invariant var rest := Pass(mounts, paths[..i], refused[..i]);
          Pass(old(mounts), paths, refused) == Step(rest.table, ok && rest.ok)
      {
        i := i - 1;
        assert paths[..i + 1][..i] == paths[..i] && refused[..i + 1][..i] == refused[..i];
        assert paths[i] == VolumePath(mountpoint, volumes[i]);
        if !Joinable(mountpoint, volumes[i]) {
          ok := false;
        } else {
          var done := Umount(VolumeTarget(mountpoint, volumes[i]), refused[i]);
          if !done {
            ok := false;
          }
        }
      }
    }

    /** The rollback of mount_volumes: unmount the volumes before the failed one, last first, ignoring errors. */
    method Rollback(mountpoint: string, volumes: seq<Volume>, refused: seq<bool>)
      requires |refused| == |volumes| && AllJoinable(mountpoint, volumes)
      modifies this
      ensures mounts == Pass(old(mounts), VolumePaths(mountpoint, volumes), refused).table
    {
      var ignored := UmountVolumes(mountpoint, volumes, refused);
    }

    /** The mount part of both cleanups: the volumes, then the root, whatever became of the volumes. */
    method TeardownMounts(mountpoint: string, volumes: seq<Volume>, env: TeardownEnv) returns (ok: bool)
      requires |env.refused| == |volumes|
      modifies this
      ensures Step(mounts, ok) == Teardown(old(mounts), mountpoint, volumes, env)
    {
      var volumesOk := UmountVolumes(mountpoint, volumes, env.refused);
      var rootOk := Umount(RootPath(mountpoint), env.rootRefused);
      PassCons(old(mounts), Some(RootPath(mountpoint)), VolumePaths(mountpoint, volumes), env.rootRefused, env.refused);
      return volumesOk && rootOk;
    }

    /** One round of the mounting loop: nothing is left of a volume that could not be mounted, unless undoing the
        mount after a failed remount is refused. */
    method MountVolume(mountpoint: string, v: Volume, attempt: Attempt) returns (ok: bool)
      modifies this
      ensures ok == Succeeds(mountpoint, v, attempt)
      ensures ok ==> mounts == old(mounts) + [MountOf(mountpoint, v)]
      ensures ok ==> Shows(mounts[|mounts| - 1], mountpoint, v)
      ensures !ok && mounts != old(mounts) ==>
        Joinable(mountpoint, v) && attempt == ReadOnlyFailed(true) && mounts == old(mounts) + [MountOf(mountpoint, v).(readOnly := false)]
    {
      hide Joinable;
      if attempt.NoSource? || !Joinable(mountpoint, v) || attempt.NoDirectory? || attempt.MountFailed? {
        return false;
      }
      ghost var before := mounts;
      Bind(v.host, VolumeTarget(mountpoint, v));
      if v.readOnly {
        ghost var m := Mount(v.host, VolumeTarget(mountpoint, v), false);
        assert mounts[..|mounts| - 1] == before;
        if attempt.ReadOnlyFailed? {
          UnmountLast(before, m);
          var ignored := Umount(VolumeTarget(mountpoint, v), attempt.cleanupRefused);
          return false;
        }
        Remount(m);
      }
      return true;
    }

    /** mount_volumes: all n volumes, or, when no cleanup is refused, none. */
    method MountVolumes(mountpoint: string, volumes: seq<Volume>, env: MountEnv) returns (ok: bool)
      requires env.For(volumes)
      modifies this
      ensures ok <==> env.sourcesPresent && AllSucceed(mountpoint, volumes, env.attempts)
      ensures ok ==> mounts == old(mounts) + MountsOf(mountpoint, volumes)
      ensures ok ==> |mounts| == |old(mounts)| + |volumes|
      ensures ok ==> forall i :: 0 <= i < |volumes| ==> Shows(mounts[|old(mounts)| + i], mountpoint, volumes[i])
      ensures !ok && env.Quiet() ==> mounts == old(mounts)
      ensures !ok ==> RolledBack(old(mounts), mounts, mountpoint, volumes)
    {
      hide Joinable, Succeeds, MountOf, Pass, RolledBack, Shows;
      if !env.sourcesPresent {
        NothingMounted(mounts, mountpoint, volumes);
        return false;
      }
      for i := 0 to |volumes|
        invariant mounts == old(mounts) + MountsOf(mountpoint, volumes[..i])
        invariant forall j :: 0 <= j < i ==> Succeeds(mountpoint, volumes[j], env.attempts[j])
      {
        assert volumes[..i + 1][..i] == volumes[..i];
        var mounted := MountVolume(mountpoint, volumes[i], env.attempts[i]);
        if !mounted {
          SucceedingIsJoinable(mountpoint, volumes[..i], env.attempts);
          RollbackOutcome(old(mounts), mounts, mountpoint, volumes, i, env.refused[..i]);
          Rollback(mountpoint, volumes[..i], env.refused[..i]);
          return false;
        }
        assert mounts == old(mounts) + MountsOf(mountpoint, volumes[..i + 1]);
      }
      assert volumes[..|volumes|] == volumes;
      forall i | 0 <= i < |volumes| ensures Shows(mounts[|old(mounts)| + i], mountpoint, volumes[i]) {
        MountShows(mountpoint, volumes[i]);
      }
      return true;
    }
  }

  /** The mounts that can be on the table when the rollback for the i-th volume starts. */
  predicate Tried(before: Table, during: Table, mountpoint: string, volumes: seq<Volume>, i: nat)
  {
    i < |volumes| && AllJoinable(mountpoint, volumes[..i]) &&
    (during == before + MountsOf(mountpoint, volumes[..i]) ||
     (Joinable(mountpoint, volumes[i]) &&
      during == before + (MountsOf(mountpoint, volumes[..i]) + [MountOf(mountpoint, volumes[i]).(readOnly := false)])))
  }

  /** What a failed mount_volumes leaves: a rollback from some point, with some refusals. */
  ghost predicate RolledBack(before: Table, after: Table, mountpoint: string, volumes: seq<Volume>)
  {
    after == before ||
    exists i: nat, during: Table, refused: seq<bool> ::
      Tried(before, during, mountpoint, volumes, i) && |refused| == i &&
      after == Pass(during, VolumePaths(mountpoint, volumes[..i]), refused).table
  }

  lemma {:induction false} NothingMounted(mounts: Table, mountpoint: string, volumes: seq<Volume>)
    ensures RolledBack(mounts, mounts, mountpoint, volumes)
  {
  }

  lemma {:induction false} RollbackOutcome(before: Table, during: Table, mountpoint: string, volumes: seq<Volume>,
                                           i: nat, refused: seq<bool>)
    requires Tried(before, during, mountpoint, volumes, i) && |refused| == i && AllJoinable(mountpoint, volumes[..i])
    ensures var after := Pass(during, VolumePaths(mountpoint, volumes[..i]), refused).table;
      RolledBack(before, after, mountpoint, volumes) &&
      (during == before + MountsOf(mountpoint, volumes[..i]) && Unrefused(refused) ==> after == before)
  {
    if during == before + MountsOf(mountpoint, volumes[..i]) && Unrefused(refused) {
      PathsAreTargets(mountpoint, volumes[..i]);
      PassUndoesMounts(before, MountsOf(mountpoint, volumes[..i]), refused);
    }
  }

  lemma {:induction false} SucceedingIsJoinable(mountpoint: string, volumes: seq<Volume>, attempts: seq<Attempt>)
    requires |volumes| <= |attempts|
    requires forall j :: 0 <= j < |volumes| ==> Succeeds(mountpoint, volumes[j], attempts[j])
    ensures AllJoinable(mountpoint, volumes)
  {
  }

  // ---------- tearing down what a run has mounted ----------

  function RootMount(mountpoint: string): Mount
  {
    Mount("overlay", RootPath(mountpoint), false)
  }

  function AllMounts(mountpoint: string, volumes: seq<Volume>): Table
  {
    [RootMount(mountpoint)] + MountsOf(mountpoint, volumes)
  }

  /** What may be mounted while a run is being undone: the container's own mounts, well nested, with no more of them on
      the root than the root mount and the volumes that name the root. */
  predicate Bounded(live: Table, mountpoint: string, volumes: seq<Volume>)
  {
    WellNested(live, RootPath(mountpoint)) &&
    AtRoot(live, RootPath(mountpoint)) <= 1 + PathsAtRoot(VolumePaths(mountpoint, volumes), RootPath(mountpoint))
  }

  /** A guard that stays down means that nothing of the container is mounted any more. */
  lemma {:induction false} GuardDownMeansGone(base: Table, live: Table, mountpoint: string, volumes: seq<Volume>, env: TeardownEnv)
    requires Outside(base, RootPath(mountpoint)) && Bounded(live, mountpoint, volumes)
    requires |env.refused| == |volumes| && Teardown(base + live, mountpoint, volumes, env).ok
    ensures Teardown(base + live, mountpoint, volumes, env).table == base
  {
    PathsAreBelow(mountpoint, volumes);
    TeardownIsCompleteIff(base, live, RootPath(mountpoint), VolumePaths(mountpoint, volumes), [env.rootRefused] + env.refused);
  }

  lemma {:induction false} TargetsCons(m: Mount, mounts: Table)
    ensures Targets([m] + mounts) == [Some(m.target)] + Targets(mounts)
  {
    if mounts == [] {
      var none: Table := [];
      assert [m] + mounts == [m] && [m][..0] == none && Targets(none) == [];
    } else {
      assert ([m] + mounts)[..|mounts|] == [m] + mounts[..|mounts| - 1];
      TargetsCons(m, mounts[..|mounts| - 1]);
    }
  }

  /** Undoing a complete set of mounts without refusals restores the table, and the guard stays down. */
  lemma {:induction false} QuietTeardownOfAll(base: Table, mountpoint: string, volumes: seq<Volume>, env: TeardownEnv)
    requires |env.refused| == |volumes| && env.Quiet() && AllJoinable(mountpoint, volumes)
    ensures Teardown(base + AllMounts(mountpoint, volumes), mountpoint, volumes, env) == Step(base, true)
  {
    PathsAreTargets(mountpoint, volumes);
    TargetsCons(RootMount(mountpoint), MountsOf(mountpoint, volumes));
    PassUndoesMounts(base, AllMounts(mountpoint, volumes), [env.rootRefused] + env.refused);
  }

  lemma {:induction false} QuietPassFromRoot(live: Table, root: Path, paths: seq<Option<Path>>, refused: seq<bool>)
    requires live == [] || (|live| == 1 && live[0].target == root)
    requires AllBelow(paths, root) && |refused| == |paths| && Unrefused(refused)
    ensures var own := Pass(live, paths, refused);
      (own.table == live || own.table == []) && (own.ok <==> None !in paths)
    decreases |paths|
  {
    if paths != [] {
      var n := |paths| - 1;
      assert paths == paths[..n] + [paths[n]];
      var next := UnmountStep(live, paths[n], refused[n]);
      if paths[n].Some? && live != [] {
        assert live[..0] == [];
        assert LastCover(live, paths[n].value) == 0;
      }
      QuietPassFromRoot(next.table, root, paths[..n], refused[..n]);
    }
  }

  lemma {:induction false} UnmountRootLast(live: Table, mountpoint: string)
    requires live == [] || live == [RootMount(mountpoint)]
    ensures UnmountStep(live, Some(RootPath(mountpoint)), false) == Step([], true)
  {
    if live != [] {
      var none: Table := [];
      assert live == none + [RootMount(mountpoint)];
      UnmountLast(none, RootMount(mountpoint));
    }
  }

  lemma {:induction false} AllPathsBuilt(mountpoint: string, volumes: seq<Volume>)
    ensures None in VolumePaths(mountpoint, volumes) <==> !AllJoinable(mountpoint, volumes)
  {
    hide Joinable;
    var paths := VolumePaths(mountpoint, volumes);
    assert forall i :: 0 <= i < |paths| ==> (paths[i] == None <==> !Joinable(mountpoint, volumes[i]));
  }

  /** Undoing no more than the root mount, without refusals: nothing is left, but the guard goes up when some volume
      path cannot even be built. */
  lemma {:induction false} QuietTeardownOfRoot(base: Table, live: Table, mountpoint: string, volumes: seq<Volume>, env: TeardownEnv)
    requires Outside(base, RootPath(mountpoint)) && (live == [] || live == [RootMount(mountpoint)])
    requires |env.refused| == |volumes| && env.Quiet()
    ensures Teardown(base + live, mountpoint, volumes, env) == Step(base, AllJoinable(mountpoint, volumes))
  {
    hide Joinable, Pass, UnmountStep, AllJoinable;
    var root, paths := RootPath(mountpoint), VolumePaths(mountpoint, volumes);
    PathsAreBelow(mountpoint, volumes);
    AllPathsBuilt(mountpoint, volumes);
    QuietPassFromRoot(live, root, paths, env.refused);
    UnmountRootLast(Pass(live, paths, env.refused).table, mountpoint);
    PassCons(live, Some(root), paths, env.rootRefused, env.refused);
    assert AllBelow([Some(root)] + paths, root);
    PassWithBase(base, live, root, [Some(root)] + paths, [env.rootRefused] + env.refused);
    var empty: Table := [];
    assert base + empty == base;
  }

  lemma {:induction false} PathsAtRootPrefix(mountpoint: string, volumes: seq<Volume>, i: nat)
    requires i <= |volumes| && AllJoinable(mountpoint, volumes[..i])
    ensures var root := RootPath(mountpoint);
      AtRoot(MountsOf(mountpoint, volumes[..i]), root) <= PathsAtRoot(VolumePaths(mountpoint, volumes), root)
  {
    hide Joinable, AtRoot, PathsAtRoot;
    var root, paths := RootPath(mountpoint), VolumePaths(mountpoint, volumes);
    assert paths[..i] == VolumePaths(mountpoint, volumes[..i]);
    assert paths == paths[..i] + paths[i..];
    PathsAreTargets(mountpoint, volumes[..i]);
    AtRootOfTargets(MountsOf(mountpoint, volumes[..i]), root);
    PathsAtRootConcat(paths[..i], paths[i..], root);
  }

  lemma {:induction false} AllMountsBounded(mountpoint: string, volumes: seq<Volume>)
    requires AllJoinable(mountpoint, volumes)
    ensures Bounded(AllMounts(mountpoint, volumes), mountpoint, volumes)
  {
    assert volumes[..|volumes|] == volumes;
    TriedIsBounded(mountpoint, volumes, |volumes|, []);
    assert AllMounts(mountpoint, volumes) == AllMounts(mountpoint, volumes) + [];
  }

  predicate ExtraMount(mountpoint: string, volumes: seq<Volume>, i: nat, extra: Table)
  {
    extra == [] ||
    (i < |volumes| && Joinable(mountpoint, volumes[i]) && |extra| == 1 && extra[0].target == VolumeTarget(mountpoint, volumes[i]))
  }

  lemma {:induction false} TriedAtRoot(mountpoint: string, volumes: seq<Volume>, i: nat, extra: Table)
    requires i <= |volumes| && AllJoinable(mountpoint, volumes[..i]) && ExtraMount(mountpoint, volumes, i, extra)
    ensures AtRoot(MountsOf(mountpoint, volumes[..i]) + extra, RootPath(mountpoint)) <=
      PathsAtRoot(VolumePaths(mountpoint, volumes), RootPath(mountpoint))
  {
    hide Joinable;
    var root, mounted := RootPath(mountpoint), MountsOf(mountpoint, volumes[..i]);
    var none: Table := [];
    AtRootConcat(mounted, extra, root);
    if extra == [] {
      PathsAtRootPrefix(mountpoint, volumes, i);
    } else {
      var all := MountsOf(mountpoint, volumes[..i + 1]);
      assert volumes[..i + 1][..i] == volumes[..i];
      PathsAtRootPrefix(mountpoint, volumes, i + 1);
      assert all[..i] == mounted && all[i].target == extra[0].target;
      assert extra[..0] == none;
    }
  }

  lemma {:induction false} TriedIsBounded(mountpoint: string, volumes: seq<Volume>, i: nat, extra: Table)
    requires i <= |volumes| && AllJoinable(mountpoint, volumes[..i]) && ExtraMount(mountpoint, volumes, i, extra)
    ensures Bounded(AllMounts(mountpoint, volumes[..i]) + extra, mountpoint, volumes)
  {
    hide Joinable, AtRoot, PathsAtRoot;
    var mounted := MountsOf(mountpoint, volumes[..i]);
    TriedAtRoot(mountpoint, volumes, i, extra);
    PathsAreBelow(mountpoint, volumes[..i]);
    RootAndBelow(RootMount(mountpoint), mounted + extra);
    assert AllMounts(mountpoint, volumes[..i]) + extra == [RootMount(mountpoint)] + (mounted + extra);
  }

  lemma {:induction false} RootAndBelow(m: Mount, rest: Table)
    requires forall i :: 0 <= i < |rest| ==> m.target <= rest[i].target
    ensures WellNested([m] + rest, m.target)
    ensures AtRoot([m] + rest, m.target) == 1 + AtRoot(rest, m.target)
  {
    var none, one: Table := [], [m];
    AtRootConcat(one, rest, m.target);
    assert one[..0] == none && AtRoot(none, m.target) == 0;
  }

  /** Whatever a failed mount_volumes leaves on the table, refusals included, is within bounds. */
  lemma {:induction false} RolledBackIsBounded(base: Table, after: Table, mountpoint: string, volumes: seq<Volume>)
    returns (live: Table)
    requires Outside(base, RootPath(mountpoint))
    requires RolledBack(base + [RootMount(mountpoint)], after, mountpoint, volumes)
    ensures after == base + live && Bounded(live, mountpoint, volumes)
  {
    hide Joinable, Pass, Bounded, WellNested;
    var before := base + [RootMount(mountpoint)];
    if after == before {
      assert volumes[..0] == [];
      TriedIsBounded(mountpoint, volumes, 0, []);
      live := [RootMount(mountpoint)];
      assert AllMounts(mountpoint, volumes[..0]) + [] == live;
    } else {
      var i: nat, during: Table, refused: seq<bool> :|
        Tried(before, during, mountpoint, volumes, i) && |refused| == i &&
        after == Pass(during, VolumePaths(mountpoint, volumes[..i]), refused).table;
      live := BoundedAfterPass(base, during, mountpoint, volumes, i, refused);
    }
  }

  lemma {:induction false} BoundedAfterPass(base: Table, during: Table, mountpoint: string, volumes: seq<Volume>,
                                            i: nat, refused: seq<bool>) returns (live: Table)
    requires Outside(base, RootPath(mountpoint)) && |refused| == i
    requires Tried(base + [RootMount(mountpoint)], during, mountpoint, volumes, i)
    ensures Pass(during, VolumePaths(mountpoint, volumes[..i]), refused).table == base + live
    ensures Bounded(live, mountpoint, volumes)
  {
    hide Joinable, Pass, WellNested, AtRoot;
    var root, paths := RootPath(mountpoint), VolumePaths(mountpoint, volumes[..i]);
    var extra: Table := if during == base + [RootMount(mountpoint)] + MountsOf(mountpoint, volumes[..i]) then []
                        else [MountOf(mountpoint, volumes[i]).(readOnly := false)];
    var tried := AllMounts(mountpoint, volumes[..i]) + extra;
    assert during == base + tried;
    TriedIsBounded(mountpoint, volumes, i, extra);
    PathsAreBelow(mountpoint, volumes[..i]);
    PassWithBase(base, tried, root, paths, refused);
    PassKeepsNesting(tried, root, paths, refused);
    live := Pass(tried, paths, refused).table;
  }
}
