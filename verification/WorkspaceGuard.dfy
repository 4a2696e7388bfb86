/** When removal by the metadata may delete the workspace: the mounts that removals can leave, and when a teardown that
    reports success has really unmounted everything. The metadata names at most 32 volumes, a run mounts all of them. */
module WorkspaceGuard {
  import opened Text
  import opened Paths
  import opened VolumeSpec
  import opened StatusCodec
  import opened MetadataVolumes
  import opened Mounts
  import opened MountOrder
  import opened Volumes

  /** The paths that a removal unmounts. */
  function NamedPaths(mountpoint: string, volumes: seq<Volume>): (r: seq<Option<Mounts.Path>>)
    ensures |r| == 1 + |Recorded(volumes)|
  {
    TeardownPaths(RootPath(mountpoint), VolumePaths(mountpoint, Recorded(volumes)))
  }

  /** The mounts that some sequence of removals, refused anywhere, has left of those that the run made. */
  ghost predicate LeftOver(live: Table, mountpoint: string, volumes: seq<Volume>)
  {
    exists rounds: seq<seq<bool>> | Rounds(rounds, |NamedPaths(mountpoint, volumes)|) ::
      live == AfterPasses(AllMounts(mountpoint, volumes), NamedPaths(mountpoint, volumes), rounds)
  }

  /** No removal, whatever removals came before, reports everything unmounted while something is mounted. */
  ghost predicate GuardHolds(mountpoint: string, volumes: seq<Volume>)
  {
    !CanEndTooEarly(AllMounts(mountpoint, volumes), NamedPaths(mountpoint, volumes))
  }

  lemma {:induction false} NothingRemovedYet(mountpoint: string, volumes: seq<Volume>)
    ensures LeftOver(AllMounts(mountpoint, volumes), mountpoint, volumes)
  {
    hide AllMounts, NamedPaths;
    var none: seq<seq<bool>> := [];
    assert Rounds(none, |NamedPaths(mountpoint, volumes)|);
    assert AfterPasses(AllMounts(mountpoint, volumes), NamedPaths(mountpoint, volumes), none) == AllMounts(mountpoint, volumes);
  }

  lemma {:induction false} SuccessIsUnrefused(table: Table, paths: seq<Option<Mounts.Path>>, refused: seq<bool>)
    requires |refused| == |paths| && Pass(table, paths, refused).ok
    ensures refused == NoRefusals(|paths|)
    decreases |paths|
  {
    hide UnmountStep;
    if paths != [] {
      var n := |paths| - 1;
      if refused[n] {
        NoStep(table, paths[n], true);
      }
      SuccessIsUnrefused(UnmountStep(table, paths[n], refused[n]).table, paths[..n], refused[..n]);
      assert refused == refused[..n] + [refused[n]];
    }
  }

  lemma {:induction false} OneMoreRound(live: Table, mountpoint: string, volumes: seq<Volume>, refused: seq<bool>)
    requires LeftOver(live, mountpoint, volumes) && |refused| == |NamedPaths(mountpoint, volumes)|
    ensures var end := Pass(live, NamedPaths(mountpoint, volumes), refused);
      LeftOver(end.table, mountpoint, volumes) && (GuardHolds(mountpoint, volumes) && end.ok ==> end.table == [])
  {
    hide AllMounts, NamedPaths, Pass;
    var all, paths := AllMounts(mountpoint, volumes), NamedPaths(mountpoint, volumes);
    var rounds: seq<seq<bool>> :| Rounds(rounds, |paths|) && live == AfterPasses(all, paths, rounds);
    var more := rounds + [refused];
    assert more[..|rounds|] == rounds && Rounds(more, |paths|);
    assert AfterPasses(all, paths, more) == Pass(live, paths, refused).table;
    if Pass(live, paths, refused).ok {
      SuccessIsUnrefused(live, paths, refused);
    }
  }

  lemma {:induction false} NamedAreBelow(mountpoint: string, volumes: seq<Volume>)
    ensures AllBelow(NamedPaths(mountpoint, volumes), RootPath(mountpoint))
    ensures Some(RootPath(mountpoint)) in NamedPaths(mountpoint, volumes)
  {
    PathsAreBelow(mountpoint, Recorded(volumes));
    assert NamedPaths(mountpoint, volumes)[0] == Some(RootPath(mountpoint));
  }

  lemma {:induction false} TeardownTargets(mountpoint: string, volumes: seq<Volume>)
    requires AllJoinable(mountpoint, volumes)
    ensures NamedPaths(mountpoint, volumes) == Targets(AllMounts(mountpoint, Recorded(volumes)))
    ensures |AllMounts(mountpoint, Recorded(volumes))| == 1 + |Recorded(volumes)|
  {
    hide Joinable;
    PathsAreTargets(mountpoint, Recorded(volumes));
    TargetsCons(RootMount(mountpoint), MountsOf(mountpoint, Recorded(volumes)));
  }

  lemma {:induction false} PassesShrink(all: Table, paths: seq<Option<Mounts.Path>>, rounds: seq<seq<bool>>)
    requires Rounds(rounds, |paths|)
    ensures PartOf(AfterPasses(all, paths, rounds), all)
  {
    hide Pass, PartOf;
    if rounds == [] {
      PartOfItself(all);
    } else {
      var n := |rounds| - 1;
      PassesShrink(all, paths, rounds[..n]);
      PassShrinks(AfterPasses(all, paths, rounds[..n]), all, paths, rounds[n]);
    }
  }

  /** One removal without refusals reports success: when nothing is mounted, or when it does after every cut of the list. */
  predicate OnePassEnough(live: Table, mountpoint: string, volumes: seq<Volume>)
  {
    live == [] || EveryCutPasses(AllMounts(mountpoint, volumes))
  }

  /** A removal without refusals, when the metadata names all volumes. */
  lemma {:induction false} QuietRemoval(live: Table, mountpoint: string, volumes: seq<Volume>)
    requires AllJoinable(mountpoint, volumes) && LeftOver(live, mountpoint, volumes) && |volumes| <= MAX_VOLUMES
    ensures var paths := NamedPaths(mountpoint, volumes);
      var end := Pass(live, paths, NoRefusals(|paths|));
      end.table == [] && (OnePassEnough(live, mountpoint, volumes) ==> end.ok)
  {
    hide Joinable, Pass, PartOf, AllMounts, EveryCutPasses, AfterPasses;
    var all := AllMounts(mountpoint, volumes);
    TeardownTargets(mountpoint, volumes);
    var rounds: seq<seq<bool>> :| Rounds(rounds, |all|) && live == AfterPasses(all, Targets(all), rounds);
    PassesShrink(all, Targets(all), rounds);
    QuietPassEmpties(live, all, NoRefusals(|all|));
    if live == [] {
      QuietPassOnNothing(all, NoRefusals(|all|));
    } else if EveryCutPasses(all) {
      OnePassAfter(all, rounds);
    }
  }

  /** What any teardown by the metadata does to what earlier ones have left of a container's mounts, and what one without
      refusals does. */
  lemma {:induction false} TeardownLeaves(base: Table, live: Table, mountpoint: string, volumes: seq<Volume>, env: TeardownEnv)
    returns (left: Table)
    requires AllJoinable(mountpoint, volumes) && Outside(base, RootPath(mountpoint)) && LeftOver(live, mountpoint, volumes)
    requires |env.refused| == |Recorded(volumes)|
    ensures var end := Teardown(base + live, mountpoint, Recorded(volumes), env);
      && end.table == base + left && LeftOver(left, mountpoint, volumes)
      && (GuardHolds(mountpoint, volumes) && end.ok ==> left == [])
      && (|volumes| <= MAX_VOLUMES && env.Quiet() ==> left == [] && (OnePassEnough(live, mountpoint, volumes) ==> end.ok))
  {
    hide Pass, AllJoinable, LeftOver, GuardHolds, OnePassEnough, AllBelow;
    var root, paths, refused := RootPath(mountpoint), NamedPaths(mountpoint, volumes), [env.rootRefused] + env.refused;
    NamedAreBelow(mountpoint, volumes);
    PassWithBase(base, live, root, paths, refused);
    left := Pass(live, paths, refused).table;
    OneMoreRound(live, mountpoint, volumes, refused);
    if |volumes| <= MAX_VOLUMES && env.Quiet() {
      assert refused == NoRefusals(|paths|);
      QuietRemoval(live, mountpoint, volumes);
    }
  }

  // ---------- exactly when the guard holds ----------

  /** The volume has the mount point of a recorded one, or the root. */
  predicate Named(volumes: seq<Volume>, w: nat)
    requires w < |volumes|
  {
    Components(volumes[w].container) == [] ||
    exists r :: 0 <= r < |Recorded(volumes)| && Components(volumes[r].container) == Components(volumes[w].container)
  }

  /** A volume past the recorded ones sits on the root and hides what is mounted before it; all later ones have named mount
      points; and a removal of the mounts up to it reports success. */
  predicate HidesTheRest(mountpoint: string, volumes: seq<Volume>, v: nat)
  {
    MAX_VOLUMES <= v < |volumes| && Components(volumes[v].container) == [] &&
    (forall w :: v < w < |volumes| ==> Named(volumes, w)) &&
    Pass(AllMounts(mountpoint, volumes[..v + 1]), NamedPaths(mountpoint, volumes), NoRefusals(1 + |Recorded(volumes)|)).ok
  }

  lemma {:induction false} MountsAre(mountpoint: string, volumes: seq<Volume>)
    ensures var all := AllMounts(mountpoint, volumes);
      |all| == 1 + |volumes| && all[0].target == RootPath(mountpoint) && WellNested(all, RootPath(mountpoint)) &&
      (forall i :: 0 < i < |all| ==> all[i].target == RootPath(mountpoint) + Components(volumes[i - 1].container)) &&
      (forall k :: 0 <= k <= |volumes| ==> all[..k + 1] == AllMounts(mountpoint, volumes[..k]))
  {
    hide Components;
    PathsAreBelow(mountpoint, volumes);
    var all := AllMounts(mountpoint, volumes);
    forall k | 0 <= k <= |volumes| ensures all[..k + 1] == AllMounts(mountpoint, volumes[..k]) {
    }
  }

  lemma {:induction false} OnTheRootIff(mountpoint: string, v: Volume)
    ensures RootPath(mountpoint) + Components(v.container) == RootPath(mountpoint) <==> Components(v.container) == []
  {
    assert |RootPath(mountpoint) + Components(v.container)| == |RootPath(mountpoint)| + |Components(v.container)|;
  }

  lemma {:induction false} SameTargetIff(mountpoint: string, v: Volume, w: Volume)
    ensures RootPath(mountpoint) + Components(v.container) == RootPath(mountpoint) + Components(w.container) <==>
      Components(v.container) == Components(w.container)
  {
    var root, a, b := RootPath(mountpoint), Components(v.container), Components(w.container);
    assert (root + a)[|root|..] == a && (root + b)[|root|..] == b;
  }

  lemma {:induction false} NamedIff(mountpoint: string, volumes: seq<Volume>, w: nat)
    requires AllJoinable(mountpoint, volumes) && w < |volumes|
    ensures Some(AllMounts(mountpoint, volumes)[1 + w].target) in NamedPaths(mountpoint, volumes) <==> Named(volumes, w)
  {
    hide Joinable, Components, AllMounts, Targets;
    var recorded := Recorded(volumes);
    var all, named, p := AllMounts(mountpoint, volumes), AllMounts(mountpoint, recorded), NamedPaths(mountpoint, volumes);
    MountsAre(mountpoint, volumes);
    MountsAre(mountpoint, recorded);
    TeardownTargets(mountpoint, volumes);
    TargetsAre(named);
    OnTheRootIff(mountpoint, volumes[w]);
    forall r | 0 <= r < |recorded|
      ensures p[1 + r] == Some(all[1 + w].target) <==> Components(volumes[r].container) == Components(volumes[w].container)
    {
      SameTargetIff(mountpoint, volumes[r], volumes[w]);
    }
    assert p[0] == Some(RootPath(mountpoint));
    if Some(all[1 + w].target) in p {
      var i :| 0 <= i < |p| && p[i] == Some(all[1 + w].target);
      assert i > 0 ==> p[1 + (i - 1)] == p[i];
    }
  }

  lemma {:induction false} TargetsAre(mounts: Table)
    ensures forall i :: 0 <= i < |mounts| ==> Targets(mounts)[i] == Some(mounts[i].target)
  {
    if mounts != [] {
      TargetsAre(mounts[..|mounts| - 1]);
    }
  }

  /** A mount on the root comes after the recorded ones exactly when more mounts sit on the root up to it than are named. */
  lemma {:induction false} UnrecordedIff(mountpoint: string, volumes: seq<Volume>, u: nat)
    requires AllJoinable(mountpoint, volumes) && u <= |volumes|
    requires AllMounts(mountpoint, volumes)[u].target == RootPath(mountpoint)
    ensures var root := RootPath(mountpoint);
      AtRoot(AllMounts(mountpoint, volumes)[..u + 1], root) > PathsAtRoot(NamedPaths(mountpoint, volumes), root) <==>
        u > |Recorded(volumes)|
  {
    hide Joinable, Components, AllMounts, AtRoot, PathsAtRoot;
    var root, n, all := RootPath(mountpoint), |Recorded(volumes)|, AllMounts(mountpoint, volumes);
    MountsAre(mountpoint, volumes);
    TeardownTargets(mountpoint, volumes);
    assert all[..n + 1] == AllMounts(mountpoint, Recorded(volumes));
    AtRootOfTargets(all[..n + 1], root);
    if u > n {
      assert all[..u + 1] == all[..n + 1] + all[n + 1..u + 1];
      AtRootConcat(all[..n + 1], all[n + 1..u + 1], root);
      AtRootZero(all[n + 1..u + 1], root);
      assert all[n + 1..u + 1][u - n - 1] == all[u];
    } else {
      assert all[..n + 1] == all[..u + 1] + all[u + 1..n + 1];
      AtRootConcat(all[..u + 1], all[u + 1..n + 1], root);
    }
  }

  lemma {:induction false} HidesIff(mountpoint: string, volumes: seq<Volume>, u: nat)
    requires AllJoinable(mountpoint, volumes) && u <= |volumes|
    ensures Hides(AllMounts(mountpoint, volumes), RootPath(mountpoint), NamedPaths(mountpoint, volumes), u) <==>
      u > 0 && HidesTheRest(mountpoint, volumes, u - 1)
  {
    hide Joinable, Components, AllMounts, AtRoot, PathsAtRoot, AllJoinable, NamedPaths, Named, Pass;
    var all := AllMounts(mountpoint, volumes);
    MountsAre(mountpoint, volumes);
    if all[u].target == RootPath(mountpoint) {
      UnrecordedIff(mountpoint, volumes, u);
    }
    if u > 0 {
      OnTheRootIff(mountpoint, volumes[u - 1]);
      LaterAreNamedIff(mountpoint, volumes, u);
    }
  }

  lemma {:induction false} LaterAreNamedIff(mountpoint: string, volumes: seq<Volume>, u: nat)
    requires AllJoinable(mountpoint, volumes) && 0 < u <= |volumes|
    ensures |AllMounts(mountpoint, volumes)| == 1 + |volumes|
    ensures (forall i :: u < i <= |volumes| ==> Some(AllMounts(mountpoint, volumes)[i].target) in NamedPaths(mountpoint, volumes))
       <==> forall w :: u - 1 < w < |volumes| ==> Named(volumes, w)
  {
    hide AllMounts, AllJoinable, NamedPaths, Named;
    var all := AllMounts(mountpoint, volumes);
    MountsAre(mountpoint, volumes);
    forall w: nat | w < |volumes| ensures Some(all[1 + w].target) in NamedPaths(mountpoint, volumes) <==> Named(volumes, w) {
      NamedIff(mountpoint, volumes, w);
    }
    if forall i :: u < i <= |volumes| ==> Some(all[i].target) in NamedPaths(mountpoint, volumes) {
      forall w | u - 1 < w < |volumes| ensures Named(volumes, w) {
        assert Some(all[1 + w].target) in NamedPaths(mountpoint, volumes);
      }
    }
    if forall w :: u - 1 < w < |volumes| ==> Named(volumes, w) {
      forall i | u < i <= |volumes| ensures Some(all[i].target) in NamedPaths(mountpoint, volumes) {
        assert Named(volumes, i - 1) && all[1 + (i - 1)] == all[i];
      }
    }
  }

  /** The exact condition, over all volume lists and all sequences of refusals: a removal can report success with something
      still mounted, and so delete the workspace under it, if and only if some volume past the 32nd hides the rest. */
  lemma {:induction false} GuardHoldsIff(mountpoint: string, volumes: seq<Volume>)
    requires AllJoinable(mountpoint, volumes)
    ensures !GuardHolds(mountpoint, volumes) <==> exists v: nat :: HidesTheRest(mountpoint, volumes, v)
  {
    hide Joinable, AllMounts, AllJoinable, NamedPaths, Hides, HidesTheRest, CanEndTooEarly;
    var all, root, paths := AllMounts(mountpoint, volumes), RootPath(mountpoint), NamedPaths(mountpoint, volumes);
    MountsAre(mountpoint, volumes);
    NamedAreBelow(mountpoint, volumes);
    CanEndTooEarlyIff(all, root, paths);
    if u: nat :| u < |all| && Hides(all, root, paths, u) {
      HidesIff(mountpoint, volumes, u);
    }
    if v: nat :| HidesTheRest(mountpoint, volumes, v) {
      HidesInRange(mountpoint, volumes, v);
      HidesIff(mountpoint, volumes, v + 1);
    }
  }

  lemma {:induction false} HidesInRange(mountpoint: string, volumes: seq<Volume>, v: nat)
    requires HidesTheRest(mountpoint, volumes, v)
    ensures MAX_VOLUMES <= v < |volumes|
  {
  }

  // ---------- what follows ----------

  lemma {:induction false} HiddenPass(live: Table, m: Mount, paths: seq<Option<Mounts.Path>>, refused: seq<bool>)
    requires |refused| == |paths| && Unrefused(refused)
    requires forall i :: 0 <= i < |paths| ==> paths[i].Some? && m.target < paths[i].value
    ensures Pass(live + [m], paths, refused) == Step(live + [m], true)
    decreases |paths|
  {
    if paths != [] {
      var last := |paths| - 1;
      var p := paths[last].value;
      assert LastCover(live + [m], p) == |live|;
      assert Unmount(live + [m], p) == NotAMount;
      HiddenPass(live, m, paths[..last], refused[..last]);
    }
  }

  /** A mount on the root hides the recorded volumes when none of those is on the root: each looks unmounted, the root
      unmount takes only that mount, and the teardown reports success. */
  lemma {:induction false} HiddenTeardown(mountpoint: string, volumes: seq<Volume>, live: Table, m: Mount)
    requires AllJoinable(mountpoint, volumes) && m.target == RootPath(mountpoint)
    requires forall r :: 0 <= r < |Recorded(volumes)| ==> Components(volumes[r].container) != []
    ensures Pass(live + [m], NamedPaths(mountpoint, volumes), NoRefusals(1 + |Recorded(volumes)|)) == Step(live, true)
  {
    hide Joinable, Pass, Components, VolumeTarget, Unmount, UnmountStep;
    var root, recorded := RootPath(mountpoint), Recorded(volumes);
    var paths := VolumePaths(mountpoint, recorded);
    forall i | 0 <= i < |paths| ensures paths[i].Some? && root < paths[i].value {
      BelowRoot(mountpoint, recorded[i]);
    }
    HiddenPass(live, m, paths, NoRefusals(|paths|));
    LastGoes(live, m);
    PassCons(live + [m], Some(root), paths, false, NoRefusals(|paths|));
    assert [false] + NoRefusals(|paths|) == NoRefusals(1 + |recorded|);
  }

  lemma {:induction false} BelowRoot(mountpoint: string, v: Volume)
    requires Joinable(mountpoint, v) && Components(v.container) != []
    ensures VolumePath(mountpoint, v).Some? && RootPath(mountpoint) < VolumePath(mountpoint, v).value
  {
    hide Joinable, Components;
    AtRootIff(mountpoint, v);
  }

  /** A volume past the recorded ones on the root, and nothing after it that the metadata cannot name. */
  predicate HidesPlainly(volumes: seq<Volume>, v: nat)
  {
    MAX_VOLUMES <= v < |volumes| && Components(volumes[v].container) == [] && forall w :: v < w < |volumes| ==> Named(volumes, w)
  }

  /** With no recorded volume on the root the condition needs no teardown to be tried: the guard fails exactly when some
      volume past the 32nd is on the root and all later ones have named mount points. */
  lemma {:induction false} GuardHoldsIffPlain(mountpoint: string, volumes: seq<Volume>)
    requires AllJoinable(mountpoint, volumes)
    requires forall r :: 0 <= r < |Recorded(volumes)| ==> Components(volumes[r].container) != []
    ensures !GuardHolds(mountpoint, volumes) <==> exists v: nat :: HidesPlainly(volumes, v)
  {
    hide Joinable, AllMounts, AllJoinable, NamedPaths, GuardHolds, Components, Named, Pass;
    GuardHoldsIff(mountpoint, volumes);
    if v: nat :| HidesTheRest(mountpoint, volumes, v) {
      assert HidesPlainly(volumes, v);
    }
    if v: nat :| HidesPlainly(volumes, v) {
      var cut := AllMounts(mountpoint, volumes[..v + 1]);
      MountsAre(mountpoint, volumes[..v + 1]);
      OnTheRootIff(mountpoint, volumes[v]);
      assert cut == cut[..v + 1] + [cut[v + 1]];
      HiddenTeardown(mountpoint, volumes, cut[..v + 1], cut[v + 1]);
      assert HidesTheRest(mountpoint, volumes, v);
    }
  }

  /** In particular with at most 32 volumes, or none past the 32nd on the root. */
  lemma {:induction false} GuardHoldsWhenNamed(mountpoint: string, volumes: seq<Volume>)
    requires AllJoinable(mountpoint, volumes)
    requires forall v :: MAX_VOLUMES <= v < |volumes| ==> Components(volumes[v].container) != []
    ensures GuardHolds(mountpoint, volumes)
  {
    hide AllJoinable, GuardHolds, Components, Named, Pass;
    GuardHoldsIff(mountpoint, volumes);
  }

  /** It does fail: with a 33rd volume on the root, the recorded ones not, the first removal without refusals reports success
      while the root mount and all 32 recorded volumes are still there. */
  lemma {:induction false} RootVolumeDefeatsTheGuard(base: Table, mountpoint: string, volumes: seq<Volume>, env: TeardownEnv)
    requires |volumes| == MAX_VOLUMES + 1 && AllJoinable(mountpoint, volumes)
    requires Components(volumes[MAX_VOLUMES].container) == []
    requires forall i :: 0 <= i < MAX_VOLUMES ==> Components(volumes[i].container) != []
    requires |env.refused| == |Recorded(volumes)| && env.Quiet()
    ensures Teardown(base + AllMounts(mountpoint, volumes), mountpoint, Recorded(volumes), env) ==
      Step(base + AllMounts(mountpoint, volumes[..MAX_VOLUMES]), true)
    ensures !GuardHolds(mountpoint, volumes)
  {
    hide Joinable, AllMounts, AllJoinable, GuardHolds, Components, Named, Pass;
    var all := AllMounts(mountpoint, volumes);
    MountsAre(mountpoint, volumes);
    OnTheRootIff(mountpoint, volumes[MAX_VOLUMES]);
    assert base + all == (base + all[..MAX_VOLUMES + 1]) + [all[MAX_VOLUMES + 1]];
    HiddenTeardown(mountpoint, volumes, base + all[..MAX_VOLUMES + 1], all[MAX_VOLUMES + 1]);
    assert [env.rootRefused] + env.refused == NoRefusals(1 + |Recorded(volumes)|);
    GuardHoldsIffPlain(mountpoint, volumes);
    assert HidesPlainly(volumes, MAX_VOLUMES);
  }

  lemma {:induction false} PassTakesAtMost(table: Table, paths: seq<Option<Mounts.Path>>, refused: seq<bool>)
    requires |refused| == |paths|
    ensures |Pass(table, paths, refused).table| + |paths| >= |table|
    decreases |paths|
  {
    if paths != [] {
      var last := |paths| - 1;
      PassTakesAtMost(UnmountStep(table, paths[last], refused[last]).table, paths[..last], refused[..last]);
    }
  }

  /** With more than 32 volumes a guard that holds goes up at the first removal, so the workspace is kept. */
  lemma {:induction false} CutListRaisesTheGuard(base: Table, mountpoint: string, volumes: seq<Volume>, env: TeardownEnv)
    requires Outside(base, RootPath(mountpoint)) && AllJoinable(mountpoint, volumes) && |env.refused| == |Recorded(volumes)|
    requires |volumes| > MAX_VOLUMES && GuardHolds(mountpoint, volumes)
    ensures !Teardown(base + AllMounts(mountpoint, volumes), mountpoint, Recorded(volumes), env).ok
  {
    hide Pass, Joinable, AllJoinable, GuardHolds, LeftOver, Outside;
    var live := AllMounts(mountpoint, volumes);
    NothingRemovedYet(mountpoint, volumes);
    PassTakesAtMost(base + live, NamedPaths(mountpoint, volumes), [env.rootRefused] + env.refused);
    var left := TeardownLeaves(base, live, mountpoint, volumes, env);
  }
}
