/** The kernel's mount table as far as bind mounts below a container root are concerned.

    The table lists the mounts in the order in which they were made. A path is resolved by the last mount whose
    mount point is a prefix of it; `umount` of a path acts on that mount, if the path is its mount point, and is
    busy while a later mount lies strictly below.
  */
module Mounts {
  import opened Text

  type Path = seq<string>

  datatype Mount = Mount(source: string, target: Path, readOnly: bool)

  type Table = seq<Mount>

  /** The position of the last mount that covers the path, or -1. */
  function LastCover(table: Table, path: Path): (k: int)
    ensures -1 <= k < |table|
    ensures k >= 0 ==> table[k].target <= path
    ensures forall j :: k < j < |table| ==> !(table[j].target <= path)
  {
    if table == [] then -1
    else if table[|table| - 1].target <= path then |table| - 1
    else LastCover(table[..|table| - 1], path)
  }

  datatype Effect = NotAMount | Busy | Gone(table: Table)

  /** umount(2): EINVAL or ENOENT, EBUSY, or success. */
  function Unmount(table: Table, path: Path): Effect
  {
    var k := LastCover(table, path);
    if k < 0 || table[k].target != path then NotAMount
    else if exists j :: k < j < |table| && path < table[j].target then Busy
    else Gone(table[..k] + table[k + 1..])
  }

  /** The last mount made can always be unmounted, whatever is mounted elsewhere or below other paths. */
  lemma {:induction false} UnmountLast(table: Table, m: Mount)
    ensures Unmount(table + [m], m.target) == Gone(table)
  {
    assert (table + [m])[..|table|] == table;
    assert (table + [m])[|table| + 1..] == [];
  }

  datatype Step = Step(table: Table, ok: bool)

  /** One unmount of the cleanup code: a path that could not be built or a refusal is a failure, a path that is not
      mounted is not. `refused` stands for every error the table does not explain. */
  function UnmountStep(table: Table, path: Option<Path>, refused: bool): Step
  {
    match path
    case None => Step(table, false)
    case Some(p) =>
      if refused then Step(table, false)
      else
        match Unmount(table, p)
        case NotAMount => Step(table, true)
        case Busy => Step(table, false)
        case Gone(rest) => Step(rest, true)
  }

  /** Unmounting a list of paths from its end, going on after failures. */
  function Pass(table: Table, paths: seq<Option<Path>>, refused: seq<bool>): Step
    requires |refused| == |paths|
    decreases |paths|
  {
    if paths == [] then Step(table, true)
    else
      var last := |paths| - 1;
      var first := UnmountStep(table, paths[last], refused[last]);
      var rest := Pass(first.table, paths[..last], refused[..last]);
      Step(rest.table, first.ok && rest.ok)
  }

  // ---------- mounting and unmounting the same list ----------

  function Targets(mounts: Table): (r: seq<Option<Path>>)
    ensures |r| == |mounts|
  {
    if mounts == [] then [] else Targets(mounts[..|mounts| - 1]) + [Some(mounts[|mounts| - 1].target)]
  }

  predicate Unrefused(refused: seq<bool>)
  {
    forall i :: 0 <= i < |refused| ==> !refused[i]
  }

  /** Unmounting what was just mounted, last first, restores any table: nested, repeated and differently spelled
      mount points included. */
  lemma {:induction false} PassUndoesMounts(table: Table, mounts: Table, refused: seq<bool>)
    requires |refused| == |mounts| && Unrefused(refused)
    ensures Pass(table + mounts, Targets(mounts), refused) == Step(table, true)
    decreases |mounts|
  {
    if mounts == [] {
      assert table + mounts == table;
    } else {
      var n := |mounts| - 1;
      assert table + mounts == (table + mounts[..n]) + [mounts[n]];
      UnmountLast(table + mounts[..n], mounts[n]);
      assert Targets(mounts)[..n] == Targets(mounts[..n]);
      PassUndoesMounts(table, mounts[..n], refused[..n]);
    }
  }

  // ---------- tearing down a container root ----------

  /** No mount at or below the root. */
  predicate Outside(base: Table, root: Path)
  {
    forall i :: 0 <= i < |base| ==> !(root <= base[i].target)
  }

  /** The mounts of a container: all at or below its root, the first one at the root. */
  predicate WellNested(live: Table, root: Path)
  {
    (live != [] ==> live[0].target == root) && forall i :: 0 <= i < |live| ==> root <= live[i].target
  }

  /** How many mounts sit on the root itself. */
  function AtRoot(live: Table, root: Path): nat
  {
    if live == [] then 0 else AtRoot(live[..|live| - 1], root) + (if live[|live| - 1].target == root then 1 else 0)
  }

  function PathsAtRoot(paths: seq<Option<Path>>, root: Path): nat
  {
    if paths == [] then 0
    else PathsAtRoot(paths[..|paths| - 1], root) + (if paths[|paths| - 1] == Some(root) then 1 else 0)
  }

  lemma {:induction false} AtRootConcat(a: Table, b: Table, root: Path)
    ensures AtRoot(a + b, root) == AtRoot(a, root) + AtRoot(b, root)
  {
    if b == [] {
      assert a + b == a;
    } else {
      assert (a + b)[..|a + b| - 1] == a + b[..|b| - 1];
      AtRootConcat(a, b[..|b| - 1], root);
    }
  }

  lemma {:induction false} AtRootZero(live: Table, root: Path)
    ensures AtRoot(live, root) == 0 <==> forall i :: 0 <= i < |live| ==> live[i].target != root
  {
    if live != [] {
      AtRootZero(live[..|live| - 1], root);
    }
  }

  lemma {:induction false} CoverWithBase(base: Table, live: Table, root: Path, path: Path)
    requires Outside(base, root) && root <= path
    ensures LastCover(live, path) >= 0 ==> LastCover(base + live, path) == |base| + LastCover(live, path)
    ensures LastCover(live, path) < 0 ==> LastCover(base + live, path) < |base|
    ensures LastCover(base, path) >= 0 ==> base[LastCover(base, path)].target != path
    ensures LastCover(live, path) < 0 ==> LastCover(base + live, path) == LastCover(base, path)
    decreases |live|
  {
    if live == [] {
      assert base + live == base;
    } else {
      var front := live[..|live| - 1];
      assert (base + live)[..|base + live| - 1] == base + front;
      CoverWithBase(base, front, root, path);
    }
  }

  /** How an unmount at or below the root acts on the container's own mounts: the rest of the table plays no part. */
  lemma {:induction false} UnmountWithBase(base: Table, live: Table, root: Path, path: Path)
    requires Outside(base, root) && root <= path
    ensures match Unmount(live, path)
      case NotAMount => Unmount(base + live, path) == NotAMount
      case Busy => Unmount(base + live, path) == Busy
      case Gone(rest) => Unmount(base + live, path) == Gone(base + rest)
  {
    CoverWithBase(base, live, root, path);
    hide LastCover;
    var table, k, l := base + live, LastCover(base + live, path), LastCover(live, path);
    if l < 0 {
      assert k < 0 || table[k] == base[k];
    } else {
      BusyWithBase(base, live, l, path);
      RemoveWithBase(base, live, l);
    }
  }

  lemma {:induction false} RemoveWithBase(base: Table, live: Table, l: nat)
    requires l < |live|
    ensures var k := |base| + l;
      (base + live)[k] == live[l] &&
      (base + live)[..k] + (base + live)[k + 1..] == base + (live[..l] + live[l + 1..])
  {
  }

  lemma {:induction false} BusyWithBase(base: Table, live: Table, l: nat, path: Path)
    ensures (exists j :: l < j < |live| && path < live[j].target) <==>
            (exists j :: |base| + l < j < |base + live| && path < (base + live)[j].target)
  {
    var table := base + live;
    if exists j :: l < j < |live| && path < live[j].target {
      var j :| l < j < |live| && path < live[j].target;
      assert table[|base| + j] == live[j];
    }
    if exists j :: |base| + l < j < |table| && path < table[j].target {
      var j :| |base| + l < j < |table| && path < table[j].target;
      assert table[j] == live[j - |base|];
    }
  }

  lemma {:induction false} NothingAtRoot(live: Table, root: Path)
    requires WellNested(live, root) && Unmount(live, root) == NotAMount
    ensures AtRoot(live, root) == 0
  {
    var k := LastCover(live, root);
    AtRootZero(live, root);
  }

  function RemoveAt(live: Table, k: nat): Table
    requires k < |live|
  {
    live[..k] + live[k + 1..]
  }

  lemma {:induction false} AtRootRemoved(live: Table, k: nat, root: Path)
    requires k < |live|
    ensures AtRoot(RemoveAt(live, k), root) == AtRoot(live, root) - (if live[k].target == root then 1 else 0)
  {
    var m := [live[k]];
    assert live == live[..k] + (m + live[k + 1..]);
    AtRootConcat(live[..k], m + live[k + 1..], root);
    AtRootConcat(m, live[k + 1..], root);
    AtRootConcat(live[..k], live[k + 1..], root);
    assert m[..0] == [] && AtRoot([], root) == 0;
    assert AtRoot(m, root) == AtRoot(m[..0], root) + (if m[0].target == root then 1 else 0);
  }

  /** Only the last of a container's mounts can be the first one, so removing the first leaves none. */
  lemma {:induction false} FirstIsLast(live: Table, root: Path, path: Path)
    requires WellNested(live, root) && Unmount(live, path).Gone? && LastCover(live, path) == 0
    ensures |live| == 1
  {
    assert forall j :: 0 < j < |live| ==> root <= live[j].target && !(live[j].target <= path);
  }

  /** An unmount keeps the container's mounts well nested. It takes a mount off the root exactly when the path is
      the root, something is mounted there, and the unmount is neither refused nor busy. */
  lemma {:induction false} UnmountKeepsNesting(live: Table, root: Path, path: Path)
    requires WellNested(live, root) && Unmount(live, path).Gone?
    ensures var rest := Unmount(live, path).table;
      && WellNested(rest, root) && |rest| < |live|
      && AtRoot(rest, root) == AtRoot(live, root) - (if path == root then 1 else 0)
  {
    hide AtRoot;
    var k := LastCover(live, path);
    AtRootRemoved(live, k, root);
    if k == 0 {
      FirstIsLast(live, root, path);
    } else {
      assert RemoveAt(live, k)[0] == live[0];
    }
  }

  predicate AllBelow(paths: seq<Option<Path>>, root: Path)
  {
    forall i :: 0 <= i < |paths| ==> paths[i].Some? ==> root <= paths[i].value
  }

  lemma {:induction false} UnmountStepWithBase(base: Table, live: Table, root: Path, path: Option<Path>, refused: bool)
    requires Outside(base, root) && (path.Some? ==> root <= path.value)
    ensures var own := UnmountStep(live, path, refused);
      UnmountStep(base + live, path, refused) == Step(base + own.table, own.ok)
  {
    hide Unmount;
    if path.Some? {
      UnmountWithBase(base, live, root, path.value);
    }
  }

  lemma {:induction false} PassWithBase(base: Table, live: Table, root: Path, paths: seq<Option<Path>>, refused: seq<bool>)
    requires Outside(base, root) && AllBelow(paths, root) && |refused| == |paths|
    ensures var own := Pass(live, paths, refused);
      Pass(base + live, paths, refused) == Step(base + own.table, own.ok)
    decreases |paths|
  {
    hide UnmountStep;
    if paths != [] {
      var last := |paths| - 1;
      UnmountStepWithBase(base, live, root, paths[last], refused[last]);
      PassWithBase(base, UnmountStep(live, paths[last], refused[last]).table, root, paths[..last], refused[..last]);
    }
  }

  function Minus(a: nat, b: nat): nat
  {
    if a >= b then a - b else 0
  }

  /** A pass keeps the nesting; if it reports success it has taken one mount off the root for each path that is
      the root, as far as there were any. */
  lemma {:induction false} PassKeepsNesting(live: Table, root: Path, paths: seq<Option<Path>>, refused: seq<bool>)
    requires WellNested(live, root) && AllBelow(paths, root) && |refused| == |paths|
    ensures var own := Pass(live, paths, refused);
      && WellNested(own.table, root) && AtRoot(own.table, root) <= AtRoot(live, root)
      && (own.ok ==> AtRoot(own.table, root) == Minus(AtRoot(live, root), PathsAtRoot(paths, root)))
    decreases |paths|
  {
    hide Unmount, AtRoot, WellNested;
    if paths != [] {
      var last := |paths| - 1;
      var next := UnmountStep(live, paths[last], refused[last]).table;
      if paths[last].Some? && !refused[last] {
        if Unmount(live, paths[last].value).Gone? {
          UnmountKeepsNesting(live, root, paths[last].value);
        } else if Unmount(live, paths[last].value).NotAMount? && paths[last] == Some(root) {
          NothingAtRoot(live, root);
        }
      }
      PassKeepsNesting(next, root, paths[..last], refused[..last]);
    }
  }

  lemma {:induction false} NothingLeft(live: Table, root: Path)
    requires WellNested(live, root)
    ensures AtRoot(live, root) == 0 <==> live == []
  {
    AtRootZero(live, root);
  }

  /** The paths a teardown unmounts, the root itself last (so first in the list). */
  function TeardownPaths(root: Path, paths: seq<Option<Path>>): seq<Option<Path>>
  {
    [Some(root)] + paths
  }

  lemma {:induction false} PathsAtRootConcat(a: seq<Option<Path>>, b: seq<Option<Path>>, root: Path)
    ensures PathsAtRoot(a + b, root) == PathsAtRoot(a, root) + PathsAtRoot(b, root)
  {
    if b == [] {
      assert a + b == a;
    } else {
      assert (a + b)[..|a + b| - 1] == a + b[..|b| - 1];
      PathsAtRootConcat(a, b[..|b| - 1], root);
    }
  }

  lemma {:induction false} AtRootOfTargets(mounts: Table, root: Path)
    ensures AtRoot(mounts, root) == PathsAtRoot(Targets(mounts), root)
  {
    if mounts != [] {
      AtRootOfTargets(mounts[..|mounts| - 1], root);
    }
  }

  /** When a teardown reports that everything is unmounted, the container has no mount left if and only if at most
      one more mount sat on the root than the listed paths name. */
  lemma {:induction false} TeardownIsCompleteIff(base: Table, live: Table, root: Path, paths: seq<Option<Path>>, refused: seq<bool>)
    requires Outside(base, root) && WellNested(live, root) && AllBelow(paths, root)
    requires |refused| == |paths| + 1 && Pass(base + live, TeardownPaths(root, paths), refused).ok
    ensures Pass(base + live, TeardownPaths(root, paths), refused).table == base
       <==> AtRoot(live, root) <= 1 + PathsAtRoot(paths, root)
  {
    var all := TeardownPaths(root, paths);
    assert AllBelow(all, root);
    PassWithBase(base, live, root, all, refused);
    PassKeepsNesting(live, root, all, refused);
    PathsAtRootConcat([Some(root)], paths, root);
    var one: seq<Option<Path>> := [Some(root)];
    assert one[..0] == [] && PathsAtRoot([], root) == 0 && PathsAtRoot(one, root) == 1;
    var left := Pass(live, all, refused).table;
    NothingLeft(left, root);
    assert base + left == base <==> left == [] by {
      assert |base + left| == |base| + |left|;
      assert left == [] ==> base + left == base;
    }
  }

  // ---------- progress: what a pass without refusals achieves ----------

  /** live is what is left of a list of mounts after some of them have gone. */
  predicate PartOf(live: Table, all: Table)
    decreases |all|
  {
    live == [] ||
    (all != [] &&
     ((live[|live| - 1] == all[|all| - 1] && PartOf(live[..|live| - 1], all[..|all| - 1])) ||
      PartOf(live, all[..|all| - 1])))
  }

  lemma {:induction false} PartOfItself(all: Table)
    ensures PartOf(all, all)
  {
    if all != [] {
      PartOfItself(all[..|all| - 1]);
    }
  }

  lemma {:induction false} PartOfMore(live: Table, all: Table, more: Table)
    requires PartOf(live, all)
    ensures PartOf(live, all + more)
    ensures PartOf(live + more, all + more)
    decreases |more|
  {
    if more == [] {
      assert all + more == all && live + more == live;
    } else {
      var n := |more| - 1;
      PartOfMore(live, all, more[..n]);
      assert (all + more)[..|all + more| - 1] == all + more[..n];
      assert (live + more)[..|live + more| - 1] == live + more[..n];
    }
  }

  lemma {:induction false} PartOfMember(live: Table, all: Table, i: nat)
    requires PartOf(live, all) && i < |live|
    ensures live[i] in all
    decreases |all|
  {
    var n := |all| - 1;
    if live[|live| - 1] == all[n] && PartOf(live[..|live| - 1], all[..n]) {
      if i < |live| - 1 {
        PartOfMember(live[..|live| - 1], all[..n], i);
      }
    } else {
      PartOfMember(live, all[..n], i);
    }
  }

  lemma {:induction false} RemoveBeforeLast(front: Table, m: Mount, k: nat)
    requires k < |front|
    ensures RemoveAt(front + [m], k) == RemoveAt(front, k) + [m]
  {
    assert (front + [m])[..k] == front[..k];
    assert (front + [m])[k + 1..] == front[k + 1..] + [m];
  }

  lemma {:induction false} PartOfRemoved(live: Table, all: Table, k: nat)
    requires PartOf(live, all) && k < |live|
    ensures PartOf(RemoveAt(live, k), all)
    decreases |all|
  {
    var n, last := |all| - 1, |live| - 1;
    var front, frontAll := live[..last], all[..n];
    assert live == front + [live[last]] && all == frontAll + [all[n]];
    if live[last] == all[n] && PartOf(front, frontAll) {
      if k == last {
        assert RemoveAt(live, k) == front;
        PartOfMore(front, frontAll, [all[n]]);
      } else {
        PartOfRemoved(front, frontAll, k);
        RemoveBeforeLast(front, live[last], k);
        PartOfMore(RemoveAt(front, k), frontAll, [all[n]]);
      }
    } else {
      PartOfRemoved(live, frontAll, k);
      PartOfMore(RemoveAt(live, k), frontAll, [all[n]]);
    }
  }

  lemma {:induction false} StepShrinks(live: Table, all: Table, path: Option<Path>, refused: bool)
    requires PartOf(live, all)
    ensures PartOf(UnmountStep(live, path, refused).table, all)
  {
    hide PartOf;
    if path.Some? && !refused && Unmount(live, path.value).Gone? {
      PartOfRemoved(live, all, LastCover(live, path.value));
    }
  }

  lemma {:induction false} PassShrinks(live: Table, all: Table, paths: seq<Option<Path>>, refused: seq<bool>)
    requires PartOf(live, all) && |refused| == |paths|
    ensures PartOf(Pass(live, paths, refused).table, all)
    decreases |paths|
  {
    hide PartOf, UnmountStep;
    if paths != [] {
      var last := |paths| - 1;
      StepShrinks(live, all, paths[last], refused[last]);
      PassShrinks(UnmountStep(live, paths[last], refused[last]).table, all, paths[..last], refused[..last]);
    }
  }

  /** A pass without refusals takes everything away, in whatever state earlier passes have left the mounts, even
      if it has to report a busy mount on the way. */
  lemma {:induction false} QuietPassEmpties(live: Table, all: Table, refused: seq<bool>)
    requires PartOf(live, all) && |refused| == |all| && Unrefused(refused)
    ensures Pass(live, Targets(all), refused).table == []
    decreases |all|
  {
    if all != [] {
      var n := |all| - 1;
      assert Targets(all)[..n] == Targets(all[..n]) && Targets(all)[n] == Some(all[n].target);
      var next := UnmountStep(live, Some(all[n].target), refused[n]).table;
      if PartOf(live, all[..n]) {
        StepShrinks(live, all[..n], Some(all[n].target), refused[n]);
      } else {
        var front := live[..|live| - 1];
        assert live == front + [all[n]];
        UnmountLast(front, all[n]);
      }
      QuietPassEmpties(next, all[..n], refused[..n]);
    }
  }

  /** When nothing is mounted any more, a pass without refusals succeeds. */
  lemma {:induction false} QuietPassOnNothing(all: Table, refused: seq<bool>)
    requires |refused| == |all| && Unrefused(refused)
    ensures Pass([], Targets(all), refused) == Step([], true)
    decreases |all|
  {
    if all != [] {
      var n := |all| - 1;
      assert Targets(all)[..n] == Targets(all[..n]);
      QuietPassOnNothing(all[..n], refused[..n]);
    }
  }

  lemma {:induction false} TargetsBelow(all: Table, root: Path)
    requires forall i :: 0 <= i < |all| ==> root <= all[i].target
    ensures AllBelow(Targets(all), root)
  {
    if all != [] {
      TargetsBelow(all[..|all| - 1], root);
    }
  }

  /** However many passes have failed before, two passes without refusals finish the job: the first leaves none of
      the container's mounts, the second reports success. */
  lemma {:induction false} TwoQuietPassesSuffice(base: Table, live: Table, root: Path, all: Table,
                                                 refused: seq<bool>, again: seq<bool>)
    requires Outside(base, root) && (forall i :: 0 <= i < |all| ==> root <= all[i].target) && PartOf(live, all)
    requires |refused| == |all| && |again| == |all| && Unrefused(refused) && Unrefused(again)
    ensures Pass(base + live, Targets(all), refused).table == base
    ensures Pass(base, Targets(all), again) == Step(base, true)
  {
    hide Pass, PartOf, Targets;
    var empty: Table := [];
    assert base + empty == base;
    TargetsBelow(all, root);
    PassWithBase(base, live, root, Targets(all), refused);
    QuietPassEmpties(live, all, refused);
    PassWithBase(base, empty, root, Targets(all), again);
    QuietPassOnNothing(all, again);
  }

  /** Some mount point was mounted, then something strictly below it, then the same mount point again. */
  predicate Sandwich(all: Table, i: nat, j: nat, k: nat)
  {
    i < j < k < |all| && all[i].target == all[k].target && all[i].target < all[j].target
  }

  ghost predicate NoSandwich(all: Table)
  {
    forall i: nat, j: nat, k: nat :: !Sandwich(all, i, j, k)
  }

  lemma {:induction false} PartOfPair(live: Table, all: Table, i: nat, j: nat) returns (p: nat, q: nat)
    requires PartOf(live, all) && i < j < |live|
    ensures p < q < |all| && all[p] == live[i] && all[q] == live[j]
    decreases |all|
  {
    var n, last := |all| - 1, |live| - 1;
    if live[last] == all[n] && PartOf(live[..last], all[..n]) {
      if j < last {
        p, q := PartOfPair(live[..last], all[..n], i, j);
      } else {
        PartOfMember(live[..last], all[..n], i);
        assert live[..last][i] == live[i];
        p :| p < n && all[..n][p] == live[i];
        q := n;
      }
    } else {
      p, q := PartOfPair(live, all[..n], i, j);
    }
  }

  lemma {:induction false} TargetsSnoc(all: Table)
    requires all != []
    ensures Targets(all) == Targets(all[..|all| - 1]) + [Some(all[|all| - 1].target)]
  {
  }

  lemma {:induction false} PassSnoc(table: Table, paths: seq<Option<Path>>, refused: seq<bool>, p: Option<Path>, r: bool)
    requires |refused| == |paths|
    ensures var first := UnmountStep(table, p, r);
      var rest := Pass(first.table, paths, refused);
      Pass(table, paths + [p], refused + [r]) == Step(rest.table, first.ok && rest.ok)
  {
    hide UnmountStep;
    assert (paths + [p])[..|paths|] == paths && (refused + [r])[..|paths|] == refused;
  }

  /** The first step of a pass over the targets of a list. */
  lemma {:induction false} PassStep(live: Table, all: Table, refused: seq<bool>)
    requires all != [] && |refused| == |all|
    ensures var n := |all| - 1;
      var first := UnmountStep(live, Some(all[n].target), refused[n]);
      var rest := Pass(first.table, Targets(all[..n]), refused[..n]);
      Pass(live, Targets(all), refused) == Step(rest.table, first.ok && rest.ok)
  {
    hide UnmountStep, Pass, Targets;
    var n := |all| - 1;
    TargetsSnoc(all);
    PassSnoc(live, Targets(all[..n]), refused[..n], Some(all[n].target), refused[n]);
    assert refused == refused[..n] + [refused[n]];
  }

  /** A mount point whose own mount has gone can only be busy with such a triple. */
  lemma {:induction false} BusyMakesSandwich(live: Table, all: Table) returns (i: nat, j: nat)
    requires all != [] && PartOf(live, all[..|all| - 1]) && Unmount(live, all[|all| - 1].target).Busy?
    ensures Sandwich(all, i, j, |all| - 1)
  {
    hide PartOf;
    var n := |all| - 1;
    var k := LastCover(live, all[n].target);
    var l :| k < l < |live| && all[n].target < live[l].target;
    i, j := PartOfPair(live, all[..n], k, l);
  }

  lemma {:induction false} LastOrBefore(live: Table, all: Table)
    requires all != [] && PartOf(live, all) && !PartOf(live, all[..|all| - 1])
    ensures live != [] && live == live[..|live| - 1] + [all[|all| - 1]] && PartOf(live[..|live| - 1], all[..|all| - 1])
  {
  }

  /** Without such a triple a single pass without refusals succeeds, whatever earlier passes have left. */
  lemma {:induction false} QuietPassSucceeds(live: Table, all: Table, refused: seq<bool>)
    requires PartOf(live, all) && NoSandwich(all) && |refused| == |all| && Unrefused(refused)
    ensures Pass(live, Targets(all), refused) == Step([], true)
    decreases |all|
  {
    hide Unmount, LastCover, Pass, Targets, PartOf, NoSandwich, Sandwich;
    if all == [] {
      QuietPassOnNothing(all, refused);
      NothingOfNothing(live);
    } else {
      var n := |all| - 1;
      var first := UnmountStep(live, Some(all[n].target), refused[n]);
      PassStep(live, all, refused);
      NoSandwichPrefix(all);
      if PartOf(live, all[..n]) {
        NeverBusy(live, all);
        StepShrinks(live, all[..n], Some(all[n].target), refused[n]);
      } else {
        LastOrBefore(live, all);
        UnmountLast(live[..|live| - 1], all[n]);
      }
      QuietPassSucceeds(first.table, all[..n], refused[..n]);
    }
  }

  lemma {:induction false} NothingOfNothing(live: Table)
    requires PartOf(live, [])
    ensures live == []
  {
  }

  lemma {:induction false} NeverBusy(live: Table, all: Table)
    requires all != [] && PartOf(live, all[..|all| - 1]) && NoSandwich(all)
    ensures !Unmount(live, all[|all| - 1].target).Busy?
  {
    hide PartOf, Unmount, Sandwich;
    if Unmount(live, all[|all| - 1].target).Busy? {
      var i, j := BusyMakesSandwich(live, all);
    }
  }

  lemma {:induction false} NoSandwichPrefix(all: Table)
    requires all != [] && NoSandwich(all)
    ensures NoSandwich(all[..|all| - 1])
  {
    var front := all[..|all| - 1];
    forall i: nat, j: nat, k: nat ensures !Sandwich(front, i, j, k) {
      assert !Sandwich(all, i, j, k);
    }
  }

  /** How it comes about: after a mount point was mounted, a directory below it, and the same mount point again, a
      pass refused once leaves a table on which the next pass, refused nowhere, empties the table but still has to report a busy mount. */
  lemma {:induction false} QuietPassMayReportBusy(a: Mount, b: Mount, again: Mount)
    requires again.target == a.target && a.target < b.target
    ensures Pass([a, b, again], Targets([a, b, again]), [false, true, false]) == Step([a, b], false)
    ensures Pass([a, b], Targets([a, b, again]), [false, false, false]) == Step([], false)
  {
    hide Pass, Unmount, Targets;
    var none: Table := [];
    var p, q := Some(a.target), Some(b.target);
    ThreeTargets(a, b, again);
    UnmountLast([a, b], again);
    UnmountLast([a], b);
    UnmountLast(none, a);
    BusyBelow(a, b);
    assert [a] + [b] == [a, b] && none + [a] == [a] && [a, b] + [again] == [a, b, again];
    PassThree([a, b, again], p, q, p, false, true, false);
    PassThree([a, b], p, q, p, false, false, false);
  }

  lemma {:induction false} ThreeTargets(a: Mount, b: Mount, c: Mount)
    ensures Targets([a, b, c]) == [Some(a.target), Some(b.target), Some(c.target)]
  {
    var none: Table := [];
    assert [a, b, c][..2] == [a, b] && [a, b][..1] == [a] && [a][..0] == none;
    assert Targets(none) == [] && Targets([a]) == [Some(a.target)];
    assert Targets([a, b]) == [Some(a.target), Some(b.target)];
  }

  lemma {:induction false} BusyBelow(a: Mount, b: Mount)
    requires a.target < b.target
    ensures Unmount([a, b], a.target) == Busy
  {
    var table := [a, b];
    assert !(b.target <= a.target) && table[..1] == [a];
    assert LastCover([a], a.target) == 0;
    assert LastCover(table, a.target) == 0;
    assert table[1] == b;
  }

  lemma {:induction false} PassThree(table: Table, p: Option<Path>, q: Option<Path>, r: Option<Path>,
                                     x: bool, y: bool, z: bool)
    ensures var first := UnmountStep(table, r, z);
      var second := UnmountStep(first.table, q, y);
      var third := UnmountStep(second.table, p, x);
      Pass(table, [p, q, r], [x, y, z]) == Step(third.table, first.ok && second.ok && third.ok)
  {
    hide UnmountStep;
    var first := UnmountStep(table, r, z);
    var second := UnmountStep(first.table, q, y);
    var three, two, one: seq<Option<Path>> := [p, q, r], [p, q], [p];
    assert three[..2] == two && two[..1] == one && one[..0] == [];
    assert [x, y, z][..2] == [x, y] && [x, y][..1] == [x] && [x][..0] == [];
    var third := UnmountStep(second.table, p, x);
    assert Pass(third.table, [], []) == Step(third.table, true);
    assert Pass(second.table, one, [x]) == Step(third.table, third.ok);
    assert Pass(first.table, two, [x, y]) == Step(third.table, second.ok && third.ok);
  }
}
