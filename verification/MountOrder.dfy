/** The mount tables that unmounting can leave, and what a later pass makes of them.

    Mounts are named by their position in the list in which they were made. A mount can be taken off when no later mount
    that is still there has a comparable mount point (a prefix of it or the other way round). So whatever sequence of
    refused and granted unmounts comes first, what is left is closed: with a mount all earlier comparable ones are left.
  */
module MountOrder {
  import opened Text
  import opened Mounts

  // ---------- tables as sets of positions ----------

  /** The mounts at the positions s, in order. */
  function Select(all: Table, s: set<nat>): Table
  {
    if all == [] then []
    else Select(all[..|all| - 1], s) + (if |all| - 1 in s then [all[|all| - 1]] else [])
  }

  datatype EffectAt = NotAMountAt | BusyAt | GoneAt(k: nat)

  /** What unmounting a path does to the mounts at the positions s. */
  function TakeOff(all: Table, s: set<nat>, path: Path): EffectAt
  {
    if all == [] then NotAMountAt
    else
      var n := |all| - 1;
      if n !in s then TakeOff(all[..n], s, path)
      else if all[n].target <= path then (if all[n].target == path then GoneAt(n) else NotAMountAt)
      else
        match TakeOff(all[..n], s, path)
        case GoneAt(k) => if path < all[n].target then BusyAt else GoneAt(k)
        case effect => effect
  }

  lemma {:induction false} UnmountSnoc(front: Table, m: Mount, path: Path)
    ensures Unmount(front + [m], path) ==
      if m.target <= path then (if m.target == path then Gone(front) else NotAMount)
      else
        match Unmount(front, path)
        case Gone(rest) => if path < m.target then Busy else Gone(rest + [m])
        case effect => effect
  {
    hide LastCover;
    var table := front + [m];
    CoverSnoc(front, m, path);
    assert table[|front|] == m;
    if m.target <= path {
      assert table[..|front|] == front && table[|front| + 1..] == [] && front + [] == front;
    } else {
      var k := LastCover(front, path);
      if k >= 0 {
        assert table[k] == front[k];
        RemoveBeforeLast(front, m, k);
        BusySnoc(front, m, path, k);
      }
    }
  }

  lemma {:induction false} CoverSnoc(front: Table, m: Mount, path: Path)
    ensures LastCover(front + [m], path) == if m.target <= path then |front| else LastCover(front, path)
  {
    assert (front + [m])[..|front|] == front && (front + [m])[|front|] == m;
  }

  lemma {:induction false} BusySnoc(front: Table, m: Mount, path: Path, k: nat)
    requires k < |front|
    ensures (exists j :: k < j < |front + [m]| && path < (front + [m])[j].target) <==>
            (exists j :: k < j < |front| && path < front[j].target) || path < m.target
  {
    var table := front + [m];
    if j :| k < j < |front| && path < front[j].target {
      assert table[j] == front[j];
    }
    if path < m.target {
      assert table[|front|] == m;
    }
    if j :| k < j < |table| && path < table[j].target {
      assert j < |front| ==> table[j] == front[j];
    }
  }

  /** The two views agree. */
  lemma {:induction false} UnmountSelect(all: Table, s: set<nat>, path: Path)
    ensures match TakeOff(all, s, path)
      case NotAMountAt => Unmount(Select(all, s), path) == NotAMount
      case BusyAt => Unmount(Select(all, s), path) == Busy
      case GoneAt(k) => k in s && k < |all| && Unmount(Select(all, s), path) == Gone(Select(all, s - {k}))
    decreases |all|
  {
    hide Unmount;
    if all == [] {
      NothingToUnmount(path);
    } else {
      var n := |all| - 1;
      var front := all[..n];
      UnmountSelect(front, s, path);
      if n in s {
        UnmountSnoc(Select(front, s), all[n], path);
        SelectIgnores(front, s, s - {n});
      } else {
        assert Select(all, s) == Select(front, s);
      }
    }
  }

  lemma {:induction false} NothingToUnmount(path: Path)
    ensures Unmount([], path) == NotAMount
  {
  }

  lemma {:induction false} SelectIgnores(all: Table, s: set<nat>, t: set<nat>)
    requires forall i: nat :: i < |all| ==> (i in s <==> i in t)
    ensures Select(all, s) == Select(all, t)
  {
    if all != [] {
      SelectIgnores(all[..|all| - 1], s, t);
    }
  }

  // ---------- what an effect means ----------

  /** The last mount that is still there and covers the path. */
  predicate IsCover(all: Table, s: set<nat>, path: Path, c: nat)
  {
    c in s && c < |all| && all[c].target <= path && forall j: nat :: c < j < |all| && j in s ==> !(all[j].target <= path)
  }

  predicate NoneBelow(all: Table, s: set<nat>, path: Path, c: nat)
  {
    forall j: nat :: c < j < |all| && j in s ==> !(path < all[j].target)
  }

  lemma {:induction false} EffectMeans(all: Table, s: set<nat>, path: Path)
    ensures var effect := TakeOff(all, s, path);
      (forall c: nat :: IsCover(all, s, path, c) ==>
         effect == if all[c].target != path then NotAMountAt else if NoneBelow(all, s, path, c) then GoneAt(c) else BusyAt) &&
      (!effect.NotAMountAt? ==> exists c: nat :: IsCover(all, s, path, c) && all[c].target == path)
    decreases |all|
  {
    if all != [] {
      var n := |all| - 1;
      var front := all[..n];
      EffectMeans(front, s, path);
      assert forall j: nat :: j < n ==> front[j] == all[j];
      if n in s && all[n].target <= path {
        assert IsCover(all, s, path, n);
      } else {
        forall c: nat ensures IsCover(all, s, path, c) <==> IsCover(front, s, path, c) { }
      }
    }
  }

  // ---------- what passes can leave ----------

  predicate Comparable(p: Path, q: Path)
  {
    p <= q || q <= p
  }

  /** With a mount all earlier comparable mounts are there. */
  predicate Closed(all: Table, s: set<nat>)
  {
    (forall i: nat :: i in s ==> i < |all|) &&
    forall i: nat, j: nat :: i < j < |all| && j in s && Comparable(all[i].target, all[j].target) ==> i in s
  }

  function Taken(all: Table, s: set<nat>, path: Path): set<nat>
  {
    match TakeOff(all, s, path)
    case GoneAt(k) => s - {k}
    case _ => s
  }

  lemma {:induction false} TakenIsClosed(all: Table, s: set<nat>, path: Path)
    requires Closed(all, s)
    ensures var t := Taken(all, s, path);
      Closed(all, t) && t <= s && forall i :: i in s && i !in t ==> all[i].target == path
  {
    EffectMeans(all, s, path);
    match TakeOff(all, s, path)
    case GoneAt(k) =>
      var c: nat :| IsCover(all, s, path, c) && all[c].target == path;
      assert c == k;
    case _ =>
  }

  lemma {:induction false} StepSelect(all: Table, s: set<nat>, path: Path)
    ensures UnmountStep(Select(all, s), Some(path), false) ==
      Step(Select(all, Taken(all, s, path)), !TakeOff(all, s, path).BusyAt?)
  {
    hide TakeOff, Unmount;
    UnmountSelect(all, s, path);
  }

  predicate Rounds(rounds: seq<seq<bool>>, n: nat)
  {
    forall i :: 0 <= i < |rounds| ==> |rounds[i]| == n
  }

  /** The table after passes over the same paths, each with its own refusals. */
  function AfterPasses(table: Table, paths: seq<Option<Path>>, rounds: seq<seq<bool>>): Table
    requires Rounds(rounds, |paths|)
  {
    if rounds == [] then table
    else Pass(AfterPasses(table, paths, rounds[..|rounds| - 1]), paths, rounds[|rounds| - 1]).table
  }

  function Positions(n: nat): (r: set<nat>)
    ensures forall i: nat :: i in r <==> i < n
  {
    if n == 0 then {} else Positions(n - 1) + {n - 1}
  }

  lemma {:induction false} SelectAll(all: Table, c: nat)
    requires c <= |all|
    ensures Select(all, Positions(c)) == all[..c]
    decreases |all|
  {
    if all != [] {
      var front := all[..|all| - 1];
      if c == |all| {
        SelectAll(front, c - 1);
        SelectIgnores(front, Positions(c), Positions(c - 1));
        assert all[..c] == front[..c - 1] + [all[c - 1]];
      } else {
        SelectAll(front, c);
        assert all[..c] == front[..c];
      }
    }
  }

  lemma {:induction false} PassLeaves(all: Table, s: set<nat>, paths: seq<Option<Path>>, refused: seq<bool>)
    returns (t: set<nat>)
    requires Closed(all, s) && |refused| == |paths|
    ensures Pass(Select(all, s), paths, refused).table == Select(all, t)
    ensures Closed(all, t) && t <= s && forall i :: i in s && i !in t ==> Some(all[i].target) in paths
    decreases |paths|
  {
    hide Closed, Taken, UnmountStep, Select;
    t := s;
    if paths != [] {
      var n := |paths| - 1;
      var next := s;
      if paths[n].Some? && !refused[n] {
        next := Taken(all, s, paths[n].value);
        TakenIsClosed(all, s, paths[n].value);
        StepSelect(all, s, paths[n].value);
      } else {
        NoStep(Select(all, s), paths[n], refused[n]);
      }
      t := PassLeaves(all, next, paths[..n], refused[..n]);
      assert paths == paths[..n] + [paths[n]];
    }
  }

  lemma {:induction false} NoStep(table: Table, path: Option<Path>, refused: bool)
    requires path == None || refused
    ensures UnmountStep(table, path, refused) == Step(table, false)
  {
  }

  /** Whatever passes leave is closed, and what they have taken off was named. */
  lemma {:induction false} PassesLeave(all: Table, paths: seq<Option<Path>>, rounds: seq<seq<bool>>) returns (t: set<nat>)
    requires Rounds(rounds, |paths|)
    ensures AfterPasses(all, paths, rounds) == Select(all, t)
    ensures Closed(all, t) && forall i: nat :: i < |all| && i !in t ==> Some(all[i].target) in paths
  {
    hide Pass, Select;
    if rounds == [] {
      t := Positions(|all|);
      SelectAll(all, |all|);
      assert all[..|all|] == all;
    } else {
      var s := PassesLeave(all, paths, rounds[..|rounds| - 1]);
      t := PassLeaves(all, s, paths, rounds[|rounds| - 1]);
    }
  }

  // ---------- one pass without refusals over the whole list ----------

  function NoRefusals(n: nat): (r: seq<bool>)
    ensures |r| == n && Unrefused(r)
  {
    seq(n, _ => false)
  }

  /** What is left when the pass has dealt with the positions from m on. */
  function After(all: Table, s: set<nat>, m: nat): set<nat>
    requires m <= |all|
    decreases |all| - m
  {
    if m == |all| then s else Taken(all, After(all, s, m + 1), all[m].target)
  }

  predicate BusyStep(all: Table, s: set<nat>, m: nat)
    requires m < |all|
  {
    TakeOff(all, After(all, s, m + 1), all[m].target).BusyAt?
  }

  lemma {:induction false} PassFrom(all: Table, s: set<nat>, m: nat)
    requires m <= |all|
    ensures Pass(Select(all, After(all, s, m)), Targets(all[..m]), NoRefusals(m)).ok <==>
      forall k: nat :: k < m ==> !BusyStep(all, s, k)
    decreases m
  {
    hide Select, TakeOff, UnmountStep, Pass, Targets;
    if m == 0 {
      PassOfNothing(Select(all, After(all, s, 0)));
    } else {
      var front, live := all[..m], Select(all, After(all, s, m));
      assert front[..m - 1] == all[..m - 1] && front[m - 1] == all[m - 1] && NoRefusals(m)[..m - 1] == NoRefusals(m - 1);
      PassStep(live, front, NoRefusals(m));
      StepSelect(all, After(all, s, m), all[m - 1].target);
      assert After(all, s, m - 1) == Taken(all, After(all, s, m), all[m - 1].target);
      PassFrom(all, s, m - 1);
      assert !NoRefusals(m)[m - 1];
      assert (forall k: nat :: k < m ==> !BusyStep(all, s, k)) <==>
        !BusyStep(all, s, m - 1) && forall k: nat :: k < m - 1 ==> !BusyStep(all, s, k);
    }
  }

  lemma {:induction false} PassOfNothing(live: Table)
    ensures Targets([]) == [] && Pass(live, [], []) == Step(live, true)
  {
  }

  /** The pass reports success exactly when no step finds a busy mount. */
  lemma {:induction false} PassOkIff(all: Table, s: set<nat>)
    ensures Pass(Select(all, s), Targets(all), NoRefusals(|all|)).ok <==> forall k: nat :: k < |all| ==> !BusyStep(all, s, k)
  {
    hide Pass, Select, Targets, BusyStep;
    PassFrom(all, s, |all|);
    assert all[..|all|] == all;
  }

  lemma {:induction false} AfterIsClosed(all: Table, s: set<nat>, m: nat)
    requires Closed(all, s) && m <= |all|
    ensures Closed(all, After(all, s, m)) && After(all, s, m) <= s
    decreases |all| - m
  {
    hide Closed, Taken;
    if m < |all| {
      AfterIsClosed(all, s, m + 1);
      TakenIsClosed(all, After(all, s, m + 1), all[m].target);
    }
  }

  /** As long as nothing was busy, the positions that have been dealt with are free. */
  lemma {:induction false} TopGoes(all: Table, s: set<nat>, m: nat)
    requires Closed(all, s) && m <= |all| && forall k: nat :: m <= k < |all| ==> !BusyStep(all, s, k)
    ensures forall i: nat :: i in After(all, s, m) ==> i < m
    decreases |all| - m
  {
    hide Closed, TakeOff;
    AfterIsClosed(all, s, m);
    if m == |all| {
      ClosedIsInside(all, s);
    } else {
      TopGoes(all, s, m + 1);
      var now := After(all, s, m + 1);
      if m in now {
        assert IsCover(all, now, all[m].target, m) && NoneBelow(all, now, all[m].target, m);
        EffectMeans(all, now, all[m].target);
      }
    }
  }

  lemma {:induction false} ClosedIsInside(all: Table, s: set<nat>)
    requires Closed(all, s)
    ensures forall i: nat :: i in s ==> i < |all|
  {
  }

  /** The mount points on the way to a path. */
  predicate OnTheWay(all: Table, path: Path, i: nat)
  {
    i < |all| && all[i].target <= path
  }

  /** If everything on the way to a path was there, the pass has so far taken off exactly the later part of it. */
  lemma {:induction false} WayShrinks(all: Table, s: set<nat>, path: Path, m: nat)
    requires Closed(all, s) && m <= |all| && forall k: nat :: m <= k < |all| ==> !BusyStep(all, s, k)
    requires forall i: nat :: OnTheWay(all, path, i) ==> i in s
    ensures forall i: nat :: OnTheWay(all, path, i) && i < m ==> i in After(all, s, m)
    decreases |all| - m
  {
    hide Closed, TakeOff;
    if m < |all| {
      WayShrinks(all, s, path, m + 1);
      TopGoes(all, s, m + 1);
      var now, p := After(all, s, m + 1), all[m].target;
      EffectMeans(all, now, p);
      if OnTheWay(all, path, m) {
        assert IsCover(all, now, p, m);
      } else {
        forall i: nat | OnTheWay(all, path, i) && i < m ensures i in After(all, s, m) {
          assert all[i].target != p;
        }
      }
    }
  }

  /** The first busy step is at a path on the way to which something was missing from the start. */
  lemma {:induction false} SomethingIsMissing(all: Table, s: set<nat>, k: nat) returns (first: nat)
    requires Closed(all, s) && k < |all| && BusyStep(all, s, k)
    requires forall m: nat :: k < m < |all| ==> !BusyStep(all, s, m)
    ensures OnTheWay(all, all[k].target, first) && first !in s
    ensures forall i: nat :: i < first && OnTheWay(all, all[k].target, i) ==> i in s
  {
    var path := all[k].target;
    if forall i: nat :: OnTheWay(all, path, i) ==> i in s {
      WayIsNeverBusy(all, s, k);
    }
    first := FirstMissing(all, s, path, |all|);
  }

  lemma {:induction false} WayIsNeverBusy(all: Table, s: set<nat>, k: nat)
    requires Closed(all, s) && k < |all| && forall m: nat :: k < m < |all| ==> !BusyStep(all, s, m)
    requires forall i: nat :: OnTheWay(all, all[k].target, i) ==> i in s
    ensures !BusyStep(all, s, k)
  {
    hide Closed, TakeOff;
    var path := all[k].target;
    WayShrinks(all, s, path, k + 1);
    TopGoes(all, s, k + 1);
    var now := After(all, s, k + 1);
    assert OnTheWay(all, path, k);
    assert IsCover(all, now, path, k) && NoneBelow(all, now, path, k);
    EffectMeans(all, now, path);
  }

  lemma {:induction false} FirstMissing(all: Table, s: set<nat>, path: Path, n: nat) returns (first: nat)
    requires exists i: nat :: i < n && OnTheWay(all, path, i) && i !in s
    ensures OnTheWay(all, path, first) && first !in s
    ensures forall i: nat :: i < first && OnTheWay(all, path, i) ==> i in s
  {
    var found: nat :| found < n && OnTheWay(all, path, found) && found !in s;
    if i: nat :| i < found && OnTheWay(all, path, i) && i !in s {
      first := FirstMissing(all, s, path, found);
    } else {
      first := found;
    }
  }

  /** As far as a path is concerned, s has no more than t: the same on the way to it, and nothing else below it. */
  ghost predicate Within(all: Table, s: set<nat>, t: set<nat>, path: Path)
  {
    (forall i: nat :: OnTheWay(all, path, i) ==> (i in s <==> i in t)) &&
    forall i: nat :: i < |all| && i in s && path < all[i].target ==> i in t
  }

  /** Two tables under the same unmount. */
  lemma {:induction false} WithinStep(all: Table, s: set<nat>, t: set<nat>, path: Path, p: Path)
    requires Within(all, s, t, path) && !TakeOff(all, s, p).BusyAt? && !TakeOff(all, t, p).BusyAt?
    ensures Within(all, Taken(all, s, p), Taken(all, t, p), path)
  {
    hide TakeOff, Within;
    if !Comparable(p, path) {
      ElsewhereStep(all, s, t, path, p);
    } else {
      WithinComparable(all, s, t, path, p);
    }
  }

  lemma {:induction false} ElsewhereStep(all: Table, s: set<nat>, t: set<nat>, path: Path, p: Path)
    requires Within(all, s, t, path) && !Comparable(p, path)
    ensures Within(all, Taken(all, s, p), Taken(all, t, p), path)
  {
    hide TakeOff;
    EffectMeans(all, s, p);
    EffectMeans(all, t, p);
  }

  lemma {:induction false} WithinComparable(all: Table, s: set<nat>, t: set<nat>, path: Path, p: Path)
    requires Within(all, s, t, path) && !TakeOff(all, s, p).BusyAt? && !TakeOff(all, t, p).BusyAt? && Comparable(p, path)
    ensures Within(all, Taken(all, s, p), Taken(all, t, p), path)
  {
    hide TakeOff;
    EffectMeans(all, s, p);
    EffectMeans(all, t, p);
    var out, also := TakeOff(all, t, p), TakeOff(all, s, p);
    if out.GoneAt? {
      var c: nat :| IsCover(all, t, p, c) && all[c].target == p;
      if c in s {
        CoverWithin(all, s, t, path, p, c);
      }
    }
    if also.GoneAt? && p <= path {
      var c: nat :| IsCover(all, s, p, c) && all[c].target == p;
      assert OnTheWay(all, path, c);
      forall j: nat | c < j < |all| && j in t ensures !(all[j].target <= p) {
        assert all[j].target <= p ==> OnTheWay(all, path, j);
      }
      assert IsCover(all, t, p, c);
    }
  }

  lemma {:induction false} CoverWithin(all: Table, s: set<nat>, t: set<nat>, path: Path, p: Path, c: nat)
    requires Within(all, s, t, path) && Comparable(p, path) && IsCover(all, t, p, c) && c in s
    ensures IsCover(all, s, p, c)
  {
    forall j: nat | j < |all| && all[j].target <= p ensures OnTheWay(all, path, j) || path < all[j].target {
      PrefixesCompare(all[j].target, p, path);
    }
  }

  lemma {:induction false} PrefixesCompare(q: Path, p: Path, path: Path)
    requires q <= p && Comparable(p, path)
    ensures Comparable(q, path)
  {
    if path <= p {
      assert q == p[..|q|] && path == p[..|path|];
    }
  }

  lemma {:induction false} WithinPass(all: Table, s: set<nat>, t: set<nat>, path: Path, m: nat)
    requires Within(all, s, t, path) && m <= |all|
    requires forall k: nat :: m <= k < |all| ==> !BusyStep(all, s, k) && !BusyStep(all, t, k)
    ensures Within(all, After(all, s, m), After(all, t, m), path)
    decreases |all| - m
  {
    hide TakeOff, Within, Taken;
    if m < |all| {
      WithinPass(all, s, t, path, m + 1);
      assert !BusyStep(all, s, m) && !BusyStep(all, t, m);
      WithinStep(all, After(all, s, m + 1), After(all, t, m + 1), path, all[m].target);
    }
  }

  /** Before the first missing mount on the way to a path nothing is missing that matters for the path. */
  lemma {:induction false} CutIsWithin(all: Table, s: set<nat>, path: Path, first: nat)
    requires Closed(all, s) && OnTheWay(all, path, first) && first !in s
    requires forall i: nat :: i < first && OnTheWay(all, path, i) ==> i in s
    ensures Within(all, s, Positions(first), path)
  {
    forall i: nat | i < |all| && (all[i].target <= path || path < all[i].target) && i in s ensures i < first {
      PrefixesCompare(all[first].target, path, all[i].target);
    }
  }

  lemma {:induction false} BusyWithin(all: Table, s: set<nat>, t: set<nat>, path: Path)
    requires Within(all, s, t, path) && TakeOff(all, s, path).BusyAt?
    ensures TakeOff(all, t, path).BusyAt?
  {
    hide TakeOff;
    EffectMeans(all, s, path);
    EffectMeans(all, t, path);
    var c: nat :| IsCover(all, s, path, c) && all[c].target == path;
    assert OnTheWay(all, path, c);
    forall j: nat | c < j < |all| && j in t ensures !(all[j].target <= path) {
      assert all[j].target <= path ==> OnTheWay(all, path, j);
    }
    assert IsCover(all, t, path, c);
    assert !NoneBelow(all, s, path, c);
  }

  /** A busy pass from anything that passes can leave means a busy pass from some cut. */
  lemma {:induction false} BusyFromCut(all: Table, s: set<nat>, k: nat) returns (cut: nat, m: nat)
    requires Closed(all, s) && k < |all| && BusyStep(all, s, k)
    requires forall i: nat :: k < i < |all| ==> !BusyStep(all, s, i)
    ensures cut <= |all| && m < |all| && BusyStep(all, Positions(cut), m)
  {
    hide Closed, TakeOff, Within, After;
    var path := all[k].target;
    cut := SomethingIsMissing(all, s, k);
    CutIsWithin(all, s, path, cut);
    if i: nat :| k < i < |all| && BusyStep(all, Positions(cut), i) {
      m := i;
    } else {
      WithinPass(all, s, Positions(cut), path, k + 1);
      BusyWithin(all, After(all, s, k + 1), After(all, Positions(cut), k + 1), path);
      m := k;
    }
  }

  lemma {:induction false} LastBusy(all: Table, s: set<nat>, k: nat) returns (last: nat)
    requires k < |all| && BusyStep(all, s, k)
    ensures last < |all| && BusyStep(all, s, last) && forall i: nat :: last < i < |all| ==> !BusyStep(all, s, i)
    decreases |all| - k
  {
    hide BusyStep;
    if i: nat :| k < i < |all| && BusyStep(all, s, i) {
      last := LastBusy(all, s, i);
    } else {
      last := k;
    }
  }

  /** From the mounts up to any point, one pass over the whole list without refusals reports no busy mount. */
  predicate EveryCutPasses(all: Table)
  {
    forall c :: 0 <= c <= |all| ==> Pass(all[..c], Targets(all), NoRefusals(|all|)).ok
  }

  lemma {:induction false} RefusedPass(table: Table, paths: seq<Option<Path>>, refused: seq<bool>)
    requires |refused| == |paths| && forall i :: 0 <= i < |refused| ==> refused[i]
    ensures Pass(table, paths, refused).table == table
    decreases |paths|
  {
    hide UnmountStep;
    if paths != [] {
      var n := |paths| - 1;
      NoStep(table, paths[n], refused[n]);
      RefusedPass(table, paths[..n], refused[..n]);
    }
  }

  /** A pass that is refused exactly for the mounts before a cut leaves those. */
  lemma {:induction false} CutIsLeft(all: Table, c: nat, refused: seq<bool>)
    requires c <= |all| == |refused| && forall i :: 0 <= i < |refused| ==> refused[i] == (i < c)
    ensures Pass(all, Targets(all), refused).table == all[..c]
    decreases |all|
  {
    hide Pass, Targets, UnmountStep;
    if c == |all| {
      RefusedPass(all, Targets(all), refused);
      assert all[..c] == all;
    } else {
      var n := |all| - 1;
      PassStep(all, all, refused);
      assert all == all[..n] + [all[n]];
      LastGoes(all[..n], all[n]);
      CutIsLeft(all[..n], c, refused[..n]);
      assert all[..n][..c] == all[..c];
    }
  }

  lemma {:induction false} LastGoes(front: Table, m: Mount)
    ensures UnmountStep(front + [m], Some(m.target), false) == Step(front, true)
  {
    hide Unmount;
    UnmountLast(front, m);
  }

  /** Exactly when one pass is enough. Whatever passes over the list, refused anywhere, came before: one more without
      refusals reports success, if and only if it does after each of the |all| + 1 cuts of the list. */
  lemma {:induction false} OnePassSufficesIff(all: Table)
    ensures (forall rounds: seq<seq<bool>> | Rounds(rounds, |all|) ::
               Pass(AfterPasses(all, Targets(all), rounds), Targets(all), NoRefusals(|all|)).ok)
       <==> EveryCutPasses(all)
  {
    hide Pass, Targets, Select, BusyStep, Closed;
    if EveryCutPasses(all) {
      forall rounds: seq<seq<bool>> | Rounds(rounds, |all|)
        ensures Pass(AfterPasses(all, Targets(all), rounds), Targets(all), NoRefusals(|all|)).ok
      {
        OnePassAfter(all, rounds);
      }
    } else {
      var c :| 0 <= c <= |all| && !Pass(all[..c], Targets(all), NoRefusals(|all|)).ok;
      var refused := seq(|all|, i => i < c);
      CutIsLeft(all, c, refused);
      var rounds := [refused];
      AfterOne(all, Targets(all), refused);
    }
  }

  lemma {:induction false} AfterOne(table: Table, paths: seq<Option<Path>>, refused: seq<bool>)
    requires |refused| == |paths|
    ensures Rounds([refused], |paths|) && AfterPasses(table, paths, [refused]) == Pass(table, paths, refused).table
  {
    hide Pass;
    var none: seq<seq<bool>> := [];
    assert [refused][..0] == none && AfterPasses(table, paths, none) == table;
  }

  lemma {:induction false} OnePassAfter(all: Table, rounds: seq<seq<bool>>)
    requires EveryCutPasses(all) && Rounds(rounds, |all|)
    ensures Pass(AfterPasses(all, Targets(all), rounds), Targets(all), NoRefusals(|all|)).ok
  {
    hide Pass, Targets, Select, BusyStep, Closed, AfterPasses;
    var s := PassesLeave(all, Targets(all), rounds);
    PassOkIff(all, s);
    if k: nat :| k < |all| && BusyStep(all, s, k) {
      var last := LastBusy(all, s, k);
      var cut, m := BusyFromCut(all, s, last);
      SelectAll(all, cut);
      PassOkIff(all, Positions(cut));
    }
  }

  /** A readable sufficient condition: no mount point is mounted again after something below it. */
  lemma {:induction false} NoSandwichPasses(all: Table)
    requires NoSandwich(all)
    ensures EveryCutPasses(all)
  {
    hide Pass, Targets, PartOf, NoSandwich;
    forall c | 0 <= c <= |all| ensures Pass(all[..c], Targets(all), NoRefusals(|all|)).ok {
      PartOfItself(all[..c]);
      PartOfMore(all[..c], all[..c], all[c..]);
      assert all[..c] + all[c..] == all;
      QuietPassSucceeds(all[..c], all, NoRefusals(|all|));
    }
  }

  /** It is not necessary: here a mount point is mounted again after something below it, but that is mounted again too, and
      unmounting it first always clears the way. */
  lemma {:induction false} SandwichCanBeHarmless(a: Mount, b: Mount, c: Mount, d: Mount)
    requires a.target == c.target && b.target == d.target && a.target < b.target
    ensures Sandwich([a, b, c, d], 0, 1, 2) && EveryCutPasses([a, b, c, d])
  {
    hide Pass, Targets;
    var all := [a, b, c, d];
    forall cut | 0 <= cut <= 4 ensures Pass(all[..cut], Targets(all), NoRefusals(4)).ok {
      FourSteps(all, cut);
    }
  }

  lemma {:induction false} FourSteps(all: Table, cut: nat)
    requires |all| == 4 && cut <= 4
    requires all[0].target == all[2].target && all[1].target == all[3].target && all[0].target < all[1].target
    ensures Pass(all[..cut], Targets(all), NoRefusals(4)).ok
  {
    hide Pass, Targets, UnmountStep;
    var none, one, two, three: Table := [], all[..1], all[..2], all[..3];
    assert one == none + [all[0]] && two == one + [all[1]] && three == two + [all[2]] && all == three + [all[3]];
    LastGoes(none, all[0]);
    LastGoes(one, all[1]);
    LastGoes(two, all[2]);
    LastGoes(three, all[3]);
    HiddenStep(none, all[0], all[1].target);
    HiddenStep(two, all[2], all[1].target);
    NothingStep(all[0].target);
    NothingStep(all[1].target);
    assert all[..0] == none && all[..4] == all;
    assert cut == 0 || cut == 1 || cut == 2 || cut == 3 || cut == 4;
    PassOfFour(all[..cut], all);
  }

  lemma {:induction false} HiddenStep(front: Table, m: Mount, path: Path)
    requires m.target < path
    ensures UnmountStep(front + [m], Some(path), false) == Step(front + [m], true)
  {
    hide Unmount;
    UnmountSnoc(front, m, path);
  }

  lemma {:induction false} NothingStep(path: Path)
    ensures UnmountStep([], Some(path), false) == Step([], true)
  {
  }

  lemma {:induction false} PassOfFour(live: Table, all: Table)
    requires |all| == 4
    ensures var s3 := UnmountStep(live, Some(all[3].target), false);
      var s2 := UnmountStep(s3.table, Some(all[2].target), false);
      var s1 := UnmountStep(s2.table, Some(all[1].target), false);
      var s0 := UnmountStep(s1.table, Some(all[0].target), false);
      Pass(live, Targets(all), NoRefusals(4)).ok == (s3.ok && s2.ok && s1.ok && s0.ok)
  {
    hide Pass, Targets, UnmountStep;
    var s3 := UnmountStep(live, Some(all[3].target), false);
    var s2 := UnmountStep(s3.table, Some(all[2].target), false);
    var s1 := UnmountStep(s2.table, Some(all[1].target), false);
    var s0 := UnmountStep(s1.table, Some(all[0].target), false);
    assert all[..3][..2] == all[..2] && all[..2][..1] == all[..1];
    assert NoRefusals(4)[..3] == NoRefusals(3) && NoRefusals(3)[..2] == NoRefusals(2) && NoRefusals(2)[..1] == NoRefusals(1);
    PassStep(live, all, NoRefusals(4));
    PassStep(s3.table, all[..3], NoRefusals(3));
    PassStep(s2.table, all[..2], NoRefusals(2));
    PassStep(s1.table, all[..1], NoRefusals(1));
    PassOfNothing(s0.table);
    assert all[..1][..0] == [] && NoRefusals(1)[..0] == [];
  }

  // ---------- when a pass reports success too early ----------

  /** After some passes one more, over the same paths, reports success although mounts are left. */
  ghost predicate CanEndTooEarly(all: Table, paths: seq<Option<Path>>)
  {
    exists rounds: seq<seq<bool>> | Rounds(rounds, |paths|) ::
      var end := Pass(AfterPasses(all, paths, rounds), paths, NoRefusals(|paths|));
      end.ok && end.table != []
  }

  /** A mount on the root hides everything before it: there are more mounts on the root up to it than the paths name,
      what was mounted later can be taken off, and then a pass over the paths reports success. */
  predicate Hides(all: Table, root: Path, paths: seq<Option<Path>>, u: nat)
    requires u < |all|
  {
    all[u].target == root && AtRoot(all[..u + 1], root) > PathsAtRoot(paths, root) &&
    (forall i :: u < i < |all| ==> Some(all[i].target) in paths) &&
    Pass(all[..u + 1], paths, NoRefusals(|paths|)).ok
  }

  /** A pass in which a single path is tried. */
  lemma {:induction false} SingleAttempt(table: Table, paths: seq<Option<Path>>, refused: seq<bool>, q: nat)
    requires |refused| == |paths| && q < |paths| && forall i :: 0 <= i < |refused| ==> refused[i] == (i != q)
    ensures Pass(table, paths, refused).table == UnmountStep(table, paths[q], false).table
    decreases |paths|
  {
    hide UnmountStep;
    var n := |paths| - 1;
    if q == n {
      RefusedPass(UnmountStep(table, paths[n], false).table, paths[..n], refused[..n]);
    } else {
      NoStep(table, paths[n], refused[n]);
      SingleAttempt(table, paths[..n], refused[..n], q);
    }
  }

  /** What was mounted after a point can be taken off one by one if its mount points are all named. */
  lemma {:induction false} CutIsReached(all: Table, paths: seq<Option<Path>>, c: nat) returns (rounds: seq<seq<bool>>)
    requires c <= |all| && forall i :: c <= i < |all| ==> Some(all[i].target) in paths
    ensures Rounds(rounds, |paths|) && AfterPasses(all, paths, rounds) == all[..c]
    decreases |all| - c
  {
    hide Pass, UnmountStep;
    if c == |all| {
      rounds := [];
      assert all[..c] == all;
    } else {
      var before := CutIsReached(all, paths, c + 1);
      var q: nat :| q < |paths| && paths[q] == Some(all[c].target);
      var refused := seq(|paths|, i => i != q);
      rounds := before + [refused];
      assert rounds[..|before|] == before;
      SingleAttempt(all[..c + 1], paths, refused, q);
      assert all[..c + 1] == all[..c] + [all[c]];
      LastGoes(all[..c], all[c]);
    }
  }

  lemma {:induction false} HidingEndsTooEarly(all: Table, root: Path, paths: seq<Option<Path>>, u: nat)
    requires WellNested(all, root) && AllBelow(paths, root) && u < |all| && Hides(all, root, paths, u)
    ensures CanEndTooEarly(all, paths)
  {
    hide Pass, AtRoot, PathsAtRoot;
    var rounds := CutIsReached(all, paths, u + 1);
    var live := all[..u + 1];
    assert WellNested(live, root);
    PassKeepsNesting(live, root, paths, NoRefusals(|paths|));
    NoneAtRootOfNothing(root);
  }

  lemma {:induction false} NoneAtRootOfNothing(root: Path)
    ensures AtRoot([], root) == 0
  {
  }

  /** The mount is one of the later ones that are still there. */
  predicate FromRest(all: Table, s: set<nat>, c: nat, m: Mount)
  {
    exists j :: c <= j < |all| && j in s && all[j] == m
  }

  lemma {:induction false} SelectSplit(all: Table, s: set<nat>, c: nat) returns (rest: Table)
    requires c <= |all| && forall i: nat :: i < c ==> i in s
    ensures Select(all, s) == all[..c] + rest
    ensures forall m :: m in rest ==> FromRest(all, s, c, m)
    decreases |all|
  {
    if c == |all| {
      SelectIgnores(all, s, Positions(c));
      SelectAll(all, c);
      rest := [];
      assert all[..c] + rest == all[..c];
    } else {
      var n := |all| - 1;
      var front := all[..n];
      var before := SelectSplit(front, s, c);
      assert front[..c] == all[..c];
      rest := before + (if n in s then [all[n]] else []);
      assert Select(all, s) == all[..c] + rest;
      forall m | m in rest ensures FromRest(all, s, c, m) {
        if m in before {
          var j :| c <= j < n && j in s && front[j] == m;
          assert all[j] == m;
        } else {
          assert all[n] == m;
        }
      }
    }
  }

  /** What lies over the last mount on the root is all a successful pass sees before it takes that mount off; so the pass
      also succeeds without it. */
  lemma {:induction false} OverlayIsIrrelevant(live: Table, over: Table, root: Path, paths: seq<Option<Path>>)
    requires live != [] && live[|live| - 1].target == root && AllBelow(paths, root)
    requires AllOver(over, root) && Pass(live + over, paths, NoRefusals(|paths|)).ok
    ensures Pass(live, paths, NoRefusals(|paths|)).ok
    decreases |paths|
  {
    hide Unmount;
    if paths != [] {
      var n := |paths| - 1;
      assert NoRefusals(n + 1)[..n] == NoRefusals(n) && !NoRefusals(n + 1)[n];
      if over == [] {
        assert live + over == live;
      } else if paths[n].Some? {
        var left := OverlayStep(live, over, root, paths[n].value);
        OverlayIsIrrelevant(live, left, root, paths[..n]);
      }
    }
  }

  predicate AllOver(over: Table, root: Path)
  {
    forall i :: 0 <= i < |over| ==> root < over[i].target
  }

  /** With something over the last mount on the root, the root is busy and no other unmount reaches below. */
  lemma {:induction false} OverlayEffect(live: Table, over: Table, root: Path, path: Path) returns (left: Table)
    requires live != [] && live[|live| - 1].target == root && root <= path && AllOver(over, root)
    ensures AllOver(left, root)
    ensures path == root ==> Unmount(live + over, path) == if over == [] then Gone(live[..|live| - 1]) else Busy
    ensures path != root ==> Unmount(live + over, path) in {NotAMount, Busy, Gone(live + left)}
    decreases |over|
  {
    hide Unmount;
    left := [];
    if over == [] {
      assert live + over == live == live[..|live| - 1] + [live[|live| - 1]];
      UnmountSnoc(live[..|live| - 1], live[|live| - 1], path);
    } else {
      var front, m := over[..|over| - 1], over[|over| - 1];
      assert live + over == (live + front) + [m];
      UnmountSnoc(live + front, m, path);
      left := OverlayEffect(live, front, root, path);
      if m.target <= path {
        left := front;
      } else {
        assert live + (left + [m]) == (live + left) + [m];
        left := left + [m];
      }
    }
  }

  lemma {:induction false} OverlayStep(live: Table, over: Table, root: Path, path: Path) returns (left: Table)
    requires live != [] && live[|live| - 1].target == root && root <= path && over != [] && AllOver(over, root)
    requires UnmountStep(live + over, Some(path), false).ok
    ensures AllOver(left, root) && path != root && UnmountStep(live, Some(path), false) == Step(live, true)
    ensures UnmountStep(live + over, Some(path), false).table == live + left
  {
    hide Unmount;
    left := OverlayEffect(live, over, root, path);
    var none: Table := [];
    assert live == live + none && live == live[..|live| - 1] + [live[|live| - 1]];
    UnmountSnoc(live[..|live| - 1], live[|live| - 1], path);
    if !Unmount(live + over, path).Gone? {
      left := over;
    }
  }

  lemma {:induction false} PassesKeepNesting(all: Table, root: Path, paths: seq<Option<Path>>, rounds: seq<seq<bool>>)
    requires WellNested(all, root) && AllBelow(paths, root) && Rounds(rounds, |paths|)
    ensures WellNested(AfterPasses(all, paths, rounds), root)
  {
    hide Pass, WellNested;
    if rounds != [] {
      var n := |rounds| - 1;
      PassesKeepNesting(all, root, paths, rounds[..n]);
      PassKeepsNesting(AfterPasses(all, paths, rounds[..n]), root, paths, rounds[n]);
    }
  }

  lemma {:induction false} LastAtRoot(all: Table, s: set<nat>, root: Path) returns (u: nat)
    requires AtRoot(Select(all, s), root) > 0
    ensures u < |all| && u in s && all[u].target == root
    ensures forall i: nat :: u < i < |all| && i in s ==> all[i].target != root
    decreases |all|
  {
    if all == [] {
      NoneAtRootOfNothing(root);
    }
    var n := |all| - 1;
    var front, one: Table := all[..n], if n in s then [all[n]] else [];
    AtRootConcat(Select(front, s), one, root);
    AtRootZero(one, root);
    if n in s && all[n].target == root {
      u := n;
    } else {
      u := LastAtRoot(front, s, root);
    }
  }

  lemma {:induction false} NamedAtRoot(paths: seq<Option<Path>>, root: Path)
    requires Some(root) in paths
    ensures PathsAtRoot(paths, root) >= 1
  {
    var n := |paths| - 1;
    assert paths == paths[..n] + [paths[n]];
    if paths[n] != Some(root) {
      NamedAtRoot(paths[..n], root);
    }
  }

  /** Everything before a mount that is left is left too, and what is left after the last one on the root lies over it. */
  lemma {:induction false} LeftUpTo(all: Table, s: set<nat>, root: Path, u: nat) returns (over: Table)
    requires WellNested(all, root) && Closed(all, s) && u < |all| && all[u].target == root
    requires u in s || exists i: nat :: u < i < |all| && i in s
    ensures Select(all, s) == all[..u + 1] + over && AtRoot(Select(all, s), root) >= AtRoot(all[..u + 1], root)
    ensures (forall i: nat :: u < i < |all| && i in s ==> all[i].target != root) ==>
      AllOver(over, root) && AtRoot(Select(all, s), root) == AtRoot(all[..u + 1], root)
  {
    hide Select, AtRoot;
    assert u in s;
    over := SelectSplit(all, s, u + 1);
    AtRootConcat(all[..u + 1], over, root);
    if forall i: nat :: u < i < |all| && i in s ==> all[i].target != root {
      forall i | 0 <= i < |over| ensures root < over[i].target {
        assert FromRest(all, s, u + 1, over[i]);
      }
      AtRootZero(over, root);
    }
  }

  lemma {:induction false} EndingTooEarlyHides(all: Table, root: Path, paths: seq<Option<Path>>, rounds: seq<seq<bool>>)
    returns (u: nat)
    requires WellNested(all, root) && AllBelow(paths, root) && Some(root) in paths && Rounds(rounds, |paths|)
    requires var end := Pass(AfterPasses(all, paths, rounds), paths, NoRefusals(|paths|)); end.ok && end.table != []
    ensures u < |all| && Hides(all, root, paths, u)
  {
    hide Select, Pass, AtRoot, PathsAtRoot, Closed, WellNested, AfterPasses, AllOver;
    var none := NoRefusals(|paths|);
    var s := PassesLeave(all, paths, rounds);
    var live := Select(all, s);
    var t := PassLeaves(all, s, paths, none);
    PassesKeepNesting(all, root, paths, rounds);
    PassKeepsNesting(live, root, paths, none);
    NothingLeft(Pass(live, paths, none).table, root);
    NamedAtRoot(paths, root);
    u := LastAtRoot(all, s, root);
    var over := LeftUpTo(all, s, root, u);
    OverlayIsIrrelevant(all[..u + 1], over, root, paths);
    forall i | u < i < |all| ensures Some(all[i].target) in paths {
      if i in t {
        var left := LeftUpTo(all, t, root, u);
      }
    }
  }

  /** Exactly when a pass can report success too early, over all sequences of refused passes before it. */
  lemma {:induction false} CanEndTooEarlyIff(all: Table, root: Path, paths: seq<Option<Path>>)
    requires WellNested(all, root) && AllBelow(paths, root) && Some(root) in paths
    ensures CanEndTooEarly(all, paths) <==> exists u: nat :: u < |all| && Hides(all, root, paths, u)
  {
    hide Hides, WellNested, Pass, AfterPasses;
    if CanEndTooEarly(all, paths) {
      var rounds: seq<seq<bool>> :| Rounds(rounds, |paths|) &&
        (var end := Pass(AfterPasses(all, paths, rounds), paths, NoRefusals(|paths|)); end.ok && end.table != []);
      var u := EndingTooEarlyHides(all, root, paths, rounds);
    }
    if u: nat :| u < |all| && Hides(all, root, paths, u) {
      HidingEndsTooEarly(all, root, paths, u);
    }
  }
}
