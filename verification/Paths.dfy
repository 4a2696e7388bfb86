/** Absolute paths, their components, and joining a container path onto a root file system (core/safety.c). */
module Paths {
  import opened Text

  /** The non-empty components of a path. */
  function Components(path: string): seq<string>
  {
    Tokens(path, '/')
  }

  predicate UnsafeComponent(component: string)
  {
    component == "." || component == ".."
  }

  predicate HasUnsafe(components: seq<string>)
  {
    exists c :: c in components && UnsafeComponent(c)
  }

  lemma {:induction false} SplitConcat(a: string, b: string, c: char)
    ensures Split(a + [c] + b, c) == Split(a, c) + Split(b, c)
    decreases |a|
  {
    var k := IndexOf(a, c);
    if k == |a| {
      IndexOfJoined(a, c, b);
    } else {
      var rest := a[k + 1..] + [c] + b;
      assert a == a[..k] + [c] + a[k + 1..];
      assert a + [c] + b == a[..k] + [c] + rest;
      IndexOfJoined(a[..k], c, rest);
      SplitConcat(a[k + 1..], b, c);
    }
  }

  lemma {:induction false} ComponentsConcat(a: string, b: string)
    ensures Components(a + "/" + b) == Components(a) + Components(b)
  {
    SplitConcat(a, b, '/');
    NonEmptyAppend(Split(a, '/'), Split(b, '/'));
  }

  lemma {:induction false} ComponentsSkipSlash(s: string)
    requires s != [] && s[0] == '/'
    ensures Components(s) == Components(s[1..])
  {
    assert s == [] + "/" + s[1..];
    ComponentsConcat([], s[1..]);
  }

  lemma {:induction false} ComponentsTakeFirst(s: string)
    requires s != [] && s[0] != '/'
    ensures var k := IndexOf(s, '/');
      k > 0 && Components(s) == [s[..k]] + Components(s[k..])
  {
    var k := IndexOf(s, '/');
    if k == |s| {
      assert s[..k] == s;
      assert s[k..] == [];
      assert Split(s, '/') == [s];
      assert NonEmpty([s]) == [s] + NonEmpty([]);
    } else {
      assert s == s[..k] + "/" + s[k + 1..];
      ComponentsConcat(s[..k], s[k + 1..]);
      assert IndexOf(s[..k], '/') == k;
      assert s[..k][..k] == s[..k];
      ComponentsSkipSlash(s[k..]);
      assert s[k..][1..] == s[k + 1..];
    }
  }

  /** The scan of has_unsafe_path_component over what is left of the path at the cursor. */
  predicate UnsafeFrom(s: string)
    decreases |s|
  {
    if s == [] then false
    else if s[0] == '/' then UnsafeFrom(s[1..])
    else
      var k := IndexOf(s, '/');
      UnsafeComponent(s[..k]) || (k > 0 && UnsafeFrom(s[k..]))
  }

  lemma {:induction false} UnsafeFromIsHasUnsafe(s: string)
    ensures UnsafeFrom(s) == HasUnsafe(Components(s))
    decreases |s|
  {
    if s == [] {
      assert Components([]) == [];
    } else if s[0] == '/' {
      ComponentsSkipSlash(s);
      UnsafeFromIsHasUnsafe(s[1..]);
    } else {
      ComponentsTakeFirst(s);
      var k := IndexOf(s, '/');
      UnsafeFromIsHasUnsafe(s[k..]);
      assert s[..k] in Components(s);
      forall c | c in Components(s[k..]) ensures c in Components(s) {}
    }
  }

  /** has_unsafe_path_component */
  method HasUnsafePathComponent(path: string) returns (unsafe: bool)
    ensures unsafe == UnsafeFrom(path)
  {
    var component := path;
    while component != []
      invariant UnsafeFrom(path) == UnsafeFrom(component)
      decreases |component|
    {
      ghost var entry := |component|;
      while component != [] && component[0] == '/'
        invariant |component| <= entry
        invariant UnsafeFrom(path) == UnsafeFrom(component)
        decreases |component|
      {
        component := component[1..];
      }
      if component == [] {
        break;
      }
      var length := IndexOf(component, '/');
      if UnsafeComponent(component[..length]) {
        return true;
      }
      component := component[length..];
    }
    return false;
  }

  /** What td_join_rootfs_path returns for an output buffer of `size` bytes. */
  function JoinRootfs(rootfs: string, path: string, size: nat): Option<string>
  {
    if rootfs == [] || rootfs[0] != '/' || size == 0 || path == [] || path[0] != '/' || path == "/" ||
       HasUnsafe(Components(path)) then None
    else
      var output := rootfs + (if rootfs[|rootfs| - 1] == '/' then path[1..] else path);
      if |output| < size then Some(output) else None
  }

  /** td_join_rootfs_path */
  method JoinRootfsPath(rootfs: string, path: string, size: nat) returns (r: Option<string>)
    ensures r == JoinRootfs(rootfs, path, size)
  {
    if rootfs == [] || rootfs[0] != '/' || size == 0 || path == [] || path[0] != '/' || path == "/" {
      return None;
    }
    var unsafe := HasUnsafePathComponent(path);
    UnsafeFromIsHasUnsafe(path);
    if unsafe {
      return None;
    }
    var output := rootfs + (if rootfs[|rootfs| - 1] == '/' then path[1..] else path);
    return if |output| < size then Some(output) else None;
  }

  lemma {:induction false} JoinComponents(rootfs: string, path: string, size: nat)
    requires JoinRootfs(rootfs, path, size).Some?
    ensures Components(JoinRootfs(rootfs, path, size).value) == Components(rootfs) + Components(path)
  {
    var output := JoinRootfs(rootfs, path, size).value;
    ComponentsSkipSlash(path);
    var last := |rootfs| - 1;
    if rootfs[last] == '/' {
      assert rootfs == rootfs[..last] + "/" + [];
      assert output == rootfs[..last] + "/" + path[1..];
      ComponentsConcat(rootfs[..last], []);
      ComponentsConcat(rootfs[..last], path[1..]);
    } else {
      assert output == rootfs + "/" + path[1..];
      ComponentsConcat(rootfs, path[1..]);
    }
  }

  /** Lexical resolution: "." stays, ".." goes up (and stays at the top), anything else goes down. */
  function Resolve(components: seq<string>): seq<string>
  {
    if components == [] then []
    else
      var before, last := Resolve(components[..|components| - 1]), components[|components| - 1];
      if last == "." then before
      else if last == ".." then (if before == [] then [] else before[..|before| - 1])
      else before + [last]
  }

  lemma {:induction false} ResolveBelow(root: seq<string>, below: seq<string>)
    requires !HasUnsafe(below)
    ensures Resolve(root + below) == Resolve(root) + below
  {
    if below == [] {
      assert root + below == root;
    } else {
      var front, last := below[..|below| - 1], below[|below| - 1];
      forall c | c in front ensures !UnsafeComponent(c) { assert c in below; }
      ResolveBelow(root, front);
      assert last in below && !UnsafeComponent(last);
      assert (root + below)[..|root + below| - 1] == root + front;
      assert below == front + [last];
    }
  }

  /** Containment. However far a joined path is followed, it has not left the root file system: after k
      components of the container path it is exactly those k components below the resolved root. */
  lemma {:induction false} JoinNeverLeaves(rootfs: string, path: string, size: nat, k: nat)
    requires JoinRootfs(rootfs, path, size).Some? && k <= |Components(path)|
    ensures |Components(JoinRootfs(rootfs, path, size).value)| == |Components(rootfs)| + |Components(path)|
    ensures var walked := Components(JoinRootfs(rootfs, path, size).value)[..|Components(rootfs)| + k];
      Resolve(walked) == Resolve(Components(rootfs)) + Components(path)[..k]
  {
    JoinComponents(rootfs, path, size);
    var root, below := Components(rootfs), Components(path);
    assert (root + below)[..|root| + k] == root + below[..k];
    forall c | c in below[..k] ensures !UnsafeComponent(c) { assert c in below; }
    ResolveBelow(root, below[..k]);
  }

  /** A joined path resolves to the root itself exactly when the container path is nothing but slashes,
      which the test for "/" does not catch. */
  lemma {:induction false} JoinHitsRootIff(rootfs: string, path: string, size: nat)
    requires JoinRootfs(rootfs, path, size).Some?
    ensures Resolve(Components(JoinRootfs(rootfs, path, size).value)) == Resolve(Components(rootfs))
       <==> forall c :: c in path ==> c == '/'
  {
    JoinComponents(rootfs, path, size);
    ResolveBelow(Components(rootfs), Components(path));
    NoComponentsIff(path);
    var root, below := Resolve(Components(rootfs)), Components(path);
    assert |root + below| == |root| + |below|;
  }

  lemma {:induction false} NoComponentsIff(path: string)
    ensures Components(path) == [] <==> forall c :: c in path ==> c == '/'
  {
    if path == [] {
      assert Components([]) == [];
    } else if path[0] == '/' {
      ComponentsSkipSlash(path);
      NoComponentsIff(path[1..]);
      assert forall c :: c in path <==> c == path[0] || c in path[1..];
    } else {
      ComponentsTakeFirst(path);
      assert path[0] in path;
    }
  }

  lemma {:induction false} DoubleSlashPassesTheRootCheck(rootfs: string)
    requires rootfs != [] && rootfs[0] == '/' && rootfs[|rootfs| - 1] != '/'
    ensures JoinRootfs(rootfs, "/", |rootfs| + 3) == None
    ensures JoinRootfs(rootfs, "//", |rootfs| + 3) == Some(rootfs + "//")
  {
    assert forall c :: c in "//" ==> c == '/';
    NoComponentsIff("//");
  }

  /** Exactly when a container path is accepted: both paths absolute, the container path not just a slash, no component . or
      .. in it, and room for the result. */
  lemma {:induction false} JoinAcceptsIff(rootfs: string, path: string, size: nat)
    ensures JoinRootfs(rootfs, path, size).Some? <==>
      rootfs != [] && rootfs[0] == '/' && path != [] && path[0] == '/' && path != "/" &&
      (forall c :: c in Components(path) ==> c != "." && c != "..") &&
      |rootfs| + |path| - (if rootfs[|rootfs| - 1] == '/' then 1 else 0) < size
  {
    hide Components;
  }
}
