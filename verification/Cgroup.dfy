/** The three-step cgroup life cycle of docker/cgroup.c with its ownership flag. */
module Cgroup {
  import opened Names

  const CGROUP_BASE := "/sys/fs/cgroup/system.slice"

  /** get_container_cgroup_path for a valid name. */
  function CgroupPath(name: string): (path: string)
    ensures path != []
  {
    CGROUP_BASE + "/tinydocker-" + name
  }

  /** What the system makes of preparing a cgroup: whether somebody else creates the directory first, mkdir, writing the
      limits, and the rmdir of the rollback. */
  datatype PrepareEnv = PrepareEnv(appeared: bool, mkdirOk: bool, limitsOk: bool, rmdirOk: bool)

  class Hierarchy {
    var directories: set<string>

    constructor (directories: set<string>)
      ensures this.directories == directories
    {
      this.directories := directories;
    }
  }

  /** struct cgroup_state: the path, and whether this attempt created the directory. */
  class CgroupState {
    var path: string
    var created: bool

    constructor ()
      ensures path == [] && !created
    {
      path, created := [], false;
    }

    /** What this state may remove. */
    ghost function Owned(): set<string>
      reads this
    {
      if created then {path} else {}
    }

    /** cgroup_prepare: creates the directory or owns nothing; a directory of somebody else is left alone. */
    method Prepare(h: Hierarchy, name: string, env: PrepareEnv) returns (ok: bool)
      modifies this, h
      ensures var others := old(h.directories) + (if env.appeared then {CgroupPath(name)} else {});
        if old(created) then !ok && created && path == old(path) && h.directories == old(h.directories)
        else
          && h.directories == others + Owned() && (created ==> path == CgroupPath(name) && path !in others)
          && ok == (ValidName(name, 127) && env.mkdirOk && CgroupPath(name) !in others && env.limitsOk)
          && (ok ==> created)
          && (!ok && env.rmdirOk ==> !created)
    {
      if created {
        return false;
      }
      if env.appeared {
        h.directories := h.directories + {CgroupPath(name)};
      }
      path := [];
      var valid := ValidateName(name, 127);
      if !valid {
        return false;
      }
      path := CgroupPath(name);
      if path in h.directories || !env.mkdirOk {
        return false;
      }
      h.directories := h.directories + {path};
      created := true;
      if env.limitsOk {
        return true;
      }
      var ignored := Cleanup(h, env.rmdirOk);
      return false;
    }

    /** cgroup_apply */
    method Apply(pid: int, writeOk: bool) returns (ok: bool)
      ensures ok == (created && path != [] && pid > 0 && writeOk)
    {
      return created && path != [] && pid > 0 && writeOk;
    }

    /** cgroup_cleanup: removes the directory only if this attempt created it, and keeps the flag for a retry when the
        removal fails. */
    method Cleanup(h: Hierarchy, rmdirOk: bool) returns (ok: bool)
      modifies this, h
      ensures ok == (!old(created) || (old(path) != [] && (rmdirOk || old(path) !in old(h.directories))))
      ensures h.directories == if ok then old(h.directories) - old(Owned()) else old(h.directories)
      ensures created == (old(created) && !ok) && (!ok ==> path == old(path))
    {
      if !created {
        return true;
      }
      if path == [] {
        return false;
      }
      if path in h.directories {
        if !rmdirOk {
          return false;
        }
        h.directories := h.directories - {path};
      }
      created := false;
      path := [];
      return true;
    }
  }

  /** Different containers have different cgroups. */
  lemma {:induction false} CgroupPathsDiffer(a: string, b: string)
    ensures CgroupPath(a) == CgroupPath(b) <==> a == b
  {
    var prefix := CGROUP_BASE + "/tinydocker-";
    assert CgroupPath(a)[|prefix|..] == a && CgroupPath(b)[|prefix|..] == b;
  }
}
