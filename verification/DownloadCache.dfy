/** The download cache: the list in its state container, the directories on disk. */
module DownloadCaches {
  import opened PersistedStates
  import opened LruLists

  const RENAME_ATTEMPTS := 20

  /** The directories of the cache, and the staging directories beside them. */
  class Directories {
    var present: set<string>
    var staging: set<string>

    constructor ()
      ensures present == {} && staging == {}
    {
      present, staging := {}, {};
    }
  }

  class DownloadCache {
    const path: Directories
    const state: PersistedStateContainer<Names>

    ghost predicate Valid()
      reads this
    {
      state.default == []
    }

    constructor (path: Directories, state: PersistedStateContainer<Names>)
      requires state.default == []
      ensures Valid() && this.path == path && this.state == state
    {
      this.path, this.state := path, state;
    }

    /** The list in use. */
    ghost function List(): Names
      reads state, state.path
    {
      state.Current()
    }

    method Touch(name: string, removes: bool, how: WriteOutcome) returns (ok: bool)
      requires Valid()
      modifies path`present, state`state, state.path
      ensures state.state.Some?
      ensures (List(), path.present) == AfterTouch(old(List()), old(path.present), name, removes)
      ensures state.path.contents == Overwritten(old(state.path.contents), List(), how)
      ensures ok <==> how.Succeeds?
    {
      var l := state.LoadOrGet();
      l := RemoveName(l, name);
      l := [name] + l;
      if |l| > KEEP_LRU {
        var f := l[|l| - 1];
        if f !in path.present || removes {
          path.present := path.present - {f};
          l := l[..|l| - 1];
        }
      }
      ok := state.Save(l, how);
    }

    /** The first half of a deletion, outside the lock of the list. */
    method RemoveDirectory(name: string, removes: bool) returns (ok: bool)
      modifies path`present
      ensures ok <==> name !in old(path.present) || removes
      ensures path.present == if ok then old(path.present) - {name} else old(path.present)
    {
      if name in path.present {
        if !removes {
          return false;
        }
        path.present := path.present - {name};
      }
      ok := true;
    }

    /** The second half, under the lock: whatever the directories are by now, the name leaves the list. */
    method Forget(name: string, how: WriteOutcome) returns (ok: bool)
      requires Valid()
      modifies state`state, state.path
      ensures List() == Retain(old(List()), name) && state.state.Some?
      ensures state.path.contents == Overwritten(old(state.path.contents), List(), how)
      ensures ok <==> how.Succeeds?
    {
      var l := state.LoadOrGet();
      ok := state.Save(Retain(l, name), how);
    }

    /** Undisturbed; fails without touching the list when the directory is there and cannot be removed. */
    method Delete(name: string, removes: bool, how: WriteOutcome) returns (ok: bool)
      requires Valid()
      modifies path`present, state`state, state.path
      ensures var (l, dirs, removed) := AfterDelete(old(List()), old(path.present), name, removes);
        && List() == l && path.present == dirs
        && (ok <==> removed && how.Succeeds?)
        && state.path.contents
          == if removed then Overwritten(old(state.path.contents), l, how) else old(state.path.contents)
    {
      ok := RemoveDirectory(name, removes);
      if ok {
        ok := Forget(name, how);
      }
    }

    /**
     created says whether the content could be downloaded, worksAt which attempt at the rename would
     be the first to succeed.
     */
    method Create(name: string, created: bool, removes: bool, how: WriteOutcome, worksAt: nat) returns (ok: bool)
      requires Valid()
      modifies path, state`state, state.path
      ensures ok <==> name in path.present
      ensures ok <==> name in old(path.present) || (created && worksAt <= RENAME_ATTEMPTS)
      ensures name in old(path.present) || !created ==>
        List() == old(List()) && path.present == old(path.present) && state.path.contents == old(state.path.contents)
      ensures name !in old(path.present) && created ==>
        var (l, dirs) := AfterTouch(old(List()), old(path.present), name, removes);
        && List() == l && path.present == dirs + (if ok then {name} else {})
        && state.path.contents == Overwritten(old(state.path.contents), l, how)
      ensures ok && name !in old(path.present) ==> name !in path.staging
    {
      if name in path.present {
        return true;
      }
      path.staging := path.staging - {name};
      path.staging := path.staging + {name};
      if !created {
        return false;
      }
      var _ := Touch(name, removes, how);
      for attempt := 0 to RENAME_ATTEMPTS + 1
        invariant worksAt >= attempt
        invariant path.present == AfterTouch(old(List()), old(path.present), name, removes).1
        invariant List() == AfterTouch(old(List()), old(path.present), name, removes).0
      {
        if attempt == worksAt {
          path.staging := path.staging - {name};
          path.present := path.present + {name};
          return true;
        }
      }
      return false;
    }
  }

  /** The first occurrence, found and taken out by position. */
  method RemoveName(l: Names, name: string) returns (r: Names)
    ensures r == RemoveFirst(l, name)
  {
    for i := 0 to |l|
      invariant name !in l[..i]
    {
      if l[i] == name {
        RemoveAt(l, i, name);
        return l[..i] + l[i + 1..];
      }
    }
    NothingToRemove(l, name);
    return l;
  }

  lemma {:induction false} RemoveAt(l: Names, i: nat, name: string)
    requires i < |l| && name !in l[..i] && l[i] == name
    ensures RemoveFirst(l, name) == l[..i] + l[i + 1..]
    decreases i
  {
    if i > 0 {
      assert l[..i] == [l[0]] + l[1..][..i - 1];
      RemoveAt(l[1..], i - 1, name);
    }
  }
}
