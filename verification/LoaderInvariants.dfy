/** What every step of the module manager keeps. */
module LoaderInvariants {
  import opened Graphs
  import opened LoaderMachine

  /** The state of one module, and what is left to release to it. */
  ghost predicate ModOk(m: Mod, owed: int) {
    && 0 <= m.scanned <= |m.decl|
    && (m.deps.Some? ==> m.deps.value == m.decl)
    && (m.deps.None? ==> m.complete && m.scanned == |m.decl| && m.wait == multiset{} && owed == 0)
    && (!m.complete ==> m.error.None?)
    && (m.complete && m.deps.Some? ==> m.error.Some?)
    // the counter counts exactly what the module still has to hear about
    && (!m.complete ==> m.count == |m.wait| + owed + |m.decl| - m.scanned)
  }

  ghost predicate ModsOk(s: State) {
    forall x | x in s.mods :: ModOk(s.mods[x], s.pend[x])
  }

  ghost predicate PendDefined(s: State) {
    forall x | x in s.pend :: x in s.mods
  }

  ghost predicate InvDefined(s: State) {
    forall d, x | d in s.inv && x in s.inv[d] :: x in s.mods
  }

  /** The waits of the modules are the transpose of the inverse dependency table. */
  ghost predicate Transposed(s: State) {
    forall x, d | x in s.mods :: s.mods[x].wait[d] == multiset(InvList(s.inv, d))[x]
  }

  /** Only declared dependencies are waited for, never one that has run, and each was requested. */
  ghost predicate Blocking(s: State) {
    forall x, d | x in s.mods && d in s.mods[x].wait ::
      Regular(d) in s.mods[x].decl && !Ran(s, d) && (d in s.mods || d in s.known)
  }

  ghost predicate Settled(s: State, x: Id, j: int)
    requires x in s.mods && 0 <= j < |s.mods[x].decl|
  {
    match s.mods[x].decl[j]
    case Regular(d) => (x, j) in s.cuts || Ran(s, d) || d in s.mods[x].wait
    case _ => true
  }

  ghost predicate IsScanned(s: State, x: Id, j: int) {
    x in s.mods && !Failed(s, x) && 0 <= j < s.mods[x].scanned <= |s.mods[x].decl|
  }

  /** Every scanned dependency of a module that has not failed was settled in one of three ways. */
  ghost predicate ScannedSettled(s: State) {
    forall x, j | IsScanned(s, x, j) ::
      Settled(s, x, j)
  }

  /** A cut edge x -> d lies on a cycle of declared dependencies. */
  ghost predicate CutOnCycle(s: State, x: Id, j: int) {
    && x in s.mods && 0 <= j < |s.mods[x].decl| && s.mods[x].decl[j].Regular?
    && HasPath(DeclGraph(s), s.mods[x].decl[j].id, x)
  }

  ghost predicate CutsSound(s: State) {
    forall c | c in s.cuts :: CutOnCycle(s, c.0, c.1)
  }

  ghost predicate WaitRank(s: State, rank: Id -> int) {
    && (forall v :: 0 <= rank(v))
    && (forall x, d | x in s.mods && d in s.mods[x].wait :: rank(d) < rank(x))
  }

  ghost predicate WaitsAcyclic(s: State) {
    exists rank :: WaitRank(s, rank)
  }

  ghost predicate LoggedBefore(log: seq<Completion>, d: Id, k: int)
    requires 0 <= k <= |log|
  {
    exists i :: 0 <= i < k && log[i].id == d
  }

  ghost predicate ArgOk(s: State, k: int, j: int)
    requires 0 <= k < |s.log| && s.log[k].id in s.mods
    requires 0 <= j < |s.mods[s.log[k].id].decl| == |s.log[k].args|
  {
    match s.mods[s.log[k].id].decl[j]
    case Exports => s.log[k].args[j] == OwnExports
    case ModuleInfo => s.log[k].args[j] == OwnInfo
    case Require => s.log[k].args[j] == LocalRequire
    case Regular(d) =>
      && d in s.mods && s.log[k].args[j] == ExportsOf(d)
      && ((s.log[k].id, j) in s.cuts || LoggedBefore(s.log, d, k))
  }

  /** The k-th completion got every dependency as an argument, and what was not cut had run before it. */
  ghost predicate CompletionOk(s: State, k: int)
    requires 0 <= k < |s.log|
  {
    && Ran(s, s.log[k].id)
    && |s.log[k].args| == |s.mods[s.log[k].id].decl|
    && forall j | 0 <= j < |s.log[k].args| :: ArgOk(s, k, j)
  }

  ghost predicate LogOk(s: State) {
    && (forall k | 0 <= k < |s.log| :: CompletionOk(s, k))
    && (forall i, k | 0 <= i < k < |s.log| :: s.log[i].id != s.log[k].id)
  }

  ghost predicate RanLogged(s: State) {
    forall x | Ran(s, x) :: LoggedBefore(s.log, x, |s.log|)
  }

  ghost predicate Inv(s: State) {
    && ModsOk(s) && PendDefined(s) && InvDefined(s) && Transposed(s) && Blocking(s) && ScannedSettled(s)
    && CutsSound(s) && WaitsAcyclic(s) && LogOk(s) && RanLogged(s)
  }

  lemma InitInv()
    ensures Inv(INIT_STATE)
  {
    assert WaitRank(INIT_STATE, x => 0);
  }

  // ----- steps that only add: declarations grow, the log does not change -----

  /** s' has every module of s, with the same declaration, and the same modules have run. */
  ghost predicate Grows(s: State, s': State) {
    && (forall x | x in s.mods :: x in s'.mods && s'.mods[x].decl == s.mods[x].decl)
    && (forall x :: Ran(s, x) <==> Ran(s', x))
    && s.cuts <= s'.cuts
    && s'.log == s.log
  }

  lemma CutOnCycleKept(s: State, s': State, x: Id, j: int)
    requires Grows(s, s') && CutOnCycle(s, x, j)
    ensures CutOnCycle(s', x, j)
  {
    PathMonotone(DeclGraph(s), DeclGraph(s'), s.mods[x].decl[j].id, x);
  }

  lemma CutsKept(s: State, s': State)
    requires Grows(s, s') && s'.cuts == s.cuts && CutsSound(s)
    ensures CutsSound(s')
  {
    forall c | c in s'.cuts
      ensures CutOnCycle(s', c.0, c.1)
    {
      CutOnCycleKept(s, s', c.0, c.1);
    }
  }

  lemma LogKept(s: State, s': State)
    requires Grows(s, s') && LogOk(s) && RanLogged(s)
    ensures LogOk(s') && RanLogged(s')
  {
    forall k | 0 <= k < |s'.log|
      ensures CompletionOk(s', k)
    {
      assert CompletionOk(s, k);
      forall j | 0 <= j < |s'.log[k].args|
        ensures ArgOk(s', k, j)
      {
        assert ArgOk(s, k, j);
      }
    }
  }

  lemma AcyclicKept(s: State, s': State)
    requires WaitsAcyclic(s)
    requires forall x, d | x in s'.mods && d in s'.mods[x].wait :: x in s.mods && d in s.mods[x].wait
    ensures WaitsAcyclic(s')
  {
    var rank :| WaitRank(s, rank);
    assert WaitRank(s', rank);
  }

  lemma SettledKept(s: State, s': State, x: Id, j: int)
    requires Grows(s, s') && x in s.mods && 0 <= j < |s.mods[x].decl| && Settled(s, x, j)
    requires s.mods[x].wait <= s'.mods[x].wait
    ensures Settled(s', x, j)
  {
  }

  // ----- defining a module -----

  lemma DefineTables(s: State, id: Id, deps: seq<Dep>, callback: Callback, errorback: bool)
    requires ModsOk(s) && PendDefined(s) && InvDefined(s) && Transposed(s) && id !in s.mods
    ensures var s' := DoDefine(s, id, deps, callback, errorback);
      ModsOk(s') && PendDefined(s') && InvDefined(s') && Transposed(s')
  {
    var s' := DoDefine(s, id, deps, callback, errorback);
    assert id !in s.pend;
    forall x, d | x in s'.mods
      ensures s'.mods[x].wait[d] == multiset(InvList(s'.inv, d))[x]
    {
      if x == id {
        assert x !in InvList(s.inv, d);
      }
    }
  }

  lemma DefineSettled(s: State, id: Id, deps: seq<Dep>, callback: Callback, errorback: bool)
    requires ScannedSettled(s) && Blocking(s) && id !in s.mods
    ensures var s' := DoDefine(s, id, deps, callback, errorback); ScannedSettled(s') && Blocking(s')
  {
    var s' := DoDefine(s, id, deps, callback, errorback);
    forall x, j | IsScanned(s', x, j)
      ensures Settled(s', x, j)
    {
      SettledKept(s, s', x, j);
    }
  }

  lemma DefineKeepsInv(s: State, id: Id, deps: seq<Dep>, callback: Callback, errorback: bool)
    requires Inv(s) && id !in s.mods
    ensures Inv(DoDefine(s, id, deps, callback, errorback))
  {
    var s' := DoDefine(s, id, deps, callback, errorback);
    DefineTables(s, id, deps, callback, errorback);
    DefineSettled(s, id, deps, callback, errorback);
    CutsKept(s, s');
    LogKept(s, s');
    AcyclicKept(s, s');
  }

  // ----- scanning one dependency -----

  ghost predicate Scanning(s: State, x: Id) {
    Enabled(s, Scan(x))
  }

  lemma CreditTables(s: State, x: Id)
    requires ModsOk(s) && PendDefined(s) && InvDefined(s) && Transposed(s) && Scanning(s, x)
    ensures var s' := Credit(s, x); ModsOk(s') && PendDefined(s') && InvDefined(s') && Transposed(s')
  {
  }

  /** Moving past a dependency that is special, has run, or is cut. */
  lemma PastSettled(s: State, s': State, x: Id)
    requires Blocking(s) && ScannedSettled(s) && Scanning(s, x) && Grows(s, s')
    requires s'.mods == Credit(s, x).mods && s'.known == s.known && s'.inv == s.inv
    requires Settled(s', x, s.mods[x].scanned)
    ensures Blocking(s') && ScannedSettled(s')
  {
    forall y, j | IsScanned(s', y, j)
      ensures Settled(s', y, j)
    {
      if !(y == x && j == s.mods[x].scanned) {
        SettledKept(s, s', y, j);
      }
    }
  }

  lemma CreditKeepsInv(s: State, x: Id)
    requires Inv(s) && Scanning(s, x)
    requires Settled(s, x, s.mods[x].scanned)
    ensures Inv(Credit(s, x))
  {
    var s' := Credit(s, x);
    CreditTables(s, x);
    PastSettled(s, s', x);
    CutsKept(s, s');
    LogKept(s, s');
    AcyclicKept(s, s');
  }

  lemma CutGrows(s: State, x: Id)
    requires Scanning(s, x)
    ensures Grows(s, Cut(s, x))
  {
  }

  lemma CutKeepsInv(s: State, x: Id)
    requires Inv(s) && Scanning(s, x)
    requires CutOnCycle(s, x, s.mods[x].scanned)
    ensures Inv(Cut(s, x))
  {
    var s' := Cut(s, x);
    var s1 := Credit(s, x);
    CreditTables(s, x);
    CutGrows(s, x);
    PastSettled(s, s', x);
    forall c | c in s'.cuts
      ensures CutOnCycle(s', c.0, c.1)
    {
      CutOnCycleKept(s, s', c.0, c.1);
    }
    LogKept(s, s');
    AcyclicKept(s, s');
  }

  lemma AddWaitTables(s: State, x: Id, d: Id)
    requires ModsOk(s) && PendDefined(s) && InvDefined(s) && Scanning(s, x)
    ensures var s' := AddWait(s, x, d); ModsOk(s') && PendDefined(s') && InvDefined(s')
  {
  }

  lemma AddWaitTransposed(s: State, x: Id, d: Id)
    requires Transposed(s) && Scanning(s, x)
    ensures Transposed(AddWait(s, x, d))
  {
    var s' := AddWait(s, x, d);
    forall y, e | y in s'.mods
      ensures s'.mods[y].wait[e] == multiset(InvList(s'.inv, e))[y]
    {
      assert s.mods[y].wait[e] == multiset(InvList(s.inv, e))[y];
      assert multiset(InvList(s.inv, d) + [x]) == multiset(InvList(s.inv, d)) + multiset{x};
    }
  }

  lemma AddWaitBlocks(s: State, x: Id, d: Id)
    requires Blocking(s) && Scanning(s, x) && !Ran(s, d)
    requires s.mods[x].decl[s.mods[x].scanned] == Regular(d)
    ensures Blocking(AddWait(s, x, d))
  {
  }

  lemma AddWaitSettled(s: State, x: Id, d: Id)
    requires ScannedSettled(s) && Scanning(s, x) && !Ran(s, d)
    requires s.mods[x].decl[s.mods[x].scanned] == Regular(d)
    ensures ScannedSettled(AddWait(s, x, d))
  {
    var s' := AddWait(s, x, d);
    forall y, j | IsScanned(s', y, j)
      ensures Settled(s', y, j)
    {
      if !(y == x && j == s.mods[x].scanned) {
        SettledKept(s, s', y, j);
      }
    }
  }

  lemma WaitIsSearched(s: State, x: Id, d: Id)
    requires ModsOk(s) && Blocking(s) && x in s.mods && d in s.mods[x].wait
    ensures Edge(SearchGraph(s), x, d)
  {
    var deps := s.mods[x].decl;
    assert Regular(d) in deps;
    var i :| 0 <= i < |deps| && deps[i] == Regular(d);
    assert DepIds(deps)[i] == d;
  }

  lemma SeenIsClosed(s: State, d: Id, y: Id, e: Id)
    requires ModsOk(s) && Blocking(s) && y in s.mods && e in s.mods[y].wait
    ensures Reaches(SearchGraph(s), d, y) ==> Reaches(SearchGraph(s), d, e)
  {
    WaitIsSearched(s, y, e);
    if Reaches(SearchGraph(s), d, y) {
      PathThenEdge(SearchGraph(s), d, y, e);
    }
  }

  /**
   The cycle search found no way from d to x, so letting x wait for d closes no cycle: lift the
   rank of everything the search did not see above the rank of everything it did see.
   */
  lemma AddWaitAcyclic(s: State, x: Id, d: Id)
    requires ModsOk(s) && Blocking(s) && WaitsAcyclic(s) && Scanning(s, x)
    requires !HasPath(SearchGraph(s), d, x) && d != x
    ensures WaitsAcyclic(AddWait(s, x, d))
  {
    var g, s' := SearchGraph(s), AddWait(s, x, d);
    var rank :| WaitRank(s, rank);
    var lifted: Id -> int := v => if Reaches(g, d, v) then rank(v) else rank(v) + rank(d) + 1;
    forall y, e | y in s'.mods && e in s'.mods[y].wait
      ensures lifted(e) < lifted(y)
    {
      if y == x && e == d {
        assert Reaches(g, d, d) && !Reaches(g, d, x);
      } else {
        assert e in s.mods[y].wait && rank(e) < rank(y);
        SeenIsClosed(s, d, y, e);
      }
    }
    assert WaitRank(s', lifted);
  }

  lemma AddWaitKeepsInv(s: State, x: Id, d: Id)
    requires Inv(s) && Scanning(s, x) && !Ran(s, d)
    requires s.mods[x].decl[s.mods[x].scanned] == Regular(d)
    requires !HasPath(SearchGraph(s), d, x) && d != x
    ensures Inv(AddWait(s, x, d))
  {
    var s' := AddWait(s, x, d);
    AddWaitTables(s, x, d);
    AddWaitTransposed(s, x, d);
    AddWaitBlocks(s, x, d);
    AddWaitSettled(s, x, d);
    AddWaitAcyclic(s, x, d);
    CutsKept(s, s');
    LogKept(s, s');
  }

  lemma AbortTables(s: State, x: Id, err: LoaderError)
    requires ModsOk(s) && PendDefined(s) && Scanning(s, x)
    ensures var s' := Abort(s, x, err); ModsOk(s') && PendDefined(s')
  {
  }

  lemma AbortWaits(s: State, x: Id, err: LoaderError)
    requires InvDefined(s) && Transposed(s) && Scanning(s, x)
    ensures var s' := Abort(s, x, err); InvDefined(s') && Transposed(s')
  {
  }

  lemma AbortBlocks(s: State, x: Id, err: LoaderError)
    requires Blocking(s) && Scanning(s, x)
    ensures Blocking(Abort(s, x, err))
  {
  }

  lemma AbortSettled(s: State, x: Id, err: LoaderError)
    requires ModsOk(s) && ScannedSettled(s) && Scanning(s, x)
    ensures ScannedSettled(Abort(s, x, err))
  {
    var s' := Abort(s, x, err);
    forall y, j | IsScanned(s', y, j)
      ensures Settled(s', y, j)
    {
      SettledKept(s, s', y, j);
    }
  }

  lemma AbortKeepsInv(s: State, x: Id, err: LoaderError)
    requires Inv(s) && Scanning(s, x)
    ensures Inv(Abort(s, x, err))
  {
    var s' := Abort(s, x, err);
    AbortTables(s, x, err);
    AbortWaits(s, x, err);
    AbortBlocks(s, x, err);
    AbortSettled(s, x, err);
    CutsKept(s, s');
    LogKept(s, s');
    AcyclicKept(s, s');
  }

  /** A module that depends on itself finds itself at once. */
  lemma SelfDependencyIsCut(s: State, x: Id)
    requires ModsOk(s) && Scanning(s, x)
    requires s.mods[x].decl[s.mods[x].scanned] == Regular(x)
    ensures HasPath(SearchGraph(s), x, x)
  {
    var deps := s.mods[x].decl;
    assert DepIds(deps)[s.mods[x].scanned] == x;
    EdgeIsPath(SearchGraph(s), x, x);
  }

  lemma SearchedIsDeclared(s: State, d: Id, x: Id)
    requires ModsOk(s) && HasPath(SearchGraph(s), d, x)
    ensures HasPath(DeclGraph(s), d, x)
  {
    PathMonotone(SearchGraph(s), DeclGraph(s), d, x);
  }

  lemma ScanKeepsInv(s: State, x: Id)
    requires Inv(s) && Enabled(s, Scan(x))
    ensures Inv(DoScan(s, x))
  {
    var dep := s.mods[x].decl[s.mods[x].scanned];
    if !dep.Regular? || Resolved(s, dep.id) {
      CreditKeepsInv(s, x);
    } else if InError(s, dep.id) {
      AbortKeepsInv(s, x, s.mods[dep.id].error.value);
    } else if HasPath(SearchGraph(s), dep.id, x) {
      SearchedIsDeclared(s, dep.id, x);
      CutKeepsInv(s, x);
    } else {
      if dep.id == x {
        SelfDependencyIsCut(s, x);
      }
      AddWaitKeepsInv(s, x, dep.id);
    }
  }

  // ----- completing a module -----

  lemma ReadyHasNoWaits(s: State, x: Id)
    requires ModsOk(s) && Enabled(s, Complete(x))
    ensures s.mods[x].wait == multiset{} && s.pend[x] == 0 && s.mods[x].scanned == |s.mods[x].decl|
  {
  }

  lemma CompleteTables(s: State, x: Id)
    requires ModsOk(s) && PendDefined(s) && InvDefined(s) && Transposed(s) && Enabled(s, Complete(x))
    ensures var s' := DoComplete(s, x); PendDefined(s') && InvDefined(s') && Transposed(s')
  {
    var s' := DoComplete(s, x);
    forall y | y in s'.pend
      ensures y in s'.mods
    {
      if y !in s.pend {
        assert y in InvList(s.inv, x);
      }
    }
    forall y, e | y in s'.mods
      ensures s'.mods[y].wait[e] == multiset(InvList(s'.inv, e))[y]
    {
      assert s.mods[y].wait[e] == multiset(InvList(s.inv, e))[y];
    }
  }

  /** Every module that waited for x has the same sum of waits and debts as before. */
  lemma CompleteMods(s: State, x: Id)
    requires ModsOk(s) && Transposed(s) && Enabled(s, Complete(x))
    ensures ModsOk(DoComplete(s, x))
  {
    var s' := DoComplete(s, x);
    ReadyHasNoWaits(s, x);
    forall y | y in s'.mods
      ensures ModOk(s'.mods[y], s'.pend[y])
    {
      assert ModOk(s.mods[y], s.pend[y]);
      assert s'.pend[y] == s.pend[y] + multiset(InvList(s.inv, x))[y];
      assert s.mods[y].wait[x] == multiset(InvList(s.inv, x))[y];
    }
  }

  lemma CompleteSettled(s: State, x: Id)
    requires ModsOk(s) && ScannedSettled(s) && Blocking(s) && Enabled(s, Complete(x))
    ensures var s' := DoComplete(s, x); ScannedSettled(s') && Blocking(s')
  {
    var s' := DoComplete(s, x);
    forall y, j | IsScanned(s', y, j)
      ensures Settled(s', y, j)
    {
      assert IsScanned(s, y, j);
      assert Settled(s, y, j);
    }
    forall y, d | y in s'.mods && d in s'.mods[y].wait
      ensures Regular(d) in s'.mods[y].decl && !Ran(s', d) && (d in s'.mods || d in s'.known)
    {
      assert d in s.mods[y].wait && d != x;
    }
  }

  lemma CompletionKept(s: State, x: Id, k: int)
    requires Enabled(s, Complete(x)) && 0 <= k < |s.log| && CompletionOk(s, k)
    ensures CompletionOk(DoComplete(s, x), k)
  {
    var s' := DoComplete(s, x);
    assert s'.log[k] == s.log[k];
    forall j | 0 <= j < |s'.log[k].args|
      ensures ArgOk(s', k, j)
    {
      assert ArgOk(s, k, j);
      var dep := s.mods[s.log[k].id].decl[j];
      if dep.Regular? && LoggedBefore(s.log, dep.id, k) {
        var i :| 0 <= i < k && s.log[i].id == dep.id;
        assert s'.log[i].id == dep.id;
      }
    }
  }

  /** What has been cut leads somewhere, so it is defined. */
  lemma CutIsDefined(s: State, x: Id, j: int)
    requires CutOnCycle(s, x, j)
    ensures s.mods[x].decl[j].id in s.mods
  {
    if s.mods[x].decl[j].id !in s.mods {
      NoPathFromUndefined(DeclGraph(s), s.mods[x].decl[j].id, x);
    }
  }

  lemma NewCompletionOk(s: State, x: Id)
    requires ModsOk(s) && ScannedSettled(s) && CutsSound(s) && RanLogged(s) && Enabled(s, Complete(x))
    ensures CompletionOk(DoComplete(s, x), |s.log|)
  {
    var s' := DoComplete(s, x);
    var k := |s.log|;
    assert ModOk(s.mods[x], s.pend[x]);
    ReadyHasNoWaits(s, x);
    forall j | 0 <= j < |s'.log[k].args|
      ensures ArgOk(s', k, j)
    {
      assert IsScanned(s, x, j);
      assert Settled(s, x, j);
      var dep := s.mods[x].decl[j];
      if dep.Regular? && (x, j) in s.cuts {
        CutIsDefined(s, x, j);
      } else if dep.Regular? {
        assert Ran(s, dep.id);
        var i :| 0 <= i < k && s.log[i].id == dep.id;
        assert s'.log[i].id == dep.id;
      }
    }
  }

  lemma CompleteLog(s: State, x: Id)
    requires ModsOk(s) && ScannedSettled(s) && CutsSound(s) && LogOk(s) && RanLogged(s) && Enabled(s, Complete(x))
    ensures LogOk(DoComplete(s, x)) && RanLogged(DoComplete(s, x))
  {
    var s' := DoComplete(s, x);
    forall k | 0 <= k < |s'.log|
      ensures CompletionOk(s', k)
    {
      if k < |s.log| {
        CompletionKept(s, x, k);
      } else {
        NewCompletionOk(s, x);
      }
    }
    forall i, k | 0 <= i < k < |s'.log|
      ensures s'.log[i].id != s'.log[k].id
    {
      if k == |s.log| {
        assert CompletionOk(s, i);
      }
    }
    forall y | Ran(s', y)
      ensures LoggedBefore(s'.log, y, |s'.log|)
    {
      if y == x {
        assert s'.log[|s.log|].id == y;
      } else {
        assert Ran(s, y);
        var i :| 0 <= i < |s.log| && s.log[i].id == y;
        assert s'.log[i].id == y;
      }
    }
  }

  lemma CompleteCuts(s: State, x: Id)
    requires CutsSound(s) && Enabled(s, Complete(x))
    ensures CutsSound(DoComplete(s, x))
  {
    var s' := DoComplete(s, x);
    assert DeclGraph(s') == DeclGraph(s);
    forall c | c in s'.cuts
      ensures CutOnCycle(s', c.0, c.1)
    {
      assert CutOnCycle(s, c.0, c.1);
    }
  }

  lemma CompleteKeepsInv(s: State, x: Id)
    requires Inv(s) && Enabled(s, Complete(x))
    ensures Inv(DoComplete(s, x))
  {
    CompleteTables(s, x);
    CompleteMods(s, x);
    CompleteSettled(s, x);
    CompleteLog(s, x);
    CompleteCuts(s, x);
    AcyclicKept(s, DoComplete(s, x));
  }

  // ----- releasing one waiter -----

  lemma ReleaseTables(s: State, x: Id)
    requires ModsOk(s) && PendDefined(s)
    requires Enabled(s, Release(x))
    ensures var s' := DoRelease(s, x); ModsOk(s') && PendDefined(s')
  {
  }

  lemma ReleaseWaits(s: State, x: Id)
    requires InvDefined(s) && Transposed(s) && Blocking(s) && Enabled(s, Release(x))
    ensures var s' := DoRelease(s, x); InvDefined(s') && Transposed(s') && Blocking(s')
  {
  }

  lemma ReleaseRest(s: State, x: Id)
    requires ScannedSettled(s) && CutsSound(s) && WaitsAcyclic(s) && LogOk(s) && RanLogged(s) && Enabled(s, Release(x))
    ensures var s' := DoRelease(s, x);
      ScannedSettled(s') && CutsSound(s') && WaitsAcyclic(s') && LogOk(s') && RanLogged(s')
  {
    QuietKeepsRest(s, DoRelease(s, x));
  }

  lemma ReleaseKeepsInv(s: State, x: Id)
    requires Inv(s) && Enabled(s, Release(x))
    ensures Inv(DoRelease(s, x))
  {
    ReleaseTables(s, x);
    ReleaseWaits(s, x);
    ReleaseRest(s, x);
  }

  /** A step that changes no wait and no scan keeps the history. */
  lemma QuietKeepsRest(s: State, s': State)
    requires ScannedSettled(s) && CutsSound(s) && WaitsAcyclic(s) && LogOk(s) && RanLogged(s)
    requires Grows(s, s') && s'.mods.Keys == s.mods.Keys && s'.cuts == s.cuts
    requires forall y | y in s.mods :: s'.mods[y].wait == s.mods[y].wait && s'.mods[y].scanned == s.mods[y].scanned
    requires forall y | Failed(s, y) :: Failed(s', y)
    ensures ScannedSettled(s') && CutsSound(s') && WaitsAcyclic(s') && LogOk(s') && RanLogged(s')
  {
    SettledEverywhere(s, s');
    CutsKept(s, s');
    LogKept(s, s');
    AcyclicKept(s, s');
  }

  lemma SettledEverywhere(s: State, s': State)
    requires Grows(s, s') && ScannedSettled(s) && s'.mods.Keys == s.mods.Keys
    requires forall y | y in s.mods :: s'.mods[y].wait == s.mods[y].wait && s'.mods[y].scanned == s.mods[y].scanned
    requires forall y | Failed(s, y) :: Failed(s', y)
    ensures ScannedSettled(s')
  {
    forall y, j | IsScanned(s', y, j)
      ensures Settled(s', y, j)
    {
      assert IsScanned(s, y, j);
      SettledKept(s, s', y, j);
    }
  }

  // ----- flooding an error -----

  lemma FloodKeepsInv(s: State, id: Id)
    requires Inv(s) && id in s.mods
    ensures Inv(DoFail(s, id))
  {
    FloodTables(s, id);
    FloodWaits(s, id);
    FloodRest(s, id);
  }

  lemma FloodRest(s: State, id: Id)
    requires ScannedSettled(s) && CutsSound(s) && WaitsAcyclic(s) && LogOk(s) && RanLogged(s) && id in s.mods
    ensures var s' := DoFail(s, id);
      ScannedSettled(s') && CutsSound(s') && WaitsAcyclic(s') && LogOk(s') && RanLogged(s')
  {
    QuietKeepsRest(s, DoFail(s, id));
  }

  lemma FloodTables(s: State, id: Id)
    requires ModsOk(s) && PendDefined(s) && id in s.mods
    ensures var s' := DoFail(s, id); ModsOk(s') && PendDefined(s')
  {
  }

  lemma FloodWaits(s: State, id: Id)
    requires InvDefined(s) && Transposed(s) && Blocking(s) && id in s.mods
    ensures var s' := DoFail(s, id); InvDefined(s') && Transposed(s') && Blocking(s')
  {
    var s' := DoFail(s, id);
    SameWaits(s, s');
  }

  /** A step that changes no wait and no declaration, and runs nothing. */
  lemma SameWaits(s: State, s': State)
    requires InvDefined(s) && Transposed(s) && Blocking(s)
    requires s'.mods.Keys == s.mods.Keys && s'.inv == s.inv && s'.known == s.known
    requires forall y | y in s.mods :: s'.mods[y].wait == s.mods[y].wait && s'.mods[y].decl == s.mods[y].decl
                                       && s'.mods[y].deps == s.mods[y].deps
    ensures InvDefined(s') && Transposed(s') && Blocking(s')
  {
    forall d
      ensures Ran(s', d) == Ran(s, d)
    {
    }
  }

  lemma FailKeepsInv(s: State, id: Id)
    requires Inv(s)
    ensures Inv(DoFail(s, id))
  {
    if id !in s.mods {
      DefineKeepsInv(s, id, [], Factory(false), false);
    }
    var s0 := WithPlaceholder(s, id);
    assert DoFail(s, id) == DoFail(s0, id);
    FloodKeepsInv(s0, id);
  }

  // ----- every step, every run -----

  lemma StepKeepsInv(s: State, a: Action)
    requires Inv(s) && Enabled(s, a)
    ensures Inv(Next(s, a))
  {
    match a
    case Define(id, deps, callback, errorback) => DefineKeepsInv(s, id, deps, callback, errorback);
    case Scan(x) => ScanKeepsInv(s, x);
    case Complete(x) => CompleteKeepsInv(s, x);
    case Release(x) => ReleaseKeepsInv(s, x);
    case Fail(id) => FailKeepsInv(s, id);
  }

  lemma RunPrefix(h: seq<State>)
    requires IsRun(h) && |h| > 1
    ensures IsRun(h[..|h| - 1])
  {
    var q := h[..|h| - 1];
    forall i | 0 < i < |q|
      ensures StepAt(q, i)
    {
      assert StepAt(h, i);
    }
  }

  lemma {:induction false} RunInv(h: seq<State>)
    requires IsRun(h)
    ensures Inv(h[|h| - 1])
    decreases |h|
  {
    var n := |h| - 1;
    if n == 0 {
      InitInv();
    } else {
      RunPrefix(h);
      RunInv(h[..n]);
      assert StepAt(h, n);
      var a :| Enabled(h[n - 1], a) && h[n] == Next(h[n - 1], a);
      StepKeepsInv(h[n - 1], a);
    }
  }

  lemma ExtendRun(h: seq<State>, a: Action)
    requires IsRun(h) && Enabled(h[|h| - 1], a)
    ensures IsRun(h + [Next(h[|h| - 1], a)])
  {
    var h' := h + [Next(h[|h| - 1], a)];
    forall i | 0 < i < |h'|
      ensures StepAt(h', i)
    {
      if i < |h| {
        assert StepAt(h, i);
      }
    }
  }

  lemma ReachableInv(s: State)
    requires Reachable(s)
    ensures Inv(s)
  {
    var h :| IsRun(h) && h[|h| - 1] == s;
    RunInv(h);
  }
}
