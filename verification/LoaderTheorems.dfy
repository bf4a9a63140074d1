/** What the module manager promises, over every reachable state. */
module LoaderTheorems {
  import opened Wrappers
  import opened Graphs
  import opened LoaderMachine
  import opened LoaderInvariants

  // ----- factories -----

  /** d has completed before the k-th completion did. */
  ghost predicate CompletedBefore(s: State, d: Id, k: int) {
    exists i :: 0 <= i < k && i < |s.log| && s.log[i].id == d
  }

  /**
   No module completes twice, so no factory runs twice. When a factory runs, there is one argument for each
   dependency: the module's own exports, information and require function where these are asked for, and
   else the exports of the module that the dependency names, also where that closes a cycle. That module has
   completed before, unless the position was cut.
   */
  lemma FactoryOrderAndOnce(s: State)
    requires Reachable(s)
    ensures forall i, k | 0 <= i < k < |s.log| :: s.log[i].id != s.log[k].id
    ensures forall k | 0 <= k < |s.log| ::
      s.log[k].id in s.mods && |s.log[k].args| == |s.mods[s.log[k].id].decl|
    ensures forall k, j | 0 <= k < |s.log| && 0 <= j < |s.log[k].args| ::
      match s.mods[s.log[k].id].decl[j]
      case Exports => s.log[k].args[j] == OwnExports
      case ModuleInfo => s.log[k].args[j] == OwnInfo
      case Require => s.log[k].args[j] == LocalRequire
      case Regular(d) =>
        && d in s.mods && s.log[k].args[j] == ExportsOf(d)
        && ((s.log[k].id, j) in s.cuts || CompletedBefore(s, d, k))
  {
    ReachableInv(s);
    forall k | 0 <= k < |s.log|
      ensures s.log[k].id in s.mods && |s.log[k].args| == |s.mods[s.log[k].id].decl|
    {
      assert CompletionOk(s, k);
    }
    forall k, j | 0 <= k < |s.log| && 0 <= j < |s.log[k].args|
      ensures ArgOk(s, k, j)
      ensures forall d | s.mods[s.log[k].id].decl[j] == Regular(d) ::
        (s.log[k].id, j) in s.cuts || CompletedBefore(s, d, k)
    {
      assert CompletionOk(s, k);
      assert ArgOk(s, k, j);
    }
  }

  /** x is still there with its declaration, completions are final, and the log only grew. */
  ghost predicate Persists(s: State, s': State, x: Id)
    requires x in s.mods
  {
    && s.log <= s'.log
    && x in s'.mods && s'.mods[x].decl == s.mods[x].decl
    && (s.mods[x].complete ==> s'.mods[x].complete)
    && (Ran(s, x) ==> Ran(s', x))
  }

  lemma ScanPersists(s: State, y: Id, x: Id)
    requires Enabled(s, Scan(y)) && x in s.mods
    ensures Persists(s, DoScan(s, y), x)
  {
    var dep := s.mods[y].decl[s.mods[y].scanned];
    assert Persists(s, Credit(s, y), x) && Persists(s, Cut(s, y), x);
    if dep.Regular? {
      assert Persists(s, AddWait(s, y, dep.id), x);
      if InError(s, dep.id) {
        assert Persists(s, Abort(s, y, s.mods[dep.id].error.value), x);
      }
    }
  }

  lemma FailPersists(s: State, id: Id, x: Id)
    requires x in s.mods
    ensures Persists(s, DoFail(s, id), x)
  {
    var s0 := WithPlaceholder(s, id);
    assert Persists(s, s0, x) && x in s0.mods;
  }

  /** No step takes a completion back. */
  lemma CompletionsAreFinal(s: State, a: Action, x: Id)
    requires Enabled(s, a) && x in s.mods
    ensures Persists(s, Next(s, a), x)
  {
    match a
    case Scan(y) => ScanPersists(s, y, x);
    case Fail(id) => FailPersists(s, id, x);
    case Complete(y) => assert Persists(s, DoComplete(s, y), x);
    case _ =>
  }

  // ----- the counter -----

  /** To wait for d is to be in the inverse dependency list of d. */
  lemma WaitIsEdge(s: State, x: Id, d: Id)
    requires Inv(s) && x in s.mods
    ensures d in s.mods[x].wait <==> Edge(s.inv, d, x)
  {
    assert s.mods[x].wait[d] == multiset(InvList(s.inv, d))[x];
  }

  /** How often x occurs in the inverse dependency lists of the modules in ds. */
  ghost function Occurrences(inv: map<Id, seq<Id>>, ds: set<Id>, x: Id): int
    decreases |ds|
  {
    if ds == {} then 0
    else
      var d := PickFrom(ds);
      multiset(InvList(inv, d))[x] + Occurrences(inv, ds - {d}, x)
  }

  lemma {:induction false} OccurrencesAreWaits(inv: map<Id, seq<Id>>, ds: set<Id>, x: Id, wait: multiset<Id>)
    requires forall d | d in ds :: wait[d] == multiset(InvList(inv, d))[x]
    requires forall d | d in wait :: d in ds
    ensures Occurrences(inv, ds, x) == |wait|
    decreases |ds|
  {
    if ds == {} {
      if |wait| > 0 {
        var d := PickFromBag(wait);
        assert false;
      }
    } else {
      var d := PickFrom(ds);
      OccurrencesAreWaits(inv, ds - {d}, x, wait[d := 0]);
    }
  }

  /**
   The counter of an incomplete module is its occurrences in all inverse dependency lists, plus
   the releases completed modules still owe it, plus the dependencies not scanned yet.
   */
  lemma CounterIsExact(s: State, x: Id)
    requires Reachable(s) && Waiting(s, x)
    ensures s.mods[x].count ==
            Occurrences(s.inv, s.inv.Keys, x) + s.pend[x] + |s.mods[x].decl| - s.mods[x].scanned
    ensures 0 <= s.mods[x].scanned <= |s.mods[x].decl|
  {
    ReachableInv(s);
    assert ModOk(s.mods[x], s.pend[x]);
    forall d
      ensures s.mods[x].wait[d] == multiset(InvList(s.inv, d))[x]
      ensures d in s.mods[x].wait ==> d in s.inv.Keys
    {
      WaitIsEdge(s, x, d);
    }
    OccurrencesAreWaits(s.inv, s.inv.Keys, x, s.mods[x].wait);
  }

  // ----- cycles -----

  /** The table of waits never contains a cycle. */
  lemma WaitsNeverCycle(s: State)
    requires Reachable(s)
    ensures Acyclic(s.inv)
  {
    ReachableInv(s);
    var rank :| WaitRank(s, rank);
    var reversed: Id -> int := v => -rank(v);
    forall d, x | Edge(s.inv, d, x)
      ensures reversed(x) < reversed(d)
    {
      assert s.mods[x].wait[d] == multiset(InvList(s.inv, d))[x];
    }
    RankedIsAcyclic(s.inv, reversed);
  }

  /** A dependency is only cut when it leads back, through declared dependencies, to its dependent. */
  lemma CutsLieOnCycles(s: State, x: Id, j: int)
    requires Reachable(s) && (x, j) in s.cuts
    ensures x in s.mods && 0 <= j < |s.mods[x].decl| && s.mods[x].decl[j].Regular?
    ensures HasPath(DeclGraph(s), s.mods[x].decl[j].id, x)
  {
    ReachableInv(s);
    assert CutOnCycle(s, (x, j).0, (x, j).1);
  }

  // ----- deadlock -----

  /** Nothing is left to do but to wait for the environment. */
  ghost predicate Quiescent(s: State) {
    forall x :: !Enabled(s, Scan(x)) && !Enabled(s, Complete(x)) && !Enabled(s, Release(x))
  }

  /** A reason to wait: a load that was requested and has not answered, or a failed module. */
  ghost predicate Blocked(s: State, d: Id) {
    (d !in s.mods && d in s.known) || Failed(s, d)
  }

  ghost predicate StuckBehind(s: State, d: Id, x: Id) {
    Blocked(s, d) && HasPath(s.inv, d, x)
  }

  /** Follow the waits of a stuck module down the rank: they end at a missing or failed one. */
  lemma {:induction false} StuckHasCause(s: State, x: Id, rank: Id -> int) returns (d: Id)
    requires Inv(s) && Quiescent(s) && Waiting(s, x) && WaitRank(s, rank)
    ensures StuckBehind(s, d, x)
    decreases rank(x)
  {
    assert ModOk(s.mods[x], s.pend[x]);
    assert !Enabled(s, Scan(x)) && !Enabled(s, Complete(x)) && !Enabled(s, Release(x));
    assert |s.mods[x].wait| > 0;
    var e := PickFromBag(s.mods[x].wait);
    WaitIsEdge(s, x, e);
    if Waiting(s, e) {
      d := StuckHasCause(s, e, rank);
      PathThenEdge(s.inv, d, e, x);
    } else {
      d := e;
      EdgeIsPath(s.inv, d, x);
    }
  }

  /** A module that has run waits for nothing any more. */
  lemma RanIsNotStuck(s: State, d: Id, x: Id)
    requires Inv(s) && Ran(s, x)
    ensures !HasPath(s.inv, d, x)
  {
    assert ModOk(s.mods[x], s.pend[x]);
    forall p | IsWalk(s.inv, p) && |p| >= 2 && p[0] == d
      ensures p[|p| - 1] != x
    {
      var y := p[|p| - 2];
      assert Edge(s.inv, y, p[|p| - 1]);
      WaitIsEdge(s, x, y);
    }
  }

  /**
   Deadlock freedom, with no assumption about errors: once the manager is quiet, a module that
   has not failed is incomplete exactly if it waits, through the waits of others, for a load that
   has not answered or for a failed module. Cycles of dependencies are never the reason.
   */
  lemma StuckIffBlocked(s: State, x: Id)
    requires Reachable(s) && Quiescent(s) && x in s.mods && !Failed(s, x)
    ensures Waiting(s, x) <==> exists d :: StuckBehind(s, d, x)
  {
    ReachableInv(s);
    if Waiting(s, x) {
      var rank :| WaitRank(s, rank);
      var d := StuckHasCause(s, x, rank);
    } else {
      forall d
        ensures !StuckBehind(s, d, x)
      {
        RanIsNotStuck(s, d, x);
      }
    }
  }

  /** Without failures, once everything requested has been defined, every module has run. */
  lemma NoDeadlock(s: State)
    requires Reachable(s) && Quiescent(s)
    requires forall x | x in s.mods :: !Failed(s, x)
    requires forall d | d in s.known :: d in s.mods
    ensures forall x | x in s.mods :: Ran(s, x) && s.mods[x].complete
  {
    forall x | x in s.mods
      ensures Ran(s, x) && s.mods[x].complete
    {
      StuckIffBlocked(s, x);
      ReachableInv(s);
      assert ModOk(s.mods[x], s.pend[x]);
    }
  }

  // ----- errors -----

  /** Everything that waits for a failed load fails with that error; all others are untouched. */
  lemma FloodReachesExactlyTheWaiters(s: State, id: Id, v: Id)
    requires Reachable(s) && v in DoFail(s, id).mods
    ensures var s' := DoFail(s, id);
      if v == id || HasPath(s.inv, id, v)
      then s'.mods[v].complete && s'.mods[v].error == Some(LoadError(id))
      else v in s.mods && s'.mods[v] == s.mods[v]
  {
  }

  /** A module whose factory has run is not touched by the failure of another one. */
  lemma FloodSparesTheRun(s: State, id: Id, v: Id)
    requires Reachable(s) && Ran(s, v) && v != id
    ensures DoFail(s, id).mods[v] == s.mods[v]
  {
    ReachableInv(s);
    RanIsNotStuck(s, id, v);
  }

  /** The global error handler hears of the failure if and only if no module's errorback did. */
  lemma FailureIsHeardOnce(s: State, id: Id)
    requires Reachable(s)
    ensures var s' := DoFail(s, id);
      if exists v :: v in s.mods && s.mods[v].errorback && (v == id || HasPath(s.inv, id, v))
      then s'.reported == s.reported
      else s'.reported == s.reported + [LoadError(id)]
  {
    var s0 := WithPlaceholder(s, id);
    assert s0.inv == s.inv;
    forall v | v in s.mods && s.mods[v].errorback && (v == id || HasPath(s.inv, id, v))
      ensures SomeoneNotified(s0, id)
    {
      assert v in Flooded(s0, id) && v in s0.mods && s0.mods[v].errorback;
    }
    if SomeoneNotified(s0, id) {
      var v :| v in Flooded(s0, id) && v in s0.mods && s0.mods[v].errorback;
      assert v in s.mods && s.mods[v].errorback;
    }
  }

  /** A failure calls the errorback of each module it reaches that has one, once, and no other. */
  lemma ErrorbacksAreCalledOnce(s: State, id: Id, x: Id, err: LoaderError)
    requires Reachable(s)
    ensures var reached := x in s.mods && (x == id || HasPath(s.inv, id, x));
      DoFail(s, id).heard[Heard(x, err)] == s.heard[Heard(x, err)] +
        if reached && s.mods[x].errorback && err == LoadError(id) then 1 else 0
  {
    var s0 := WithPlaceholder(s, id);
    var calls := HeardAmong(s0, id, Flooded(s0, id));
    assert x in Flooded(s0, id) <==> x in s0.mods && (x == id || HasPath(s.inv, id, x));
    assert Heard(x, err) in calls <==> x in Flooded(s0, id) && s0.mods[x].errorback && err == LoadError(id);
  }

  /** Whoever waits for a failed module has failed too. */
  ghost predicate ErrorsPropagated(s: State) {
    forall x, d | x in s.mods && d in s.mods[x].wait && Failed(s, d) :: Failed(s, x)
  }

  /** The scan of x finds a dependency in error while somebody is already waiting for x. */
  ghost predicate Strands(s: State, x: Id)
    requires Enabled(s, Scan(x))
  {
    var dep := s.mods[x].decl[s.mods[x].scanned];
    && dep.Regular? && InError(s, dep.id)
    && exists y :: y in InvList(s.inv, x) && Waiting(s, y)
  }

  lemma AbortStrands(s: State, x: Id, err: LoaderError, y: Id)
    requires Inv(s) && Enabled(s, Scan(x)) && y in InvList(s.inv, x) && Waiting(s, y)
    ensures !ErrorsPropagated(Abort(s, x, err))
  {
    var s' := Abort(s, x, err);
    assert ModOk(s.mods[x], s.pend[x]);
    WaitIsEdge(s, y, x);
    var rank :| WaitRank(s, rank);
    assert rank(x) < rank(y);
    assert Failed(s', x) && x in s'.mods[y].wait && !Failed(s', y);
  }

  lemma AbortPropagates(s: State, x: Id, err: LoaderError)
    requires Inv(s) && ErrorsPropagated(s) && Enabled(s, Scan(x))
    requires forall y | y in InvList(s.inv, x) :: !Waiting(s, y)
    ensures ErrorsPropagated(Abort(s, x, err))
  {
    var s' := Abort(s, x, err);
    forall y, d | y in s'.mods && d in s'.mods[y].wait && Failed(s', d)
      ensures Failed(s', y)
    {
      assert d in s.mods[y].wait;
      WaitIsEdge(s, y, d);
      assert ModOk(s.mods[y], s.pend[y]) && ModOk(s.mods[x], s.pend[x]);
      if d == x {
        assert y in InvList(s.inv, x);
      } else {
        assert Failed(s, d) && Failed(s, y);
      }
    }
  }

  /** A step that fails nobody and adds no wait for a failed module. */
  lemma SameFates(s: State, s': State)
    requires ErrorsPropagated(s)
    requires forall y :: Failed(s', y) == Failed(s, y)
    requires forall y, d | y in s'.mods && d in s'.mods[y].wait && Failed(s', d) ::
      y in s.mods && d in s.mods[y].wait
    ensures ErrorsPropagated(s')
  {
  }

  lemma AddWaitPropagates(s: State, x: Id, d: Id)
    requires ErrorsPropagated(s) && Enabled(s, Scan(x)) && !Failed(s, d)
    ensures ErrorsPropagated(AddWait(s, x, d))
  {
    SameFates(s, AddWait(s, x, d));
  }

  lemma CreditPropagates(s: State, x: Id)
    requires ErrorsPropagated(s) && Enabled(s, Scan(x))
    ensures ErrorsPropagated(Credit(s, x)) && ErrorsPropagated(Cut(s, x))
  {
    SameFates(s, Credit(s, x));
    SameFates(s, Cut(s, x));
  }

  lemma ReleasePropagates(s: State, x: Id)
    requires ErrorsPropagated(s) && Enabled(s, Release(x))
    ensures ErrorsPropagated(DoRelease(s, x))
  {
    SameFates(s, DoRelease(s, x));
  }

  lemma BrokenPropagation(s: State, x: Id, err: LoaderError)
    requires Inv(s) && ErrorsPropagated(s) && Enabled(s, Scan(x))
    ensures ErrorsPropagated(Abort(s, x, err)) <==> !exists y :: y in InvList(s.inv, x) && Waiting(s, y)
  {
    if y :| y in InvList(s.inv, x) && Waiting(s, y) {
      AbortStrands(s, x, err, y);
    } else {
      AbortPropagates(s, x, err);
    }
  }

  lemma ScanPropagation(s: State, x: Id)
    requires Inv(s) && ErrorsPropagated(s) && Enabled(s, Scan(x))
    ensures ErrorsPropagated(DoScan(s, x)) <==> !Strands(s, x)
  {
    match Judge(s, x, s.mods[x].decl[s.mods[x].scanned])
    case Broken(err) => BrokenPropagation(s, x, err);
    case WaitFor(d) => AddWaitPropagates(s, x, d);
    case _ => CreditPropagates(s, x);
  }

  lemma DefinePropagates(s: State, id: Id, deps: seq<Dep>, callback: Callback, errorback: bool)
    requires ErrorsPropagated(s) && id !in s.mods
    ensures ErrorsPropagated(DoDefine(s, id, deps, callback, errorback))
  {
    SameFates(s, DoDefine(s, id, deps, callback, errorback));
  }

  lemma CompletePropagates(s: State, x: Id)
    requires ErrorsPropagated(s) && ModsOk(s) && Enabled(s, Complete(x))
    ensures ErrorsPropagated(DoComplete(s, x))
  {
    var s' := DoComplete(s, x);
    ReadyHasNoWaits(s, x);
    forall y, d | y in s'.mods && d in s'.mods[y].wait && Failed(s', d)
      ensures Failed(s', y)
    {
      assert d in s.mods[y].wait && Failed(s, d);
    }
  }

  /** The flood marks with every module whatever waits for it. */
  lemma FloodCarries(s: State, id: Id, d: Id, x: Id)
    requires Inv(s) && id in s.mods && x in s.mods && d in s.mods[x].wait
    ensures d in Flooded(s, id) ==> x in Flooded(s, id)
    ensures s.mods[x].deps.Some?
  {
    WaitIsEdge(s, x, d);
    assert ModOk(s.mods[x], s.pend[x]);
    if d in Flooded(s, id) {
      PathThenEdge(s.inv, id, d, x);
    }
  }

  lemma FloodPropagates(s: State, id: Id)
    requires ErrorsPropagated(s) && id in s.mods
    requires forall x, d | x in s.mods && d in s.mods[x].wait ::
      s.mods[x].deps.Some? && (d in Flooded(s, id) ==> x in Flooded(s, id))
    ensures ErrorsPropagated(DoFail(s, id))
  {
    var s' := DoFail(s, id);
    forall x, d | x in s'.mods && d in s'.mods[x].wait && Failed(s', d)
      ensures Failed(s', x)
    {
      assert d in s.mods[x].wait;
      if d !in Flooded(s, id) {
        assert Failed(s, d);
      }
    }
  }

  lemma FailPropagates(s: State, id: Id)
    requires Inv(s) && ErrorsPropagated(s)
    ensures ErrorsPropagated(DoFail(s, id))
  {
    var s0 := WithPlaceholder(s, id);
    if id !in s.mods {
      DefineKeepsInv(s, id, [], Factory(false), false);
      DefinePropagates(s, id, [], Factory(false), false);
    }
    forall x, d | x in s0.mods && d in s0.mods[x].wait
      ensures s0.mods[x].deps.Some? && (d in Flooded(s0, id) ==> x in Flooded(s0, id))
    {
      FloodCarries(s0, id, d, x);
    }
    FloodPropagates(s0, id);
    assert DoFail(s, id) == DoFail(s0, id);
  }

  /**
   The early return of a dependency scan is the one step that can leave a waiter behind: errors
   stay propagated across a step if and only if it is not a scan that strands somebody.
   */
  lemma PropagationIffNotStranding(s: State, a: Action)
    requires Inv(s) && ErrorsPropagated(s) && Enabled(s, a)
    ensures ErrorsPropagated(Next(s, a)) <==> !(a.Scan? && Strands(s, a.x))
  {
    match a
    case Define(id, deps, callback, errorback) => DefinePropagates(s, id, deps, callback, errorback);
    case Scan(x) => ScanPropagation(s, x);
    case Complete(x) => CompletePropagates(s, x);
    case Release(x) => ReleasePropagates(s, x);
    case Fail(id) => FailPropagates(s, id);
  }

  /** A module that is complete waits for no failed module, unless it has failed itself. */
  lemma CompleteMeansPropagated(s: State)
    requires Inv(s) && forall x | x in s.mods :: s.mods[x].complete
    ensures ErrorsPropagated(s)
  {
    forall x, d | x in s.mods && d in s.mods[x].wait && Failed(s, d)
      ensures Failed(s, x)
    {
      assert ModOk(s.mods[x], s.pend[x]);
    }
  }

  /** At rest, with everything requested defined, all modules are complete if and only if errors were propagated. */
  lemma AllCompleteIffPropagated(s: State)
    requires Reachable(s) && Quiescent(s)
    requires forall d | d in s.known :: d in s.mods
    ensures (forall x | x in s.mods :: s.mods[x].complete) <==> ErrorsPropagated(s)
  {
    ReachableInv(s);
    if forall x | x in s.mods :: s.mods[x].complete {
      CompleteMeansPropagated(s);
    }
    forall x | x in s.mods && ErrorsPropagated(s)
      ensures s.mods[x].complete
    {
      if Waiting(s, x) {
        StuckIffBlocked(s, x);
        var d :| StuckBehind(s, d, x);
        FailureTravels(s, d, x);
      }
    }
  }

  /** A step that is not a scan that gives up while somebody waits. */
  ghost predicate CalmStep(s: State, s': State) {
    exists a :: Enabled(s, a) && s' == Next(s, a) && !(a.Scan? && Strands(s, a.x))
  }

  ghost predicate CalmAt(h: seq<State>, i: int)
    requires 0 < i < |h|
  {
    CalmStep(h[i - 1], h[i])
  }

  ghost predicate IsCalmRun(h: seq<State>) {
    |h| > 0 && h[0] == INIT_STATE && forall i | 0 < i < |h| :: CalmAt(h, i)
  }

  lemma CalmRunsAreRuns(h: seq<State>)
    requires IsCalmRun(h)
    ensures IsRun(h)
  {
    forall i | 0 < i < |h|
      ensures StepAt(h, i)
    {
      assert CalmAt(h, i);
    }
  }

  lemma CalmStepPropagates(s: State, s': State)
    requires Inv(s) && ErrorsPropagated(s) && CalmStep(s, s')
    ensures ErrorsPropagated(s')
  {
    var a :| Enabled(s, a) && s' == Next(s, a) && !(a.Scan? && Strands(s, a.x));
    PropagationIffNotStranding(s, a);
  }

  lemma CalmRunPrefix(h: seq<State>)
    requires IsCalmRun(h) && |h| > 1
    ensures IsCalmRun(h[..|h| - 1]) && CalmStep(h[|h| - 2], h[|h| - 1])
  {
    var before := h[..|h| - 1];
    forall i | 0 < i < |before|
      ensures CalmAt(before, i)
    {
      assert CalmAt(h, i);
    }
    assert CalmAt(h, |h| - 1);
  }

  /** A run in which no scan gives up while somebody waits for its module propagates all errors. */
  lemma {:induction false} CalmRunsPropagate(h: seq<State>)
    requires IsCalmRun(h)
    ensures ErrorsPropagated(h[|h| - 1])
    decreases |h|
  {
    if |h| > 1 {
      var before := h[..|h| - 1];
      CalmRunPrefix(h);
      CalmRunsPropagate(before);
      CalmRunsAreRuns(before);
      RunInv(before);
      CalmStepPropagates(h[|h| - 2], h[|h| - 1]);
    }
  }

  /** So such a run, at rest with everything requested defined, has completed every module. */
  lemma CalmRunsNeverHang(h: seq<State>, s: State)
    requires IsCalmRun(h) && s == h[|h| - 1] && Quiescent(s)
    requires forall d | d in s.known :: d in s.mods
    ensures forall x | x in s.mods :: s.mods[x].complete
  {
    CalmRunsAreRuns(h);
    CalmRunsPropagate(h);
    AllCompleteIffPropagated(s);
  }

  lemma FailureTravels(s: State, d: Id, x: Id)
    requires Inv(s) && ErrorsPropagated(s) && Failed(s, d) && HasPath(s.inv, d, x)
    ensures Failed(s, x)
  {
    var failed := set v | v in s.mods && Failed(s, v);
    forall v, w | v in failed && Edge(s.inv, v, w)
      ensures w in failed
    {
      WaitIsEdge(s, w, v);
    }
    ClosedTrapsPaths(s.inv, failed, d, x);
  }

  // ----- the hang that the early return of a scan allows -----

  lemma RunStep(h: seq<State>, a: Action) returns (h': seq<State>)
    requires IsRun(h) && Enabled(h[|h| - 1], a)
    ensures IsRun(h') && |h'| > 0 && h'[|h'| - 1] == Next(h[|h| - 1], a)
  {
    ExtendRun(h, a);
    h' := h + [Next(h[|h| - 1], a)];
  }

  /** Module 3 is defined and waits for module 4. */
  lemma ThreeWaitsForFour() returns (h: seq<State>)
    ensures IsRun(h)
    ensures var s := h[|h| - 1];
      && s.mods.Keys == {3}
      && s.mods[3] == Mod(Some([Regular(4)]), Factory(false), true, 1, false, None, [Regular(4)], 1, multiset{4})
      && s.inv.Keys == {4} && s.inv[4] == [3] && s.known == {4} && s.pend == multiset{}
  {
    h := RunStep([INIT_STATE], Define(3, [Regular(4)], Factory(false), true));
    var s1 := h[|h| - 1];
    NoPathFromUndefined(SearchGraph(s1), 4, 3);
    h := RunStep(h, Scan(3));
    assert h[|h| - 1] == AddWait(s1, 3, 4);
    assert InvList(s1.inv, 4) == [];
  }

  /** Module 5 fails to load; nobody waits for it. */
  lemma FiveFails(s: State)
    requires 3 in s.mods && 5 !in s.mods && 5 !in s.inv
    ensures var s' := DoFail(s, 5);
      && s'.mods.Keys == s.mods.Keys + {5} && (forall x | x in s.mods :: s'.mods[x] == s.mods[x])
      && s'.mods[5] == Mod(Some([]), Factory(false), false, 0, true, Some(LoadError(5)), [], 0, multiset{})
      && s'.inv == s.inv && s'.known == s.known && s'.pend == s.pend
  {
    var s0 := WithPlaceholder(s, 5);
    forall v
      ensures v in Flooded(s0, 5) <==> v == 5
    {
      NoPathFromUndefined(s.inv, 5, v);
    }
  }

  /**
   Module 3 waits for module 4; module 5 fails to load; module 4 is then defined, finds 5 in error
   and gives up without telling 3. Everything requested is defined, nothing is left to do, 3 waits on.
   */
  lemma EarlyReturnStrandsAWaiter() returns (s: State)
    ensures Reachable(s) && Quiescent(s) && Waiting(s, 3)
    ensures forall d | d in s.known :: d in s.mods
    ensures !ErrorsPropagated(s)
  {
    var h := FourMeetsTheError();
    var s4 := h[|h| - 1];
    h := RunStep(h, Scan(4));
    s := h[|h| - 1];
    assert s == Abort(s4, 4, LoadError(5));
    assert 4 in s.mods[3].wait && Failed(s, 4) && !Failed(s, 3);
  }

  lemma FourMeetsTheError() returns (h: seq<State>)
    ensures IsRun(h)
    ensures var s := h[|h| - 1];
      && s.mods.Keys == {3, 4, 5} && s.inv.Keys == {4} && s.inv[4] == [3] && s.known == {4} && s.pend == multiset{}
      && s.mods[3] == Mod(Some([Regular(4)]), Factory(false), true, 1, false, None, [Regular(4)], 1, multiset{4})
      && s.mods[4] == Mod(Some([Regular(5)]), Factory(false), false, 1, false, None, [Regular(5)], 0, multiset{})
      && s.mods[5] == Mod(Some([]), Factory(false), false, 0, true, Some(LoadError(5)), [], 0, multiset{})
  {
    h := ThreeWaitsForFour();
    FiveFails(h[|h| - 1]);
    h := RunStep(h, Fail(5));
    h := RunStep(h, Define(4, [Regular(5)], Factory(false), false));
  }
}
