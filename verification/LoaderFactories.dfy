/** What becomes of the factories of modules and of their errors, over every reachable state. */
module LoaderFactories {
  import opened Wrappers
  import opened Graphs
  import opened LoaderMachine
  import opened LoaderInvariants
  import opened LoaderTheorems

  predicate Throws(s: State, x: Id) {
    x in s.given && s.given[x] == Factory(true)
  }

  /** A module has the callback it was defined with until it runs. */
  ghost predicate CallbacksKept(s: State) {
    forall x | x in s.mods :: x in s.given && (!Ran(s, x) ==> s.mods[x].callback == s.given[x])
  }

  /** A factory, and nothing else, is invoked when its module runs. */
  ghost predicate InvokedAsGiven(s: State) {
    forall k | 0 <= k < |s.log| ::
      s.log[k].id in s.given && (s.log[k].invoked <==> s.given[s.log[k].id].Factory?)
  }

  /** The global handler hears of every factory that has run and thrown, once. */
  ghost predicate ThrowsReported(s: State) {
    forall x :: multiset(s.reported)[FactoryError(x)] == if Ran(s, x) && Throws(s, x) then 1 else 0
  }

  /** What a module that has run has for an error. */
  function RunError(s: State, x: Id): Option<LoaderError> {
    if x in s.failed then Some(LoadError(x)) else if Throws(s, x) then Some(FactoryError(x)) else None
  }

  ghost predicate RunErrors(s: State) {
    && (forall x | Ran(s, x) :: s.mods[x].error == RunError(s, x))
    && (forall x | x in s.failed :: x in s.mods && s.mods[x].complete)
  }

  ghost predicate LeadsTo(s: State, x: Id, d: Id) {
    x == d || HasPath(DeclGraph(s), x, d)
  }

  /** The error comes from a factory that threw or a load that failed, of x or of something it depends on. */
  ghost predicate Origin(s: State, x: Id, err: LoaderError) {
    LeadsTo(s, x, err.id) && match err
      case FactoryError(y) => Ran(s, y) && Throws(s, y)
      case LoadError(y) => y in s.failed
  }

  ghost predicate ErrorsHaveOrigins(s: State) {
    forall x {:trigger s.mods[x].error} | x in s.mods && s.mods[x].error.Some? :: Origin(s, x, s.mods[x].error.value)
  }

  ghost predicate FactoryInv(s: State) {
    CallbacksKept(s) && InvokedAsGiven(s) && ThrowsReported(s) && RunErrors(s) && ErrorsHaveOrigins(s)
  }

  // ----- steps that leave callbacks, reports and runs alone -----

  /** s' has the modules of s with their declarations; the same have run; no history is lost. */
  ghost predicate Quiet(s: State, s': State) {
    && s.mods.Keys == s'.mods.Keys && s'.given == s.given && s'.log == s.log
    && s'.reported == s.reported && s'.failed == s.failed
    && (forall x | x in s.mods :: s'.mods[x].decl == s.mods[x].decl && s'.mods[x].callback == s.mods[x].callback)
    && (forall x | x in s.mods :: s'.mods[x].deps == s.mods[x].deps && (s.mods[x].complete ==> s'.mods[x].complete))
  }

  lemma DeclarationsExtend(s: State, s': State)
    requires forall x | x in s.mods :: x in s'.mods && s'.mods[x].decl == s.mods[x].decl
    ensures Extends(DeclGraph(s), DeclGraph(s'))
  {
  }

  lemma OriginKept(s: State, s': State, x: Id, err: LoaderError)
    requires Origin(s, x, err) && Extends(DeclGraph(s), DeclGraph(s'))
    requires forall y | Ran(s, y) && Throws(s, y) :: Ran(s', y) && Throws(s', y)
    requires s.failed <= s'.failed
    ensures Origin(s', x, err)
  {
    if x != err.id {
      PathMonotone(DeclGraph(s), DeclGraph(s'), x, err.id);
    }
  }

  /** A quiet step that changes no error, or one to an error with an origin. */
  lemma QuietKeeps(s: State, s': State)
    requires FactoryInv(s) && Quiet(s, s')
    requires forall x | x in s.mods && s'.mods[x].error != s.mods[x].error ::
      !Ran(s, x) && s'.mods[x].error.Some? && Origin(s, x, s'.mods[x].error.value)
    ensures FactoryInv(s')
  {
    assert forall x :: Ran(s, x) <==> Ran(s', x);
    DeclarationsExtend(s, s');
    forall x | x in s'.mods && s'.mods[x].error.Some?
      ensures Origin(s', x, s'.mods[x].error.value)
    {
      var err := s'.mods[x].error.value;
      if s'.mods[x].error == s.mods[x].error {
        assert Origin(s, x, s.mods[x].error.value);
      }
      OriginKept(s, s', x, err);
    }
  }

  // ----- the actions -----

  lemma DefineKeepsOrigins(s: State, id: Id, deps: seq<Dep>, callback: Callback, errorback: bool)
    requires ErrorsHaveOrigins(s) && id !in s.mods
    ensures ErrorsHaveOrigins(DoDefine(s, id, deps, callback, errorback))
  {
    var s' := DoDefine(s, id, deps, callback, errorback);
    DeclarationsExtend(s, s');
    forall x | x in s'.mods && s'.mods[x].error.Some?
      ensures Origin(s', x, s'.mods[x].error.value)
    {
      assert x != id && s.mods[x].error == s'.mods[x].error;
      OriginKept(s, s', x, s.mods[x].error.value);
    }
  }

  lemma DefineKeeps(s: State, id: Id, deps: seq<Dep>, callback: Callback, errorback: bool)
    requires Inv(s) && FactoryInv(s) && id !in s.mods
    ensures FactoryInv(DoDefine(s, id, deps, callback, errorback))
  {
    var s' := DoDefine(s, id, deps, callback, errorback);
    forall k | 0 <= k < |s.log|
      ensures s.log[k].id in s.given && s.log[k].id != id
    {
      assert CompletionOk(s, k);
    }
    DefineKeepsOrigins(s, id, deps, callback, errorback);
  }

  lemma CreditKeeps(s: State, x: Id)
    requires FactoryInv(s) && Enabled(s, Scan(x))
    ensures FactoryInv(Credit(s, x)) && FactoryInv(Cut(s, x))
  {
    QuietKeeps(s, Credit(s, x));
    QuietKeeps(s, Cut(s, x));
  }

  lemma AddWaitKeeps(s: State, x: Id, d: Id)
    requires FactoryInv(s) && Enabled(s, Scan(x))
    ensures FactoryInv(AddWait(s, x, d))
  {
    QuietKeeps(s, AddWait(s, x, d));
  }

  lemma ScanKeeps(s: State, x: Id)
    requires Inv(s) && FactoryInv(s) && Enabled(s, Scan(x))
    ensures FactoryInv(DoScan(s, x))
  {
    match Judge(s, x, s.mods[x].decl[s.mods[x].scanned])
    case There => CreditKeeps(s, x);
    case Cycle => CreditKeeps(s, x);
    case WaitFor(d) => AddWaitKeeps(s, x, d);
    case Broken(err) => AbortKeeps(s, x, err);
  }

  /** Whoever takes the error of a dependency over leads to where that comes from. */
  lemma AbortKeeps(s: State, x: Id, err: LoaderError)
    requires Inv(s) && FactoryInv(s) && Enabled(s, Scan(x))
    requires Judge(s, x, s.mods[x].decl[s.mods[x].scanned]) == Broken(err)
    ensures FactoryInv(Abort(s, x, err))
  {
    var dep, j := s.mods[x].decl[s.mods[x].scanned], s.mods[x].scanned;
    assert Origin(s, dep.id, s.mods[dep.id].error.value);
    assert DepIds(s.mods[x].decl)[j] == dep.id;
    assert Edge(DeclGraph(s), x, dep.id);
    EdgeThenPath(DeclGraph(s), x, dep.id, err.id);
    assert ModOk(s.mods[x], s.pend[x]);
    QuietKeeps(s, Abort(s, x, err));
  }

  lemma ReleaseKeeps(s: State, x: Id)
    requires FactoryInv(s) && Enabled(s, Release(x))
    ensures FactoryInv(DoRelease(s, x))
  {
    QuietKeeps(s, DoRelease(s, x));
  }

  /** Errors that are kept have the origins they had, however the state has grown. */
  lemma OriginsGrow(s: State, s': State)
    requires ErrorsHaveOrigins(s)
    requires forall x | x in s.mods :: x in s'.mods && s'.mods[x].decl == s.mods[x].decl
    requires forall y | Ran(s, y) && Throws(s, y) :: Ran(s', y) && Throws(s', y)
    requires s.failed <= s'.failed
    requires forall x | x in s'.mods && s'.mods[x].error.Some? ::
      (x in s.mods && s'.mods[x].error == s.mods[x].error) || Origin(s', x, s'.mods[x].error.value)
    ensures ErrorsHaveOrigins(s')
  {
    DeclarationsExtend(s, s');
    forall x | x in s'.mods && s'.mods[x].error.Some?
      ensures Origin(s', x, s'.mods[x].error.value)
    {
      if x in s.mods && s'.mods[x].error == s.mods[x].error {
        OriginKept(s, s', x, s.mods[x].error.value);
      }
    }
  }

  lemma CompleteEffects(s: State, x: Id)
    requires ModsOk(s) && CallbacksKept(s) && Enabled(s, Complete(x))
    ensures var s' := DoComplete(s, x);
      && s'.mods.Keys == s.mods.Keys && s'.given == s.given && s'.failed == s.failed
      && (forall y :: Ran(s', y) <==> Ran(s, y) || y == x) && !Ran(s, x) && s.mods[x].callback == s.given[x]
      && (forall y | y in s.mods :: s'.mods[y].decl == s.mods[y].decl && (s.mods[y].complete ==> s'.mods[y].complete))
      && (forall y | y in s.mods && y != x ::
            s'.mods[y].callback == s.mods[y].callback && s'.mods[y].error == s.mods[y].error)
      && s'.mods[x].error == (if Throws(s, x) then Some(FactoryError(x)) else None)
      && s'.reported == s.reported + (if Throws(s, x) then [FactoryError(x)] else [])
      && |s'.log| == |s.log| + 1 && s'.log[..|s.log|] == s.log
      && s'.log[|s.log|].id == x && (s'.log[|s.log|].invoked <==> s.given[x].Factory?)
  {
    assert ModOk(s.mods[x], s.pend[x]);
  }

  lemma CompleteKeepsOrigins(s: State, x: Id)
    requires ModsOk(s) && CallbacksKept(s) && ErrorsHaveOrigins(s) && Enabled(s, Complete(x))
    ensures ErrorsHaveOrigins(DoComplete(s, x))
  {
    CompleteEffects(s, x);
    OriginsGrow(s, DoComplete(s, x));
  }

  lemma CompleteKeepsReports(s: State, x: Id)
    requires ModsOk(s) && CallbacksKept(s) && ThrowsReported(s) && InvokedAsGiven(s) && Enabled(s, Complete(x))
    ensures var s' := DoComplete(s, x); CallbacksKept(s') && ThrowsReported(s') && InvokedAsGiven(s')
  {
    CompleteEffects(s, x);
    var s' := DoComplete(s, x);
    forall k | 0 <= k < |s'.log|
      ensures s'.log[k].id in s'.given && (s'.log[k].invoked <==> s'.given[s'.log[k].id].Factory?)
    {
      if k < |s.log| {
        assert s'.log[k] == s'.log[..|s.log|][k];
      }
    }
  }

  lemma CompleteKeeps(s: State, x: Id)
    requires Inv(s) && FactoryInv(s) && Enabled(s, Complete(x))
    ensures FactoryInv(DoComplete(s, x))
  {
    CompleteKeepsReports(s, x);
    CompleteKeepsOrigins(s, x);
    CompleteEffects(s, x);
  }

  /** To wait is to depend, so a chain of waits is a chain of dependencies the other way round. */
  lemma WaitersLeadBack(s: State, id: Id, v: Id)
    requires Inv(s) && Reaches(s.inv, id, v)
    ensures LeadsTo(s, v, id)
  {
    var back := set y | y in s.mods.Keys + {id} && LeadsTo(s, y, id);
    forall a, b | a in back && Edge(s.inv, a, b)
      ensures b in back
    {
      assert s.mods[b].wait[a] == multiset(InvList(s.inv, a))[b];
      assert a in s.mods[b].wait;
      DependencyIsEdge(s, b, a);
      EdgeThenPath(DeclGraph(s), b, a, id);
    }
    ClosedTrapsPaths(s.inv, back, id, v);
  }

  lemma DependencyIsEdge(s: State, x: Id, d: Id)
    requires x in s.mods && Regular(d) in s.mods[x].decl
    ensures Edge(DeclGraph(s), x, d)
  {
    var i :| 0 <= i < |s.mods[x].decl| && s.mods[x].decl[i] == Regular(d);
    assert DepIds(s.mods[x].decl)[i] == d;
  }

  /** s' is s after the failure of id, as far as callbacks, errors and reports go. */
  ghost predicate FailedFrom(s: State, s': State, id: Id) {
    && s'.mods.Keys == s.mods.Keys && s'.given == s.given && s'.failed == s.failed + {id} && s'.log == s.log
    && (forall y :: Ran(s', y) <==> Ran(s, y))
    && (forall y | y in s.mods :: s'.mods[y].decl == s.mods[y].decl && s'.mods[y].callback == s.mods[y].callback)
    && (forall y | y in s.mods && s.mods[y].complete :: s'.mods[y].complete)
    && id in s.mods && s'.mods[id].complete && s'.mods[id].error == Some(LoadError(id))
    && (forall y | y in s.mods :: s'.mods[y].error == s.mods[y].error
                                  || (s'.mods[y].error == Some(LoadError(id)) && Reaches(s.inv, id, y)))
    && (forall y | Ran(s, y) && y != id :: s'.mods[y].error == s.mods[y].error)
    && (forall y :: multiset(s'.reported)[FactoryError(y)] == multiset(s.reported)[FactoryError(y)])
  }

  lemma FloodEffects(s: State, id: Id)
    requires Inv(s) && id in s.mods
    ensures FailedFrom(s, DoFail(s, id), id)
  {
    forall y | Ran(s, y) && y != id
      ensures y !in Flooded(s, id)
    {
      RanIsNotStuck(s, id, y);
    }
    assert id in Flooded(s, id);
  }

  lemma FailureKeepsOrigins(s: State, s': State, id: Id)
    requires Inv(s) && ErrorsHaveOrigins(s) && FailedFrom(s, s', id)
    ensures ErrorsHaveOrigins(s')
  {
    DeclarationsExtend(s, s');
    forall y | y in s'.mods && s'.mods[y].error != s.mods[y].error
      ensures Origin(s', y, LoadError(id)) && s'.mods[y].error == Some(LoadError(id))
    {
      WaitersLeadBack(s, id, y);
      if y != id {
        PathMonotone(DeclGraph(s), DeclGraph(s'), y, id);
      }
    }
    OriginsGrow(s, s');
  }

  lemma FailureKeeps(s: State, s': State, id: Id)
    requires FactoryInv(s) && FailedFrom(s, s', id) && ErrorsHaveOrigins(s')
    ensures FactoryInv(s')
  {
  }

  lemma FloodKeeps(s: State, id: Id)
    requires Inv(s) && FactoryInv(s) && id in s.mods
    ensures FactoryInv(DoFail(s, id))
  {
    FloodEffects(s, id);
    FailureKeepsOrigins(s, DoFail(s, id), id);
    FailureKeeps(s, DoFail(s, id), id);
  }

  lemma FailKeeps(s: State, id: Id)
    requires Inv(s) && FactoryInv(s)
    ensures FactoryInv(DoFail(s, id))
  {
    if id in s.mods {
      FloodKeeps(s, id);
    } else {
      DefineKeepsInv(s, id, [], Factory(false), false);
      DefineKeeps(s, id, [], Factory(false), false);
      FloodKeeps(WithPlaceholder(s, id), id);
    }
  }

  lemma FactoryStep(s: State, a: Action)
    requires Inv(s) && FactoryInv(s) && Enabled(s, a)
    ensures FactoryInv(Next(s, a))
  {
    match a
    case Define(id, deps, callback, errorback) => DefineKeeps(s, id, deps, callback, errorback);
    case Scan(x) => ScanKeeps(s, x);
    case Complete(x) => CompleteKeeps(s, x);
    case Release(x) => ReleaseKeeps(s, x);
    case Fail(id) => FailKeeps(s, id);
  }

  lemma {:induction false} RunFactoryInv(h: seq<State>)
    requires IsRun(h)
    ensures FactoryInv(h[|h| - 1])
    decreases |h|
  {
    var n := |h| - 1;
    if n > 0 {
      RunPrefix(h);
      RunInv(h[..n]);
      RunFactoryInv(h[..n]);
      assert StepAt(h, n);
      var a :| Enabled(h[n - 1], a) && h[n] == Next(h[n - 1], a);
      FactoryStep(h[n - 1], a);
    }
  }

  // ----- definitions -----

  /** What a module is defined with stays with it until it runs, and its dependencies and callback on record. */
  ghost predicate KeepsDefinition(s: State, s': State, x: Id)
    requires x in s.mods
  {
    && x in s'.mods && s'.mods[x].decl == s.mods[x].decl
    && (x in s.given ==> x in s'.given && s'.given[x] == s.given[x])
    && (Ran(s, x) ==> Ran(s', x))
    && (!Ran(s', x) ==>
          s'.mods[x].deps == s.mods[x].deps && s'.mods[x].callback == s.mods[x].callback
          && s'.mods[x].errorback == s.mods[x].errorback)
  }

  lemma ScanKeepsDefinition(s: State, y: Id, x: Id)
    requires Enabled(s, Scan(y)) && x in s.mods
    ensures KeepsDefinition(s, DoScan(s, y), x)
  {
    match Judge(s, y, s.mods[y].decl[s.mods[y].scanned])
    case There => assert KeepsDefinition(s, Credit(s, y), x);
    case Cycle => assert KeepsDefinition(s, Cut(s, y), x);
    case WaitFor(d) => assert KeepsDefinition(s, AddWait(s, y, d), x);
    case Broken(err) => assert KeepsDefinition(s, Abort(s, y, err), x);
  }

  lemma StepKeepsDefinition(s: State, a: Action, x: Id)
    requires Enabled(s, a) && x in s.mods
    ensures KeepsDefinition(s, Next(s, a), x)
  {
    match a
    case Define(id, deps, callback, errorback) =>
      assert KeepsDefinition(s, DoDefine(s, id, deps, callback, errorback), x);
    case Scan(y) => ScanKeepsDefinition(s, y, x);
    case Complete(y) => assert KeepsDefinition(s, DoComplete(s, y), x);
    case Release(y) => assert KeepsDefinition(s, DoRelease(s, y), x);
    case Fail(id) =>
      assert KeepsDefinition(s, WithPlaceholder(s, id), x);
      assert KeepsDefinition(s, DoFail(s, id), x);
  }

  /** From its definition on, a module has the dependencies, the callback and the errorback it was defined with. */
  lemma {:induction false} DefinitionsAreKept(h: seq<State>, i: int, j: int, id: Id, deps: seq<Dep>,
                                              callback: Callback, errorback: bool)
    requires IsRun(h) && 0 < i <= j < |h| && Enabled(h[i - 1], Define(id, deps, callback, errorback))
    requires h[i] == Next(h[i - 1], Define(id, deps, callback, errorback))
    ensures id in h[j].mods && h[j].mods[id].decl == deps && id in h[j].given && h[j].given[id] == callback
    ensures !Ran(h[j], id) ==>
      h[j].mods[id].deps == Some(deps) && h[j].mods[id].callback == callback && h[j].mods[id].errorback == errorback
    decreases j
  {
    if i < j {
      DefinitionsAreKept(h, i, j - 1, id, deps, callback, errorback);
      assert StepAt(h, j);
      var a :| Enabled(h[j - 1], a) && h[j] == Next(h[j - 1], a);
      StepKeepsDefinition(h[j - 1], a, id);
    }
  }

  // ----- what follows -----

  /**
   A module that runs has its factory invoked if and only if it was defined with one, once; the global error
   handler hears of a factory exactly if it has run and thrown, once; and a module that has run is in error
   exactly if its factory threw or its own load failed after that.
   */
  lemma FactoriesAreHeeded(s: State, x: Id)
    requires Reachable(s)
    ensures forall k | 0 <= k < |s.log| ::
      s.log[k].id in s.given && (s.log[k].invoked <==> s.given[s.log[k].id].Factory?)
    ensures multiset(s.reported)[FactoryError(x)] == if Ran(s, x) && Throws(s, x) then 1 else 0
    ensures Ran(s, x) ==> s.mods[x].error == RunError(s, x)
    ensures Ran(s, x) <==> exists k :: 0 <= k < |s.log| && s.log[k].id == x
  {
    var h :| IsRun(h) && h[|h| - 1] == s;
    RunFactoryInv(h);
    RunInv(h);
    forall k | 0 <= k < |s.log|
      ensures Ran(s, s.log[k].id)
    {
      assert CompletionOk(s, k);
    }
  }

  /** A module in error has it from a factory that threw or a load that failed, its own or that of a dependency. */
  lemma ErrorsAreFounded(s: State, x: Id)
    requires Reachable(s) && x in s.mods && s.mods[x].error.Some?
    ensures var err := s.mods[x].error.value;
      && (x == err.id || HasPath(DeclGraph(s), x, err.id))
      && match err
         case FactoryError(y) => Ran(s, y) && Throws(s, y)
         case LoadError(y) => y in s.failed
  {
    var h :| IsRun(h) && h[|h| - 1] == s;
    RunFactoryInv(h);
    assert Origin(s, x, s.mods[x].error.value);
  }
}
