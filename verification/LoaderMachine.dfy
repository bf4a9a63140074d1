/**
 The module manager of the AMD loader as a state machine. One action is one stretch of code that
 touches the manager's tables, and any interleaving of actions is allowed: scripts that are
 delivered inside the request for them and errors that arrive in the middle of a dependency scan
 are runs of this machine. Factories and errorbacks are called in the middle of an action, so they
 are taken to return, or to throw, before the manager is called again.
 */
module LoaderMachine {
  import opened Wrappers
  import opened Graphs

  type Id = int

  /** A normalised dependency. The first three are told apart by identity, not by id. */
  datatype Dep = Exports | ModuleInfo | Require | Regular(id: Id)

  function DepId(dep: Dep): Id {
    match dep
    case Exports => 0
    case ModuleInfo => 1
    case Require => 2
    case Regular(id) => id
  }

  function DepIds(deps: seq<Dep>): seq<Id> {
    seq(|deps|, i requires 0 <= i < |deps| => DepId(deps[i]))
  }

  datatype Callback = NoCallback | Value | Factory(throws: bool)

  datatype LoaderError = LoadError(id: Id) | FactoryError(id: Id)

  /** One call of a module's errorback. */
  datatype Heard = Heard(hearer: Id, err: LoaderError)

  datatype Arg = OwnExports | OwnInfo | LocalRequire | ExportsOf(id: Id) | Missing

  /**
   The fields of a `Module` that steer the manager; `deps` is None once its factory has run.
   The last three are history: the dependency list it was defined with, how many of these its
   `_resolve` loop is done with, and on what, and how often, it is waiting.
   */
  datatype Mod = Mod(deps: Option<seq<Dep>>, callback: Callback, errorback: bool,
                     count: int, complete: bool, error: Option<LoaderError>,
                     decl: seq<Dep>, scanned: int, wait: multiset<Id>)

  /** One module running to completion, with the arguments its factory was given. */
  datatype Completion = Completion(id: Id, invoked: bool, args: seq<Arg>)

  /**
   mods, inv and known are the manager's tables. The rest is history:
   pend     occurrences taken out of inv by completed modules and not yet released
   cuts     the positions at which a scan broke a cycle
   log      completions, in order
   reported errors handed to the global error handler
   heard    calls of errorbacks
   given    the callback each module was defined with
   failed   the ids whose load has failed
   */
  datatype State = State(
    mods: map<Id, Mod>, inv: map<Id, seq<Id>>, known: set<Id>,
    pend: multiset<Id>, cuts: set<(Id, int)>, log: seq<Completion>, reported: seq<LoaderError>,
    heard: multiset<Heard>, given: map<Id, Callback>, failed: set<Id>)

  const INIT_STATE := State(map[], map[], {}, multiset{}, {}, [], [], multiset{}, map[], {})

  function InvList(inv: map<Id, seq<Id>>, d: Id): seq<Id> {
    if d in inv then inv[d] else []
  }

  /** Complete because its factory has run (or it had none to run). */
  predicate Ran(s: State, x: Id) {
    x in s.mods && s.mods[x].deps.None?
  }

  /** Marked complete by an error of a dependency, or of its own script. */
  predicate Failed(s: State, x: Id) {
    x in s.mods && s.mods[x].complete && s.mods[x].deps.Some?
  }

  predicate Waiting(s: State, x: Id) {
    x in s.mods && !s.mods[x].complete
  }

  /** What the cycle search walks: the dependency lists of modules that have not run yet. */
  function SearchGraph(s: State): Graph {
    map x | x in s.mods :: match s.mods[x].deps case Some(deps) => DepIds(deps) case None => []
  }

  function DeclGraph(s: State): Graph {
    map x | x in s.mods :: DepIds(s.mods[x].decl)
  }

  // ----- actions -----

  datatype Action =
    | Define(id: Id, deps: seq<Dep>, callback: Callback, errorback: bool)
    | Scan(x: Id)
    | Complete(x: Id)
    | Release(x: Id)
    | Fail(id: Id)

  ghost predicate Enabled(s: State, a: Action) {
    match a
    case Define(id, _, _, _) => id !in s.mods
    case Scan(x) => x in s.mods && 0 <= s.mods[x].scanned < |s.mods[x].decl|
    case Complete(x) => Waiting(s, x) && s.mods[x].count == 0
    case Release(x) => x in s.pend && x in s.mods
    case Fail(_) => true
  }

  ghost function Next(s: State, a: Action): State
    requires Enabled(s, a)
  {
    match a
    case Define(id, deps, callback, errorback) => DoDefine(s, id, deps, callback, errorback)
    case Scan(x) => DoScan(s, x)
    case Complete(x) => DoComplete(s, x)
    case Release(x) => DoRelease(s, x)
    case Fail(id) => DoFail(s, id)
  }

  function DoDefine(s: State, id: Id, deps: seq<Dep>, callback: Callback, errorback: bool): State {
    s.(mods := s.mods[id := Mod(Some(deps), callback, errorback, |deps|, false, None, deps, 0, multiset{})],
       given := s.given[id := callback])
  }

  /** The dependency at the current position counts as resolved. */
  function Credit(s: State, x: Id): State
    requires Enabled(s, Scan(x))
  {
    var m := s.mods[x];
    s.(mods := s.mods[x := m.(count := m.count - 1, scanned := m.scanned + 1)])
  }

  /** The dependency at the current position would close a cycle of waits: do not wait for it. */
  function Cut(s: State, x: Id): State
    requires Enabled(s, Scan(x))
  {
    Credit(s, x).(cuts := s.cuts + {(x, s.mods[x].scanned)})
  }

  /** x starts waiting for d, and d is requested if it is neither defined nor requested. */
  function AddWait(s: State, x: Id, d: Id): State
    requires Enabled(s, Scan(x))
  {
    var m := s.mods[x];
    s.(mods := s.mods[x := m.(scanned := m.scanned + 1, wait := m.wait + multiset{d})],
       inv := s.inv[d := InvList(s.inv, d) + [x]],
       known := if d in s.mods then s.known else s.known + {d})
  }

  /** A dependency is already in error: x takes the error over and its scan stops. */
  function Abort(s: State, x: Id, err: LoaderError): State
    requires Enabled(s, Scan(x))
  {
    var m := s.mods[x];
    s.(mods := s.mods[x := m.(complete := true, error := Some(err), scanned := |m.decl|)],
       heard := if m.errorback then s.heard + multiset{Heard(x, err)} else s.heard)
  }

  predicate Resolved(s: State, d: Id) {
    d in s.mods && s.mods[d].complete && s.mods[d].error.None?
  }

  predicate InError(s: State, d: Id) {
    d in s.mods && s.mods[d].complete && s.mods[d].error.Some?
  }

  /** What `_resolve` makes of one dependency. */
  datatype Verdict = There | Cycle | Broken(err: LoaderError) | WaitFor(d: Id)

  ghost function Judge(s: State, x: Id, dep: Dep): Verdict {
    if !dep.Regular? || Resolved(s, dep.id) then There
    else if InError(s, dep.id) then Broken(s.mods[dep.id].error.value)
    else if HasPath(SearchGraph(s), dep.id, x) then Cycle
    else WaitFor(dep.id)
  }

  ghost function DoScan(s: State, x: Id): State
    requires Enabled(s, Scan(x))
  {
    match Judge(s, x, s.mods[x].decl[s.mods[x].scanned])
    case There => Credit(s, x)
    case Cycle => Cut(s, x)
    case Broken(err) => Abort(s, x, err)
    case WaitFor(d) => AddWait(s, x, d)
  }

  function ArgFor(s: State, dep: Dep): Arg {
    match dep
    case Exports => OwnExports
    case ModuleInfo => OwnInfo
    case Require => LocalRequire
    case Regular(d) => if d in s.mods then ExportsOf(d) else Missing
  }

  function ArgsFor(s: State, deps: seq<Dep>): seq<Arg> {
    seq(|deps|, i requires 0 <= i < |deps| => ArgFor(s, deps[i]))
  }

  /** A module that has run: everything needed to run it is dropped. */
  function AfterRun(m: Mod, x: Id): Mod {
    m.(deps := None, callback := NoCallback, errorback := false, complete := true,
       error := if m.callback == Factory(true) then Some(FactoryError(x)) else m.error)
  }

  /** `Module.complete` followed by taking the list of waiters out of the table. */
  function DoComplete(s: State, x: Id): State
    requires Enabled(s, Complete(x))
  {
    var m := s.mods[x];
    var threw := m.callback == Factory(true);
    var ran := AfterRun(m, x);
    s.(mods := map y | y in s.mods :: (if y == x then ran else s.mods[y]).(wait := s.mods[y].wait[x := 0]),
       inv := s.inv - {x},
       pend := s.pend + multiset(InvList(s.inv, x)),
       log := s.log + [Completion(x, m.callback.Factory?, ArgsFor(s, m.deps.GetOr([])))],
       reported := if threw then s.reported + [FactoryError(x)] else s.reported)
  }

  function DoRelease(s: State, x: Id): State
    requires Enabled(s, Release(x))
  {
    s.(pend := s.pend - multiset{x}, mods := s.mods[x := s.mods[x].(count := s.mods[x].count - 1)])
  }

  /** A failed load leaves an empty, defined module behind if there was none. */
  function WithPlaceholder(s: State, id: Id): State {
    if id in s.mods then s else DoDefine(s, id, [], Factory(false), false)
  }

  /** Everything that waits, directly or not, for id; and id itself. */
  ghost function Flooded(s: State, id: Id): set<Id> {
    set v | v in s.mods.Keys + {id} && Reaches(s.inv, id, v)
  }

  ghost predicate SomeoneNotified(s: State, id: Id) {
    exists v :: v in Flooded(s, id) && v in s.mods && s.mods[v].errorback
  }

  /** The errorback calls of a flood that has reached the modules in done: one for each that has one. */
  function HeardAmong(s: State, id: Id, done: set<Id>): set<Heard> {
    set v | v in done && v in s.mods && s.mods[v].errorback :: Heard(v, LoadError(id))
  }

  ghost function DoFail(s: State, id: Id): State {
    var s0 := WithPlaceholder(s, id);
    s0.(mods := map v | v in s0.mods ::
                  if v in Flooded(s0, id) then s0.mods[v].(complete := true, error := Some(LoadError(id)))
                  else s0.mods[v],
        reported := if SomeoneNotified(s0, id) then s.reported else s.reported + [LoadError(id)],
        heard := s.heard + multiset(HeardAmong(s0, id, Flooded(s0, id))),
        failed := s.failed + {id})
  }

  // ----- runs -----

  ghost predicate Step(s: State, s': State) {
    exists a :: Enabled(s, a) && s' == Next(s, a)
  }

  ghost predicate StepAt(h: seq<State>, i: int)
    requires 0 < i < |h|
  {
    Step(h[i - 1], h[i])
  }

  /** A run from the initial state, one action at a time. */
  ghost predicate IsRun(h: seq<State>) {
    && |h| > 0 && h[0] == INIT_STATE
    && forall i | 0 < i < |h| :: StepAt(h, i)
  }

  ghost predicate Reachable(s: State) {
    exists h :: IsRun(h) && h[|h| - 1] == s
  }
}
