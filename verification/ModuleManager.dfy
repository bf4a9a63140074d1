/** The module manager itself: objects updated in place, tied to the runs of the state machine. */
module ModuleManagers {
  import opened Wrappers
  import opened Graphs
  import opened LoaderMachine
  import opened LoaderInvariants
  import opened LoaderTheorems

  class Module {
    const id: Id
    var dependencies: Option<seq<Dep>>
    var callback: Callback
    var errorback: bool
    var unresolvedDependenciesCount: int
    var isComplete: bool
    var error: Option<LoaderError>

    ghost predicate Is(m: Mod)
      reads this
    {
      && dependencies == m.deps && callback == m.callback && errorback == m.errorback
      && unresolvedDependenciesCount == m.count && isComplete == m.complete && error == m.error
    }

    constructor (id: Id, dependencies: seq<Dep>, callback: Callback, errorback: bool)
      ensures this.id == id
      ensures Is(Mod(Some(dependencies), callback, errorback, |dependencies|, false, None, dependencies, 0, multiset{}))
    {
      this.id := id;
      this.dependencies := Some(dependencies);
      this.callback := callback;
      this.errorback := errorback;
      this.unresolvedDependenciesCount := |dependencies|;
      this.isComplete := false;
      this.error := None;
    }

    /** Runs the factory, if there is one, and drops everything needed to run it. */
    method Complete() returns (threw: bool)
      modifies this
      ensures threw == (old(callback) == Factory(true))
      ensures isComplete && dependencies == None && callback == NoCallback && !errorback
      ensures error == if threw then Some(FactoryError(id)) else old(error)
      ensures unresolvedDependenciesCount == old(unresolvedDependenciesCount)
    {
      isComplete := true;
      threw := callback.Factory? && callback.throws;
      if threw {
        error := Some(FactoryError(id));
      }
      dependencies := None;
      callback := NoCallback;
      errorback := false;
    }

    method OnDependencyError(err: LoaderError) returns (notified: bool)
      modifies this
      ensures isComplete && error == Some(err) && notified == errorback
      ensures unchanged(`dependencies, `callback, `errorback, `unresolvedDependenciesCount)
    {
      isComplete := true;
      error := Some(err);
      notified := errorback;
    }
  }

  lemma InsertKeepsItems<K, V>(m: map<K, V>, k: K, v: V)
    requires k !in m
    ensures m.Items <= m[k := v].Items
  {
  }

  /**
   One `define` call, and what a script does that the loader delivers at once: calls with a name, then
   perhaps one without, which gets the name of the script unless the script fails, and else the name of the
   next script that runs.
   */
  datatype Definition = Definition(id: Id, deps: seq<Dep>, callback: Callback)
  type AnonymousCall = (seq<Dep>, Callback)

  datatype Script = Script(definitions: seq<Definition>, anonymous: Option<AnonymousCall>, ok: bool)

  predicate Fails(script: Script, pending: Option<AnonymousCall>) {
    !script.ok || (script.anonymous.Some? && pending.Some?)
  }

  function PendingAfter(script: Script, pending: Option<AnonymousCall>): Option<AnonymousCall> {
    if pending.Some? then pending else script.anonymous
  }

  /** Nobody is complete in all but name. */
  ghost predicate ReadyAt(s: State, x: Id) {
    Waiting(s, x) && s.mods[x].count == 0
  }

  ghost predicate NoneReady(s: State, except: set<Id>) {
    forall x {:trigger ReadyAt(s, x)} | ReadyAt(s, x) :: x in except
  }

  ghost function WaitingSet(s: State): set<Id> {
    set x | x in s.mods && !s.mods[x].complete
  }

  ghost predicate SameScans(s: State, s': State) {
    s'.mods.Keys == s.mods.Keys && forall y {:trigger SameScan(s, s', y)} | y in s.mods :: SameScan(s, s', y)
  }

  lemma OwedIsDefined(h: seq<State>, x: Id)
    requires IsRun(h) && x in h[|h| - 1].pend
    ensures Enabled(h[|h| - 1], Release(x))
  {
    RunInv(h);
  }

  lemma WaitingHasDeps(h: seq<State>, x: Id)
    requires IsRun(h) && Waiting(h[|h| - 1], x)
    ensures var m := h[|h| - 1].mods[x]; m.deps == Some(m.decl) && m.error == None
  {
    RunInv(h);
    assert ModOk(h[|h| - 1].mods[x], h[|h| - 1].pend[x]);
  }

  lemma CompleteKeys(s: State, x: Id)
    requires Enabled(s, Complete(x))
    ensures DoComplete(s, x).mods.Keys == s.mods.Keys
  {
  }

  /** The part of a completion that is not history. */
  lemma CompleteCore(s: State, x: Id, y: Id)
    requires Enabled(s, Complete(x)) && y in s.mods
    ensures var m' := DoComplete(s, x).mods[y];
      m' == (if y == x then AfterRun(s.mods[y], x) else s.mods[y]).(wait := m'.wait)
  {
  }

  lemma CompleteEffects(s: State, x: Id)
    requires Enabled(s, Complete(x)) && NoneReady(s, {x})
    ensures var s' := DoComplete(s, x);
      && NoneReady(s', {}) && SameScans(s, s')
      && WaitingSet(s') <= WaitingSet(s) - {x} && x in WaitingSet(s)
  {
    var s' := DoComplete(s, x);
    CompleteKeys(s, x);
    forall y
      ensures ReadyAt(s', y) ==> ReadyAt(s, y) && y != x
    {
    }
  }

  lemma ReleaseEffects(s: State, x: Id)
    requires Enabled(s, Release(x)) && NoneReady(s, {})
    ensures var s' := DoRelease(s, x);
      && NoneReady(s', {x}) && SameScans(s, s') && WaitingSet(s') <= WaitingSet(s)
      && (s'.mods[x].count != 0 ==> NoneReady(s', {}))
  {
    var s' := DoRelease(s, x);
    forall y
      ensures ReadyAt(s', y) && y != x ==> ReadyAt(s, y)
    {
    }
  }

  // ----- effects of the remaining steps -----

  /** y is as far in its scan as it was. */
  ghost predicate SameScan(s: State, s': State, y: Id) {
    y in s.mods && y in s'.mods && s'.mods[y].decl == s.mods[y].decl && s'.mods[y].scanned == s.mods[y].scanned
  }

  ghost predicate ScanOver(s: State, y: Id) {
    y in s.mods && s.mods[y].scanned == |s.mods[y].decl|
  }

  /** Nothing is owed that was not; only scans of modules in also moved, and new ones are over. */
  ghost predicate Moved(s: State, s': State, also: set<Id>) {
    && s'.pend == s.pend
    && s.mods.Keys <= s'.mods.Keys
    && (forall y {:trigger SameScan(s, s', y)} | y in s.mods && y !in also :: SameScan(s, s', y))
    && (forall y {:trigger ScanOver(s', y)} | y in s'.mods && y !in s.mods && y !in also :: ScanOver(s', y))
  }

  /** x may be in the middle of its scan. */
  ghost predicate Between(s: State, s': State, x: Id) {
    Moved(s, s', {x}) && x in s.mods && x in s'.mods && s'.mods[x].decl == s.mods[x].decl
  }

  /** Everything new in s', and everything in also, has been scanned to the end. */
  ghost predicate Quieter(s: State, s': State, also: set<Id>) {
    && Moved(s, s', also)
    && (forall y {:trigger ScanOver(s', y)} | y in also ::
          ScanOver(s', y) && y in s.mods && s'.mods[y].decl == s.mods[y].decl)
  }

  lemma MovedChain(s: State, s1: State, s2: State, also: set<Id>)
    requires Moved(s, s1, also) && Quieter(s1, s2, {})
    ensures Moved(s, s2, also)
  {
    forall y | y in s.mods && y !in also
      ensures SameScan(s, s2, y)
    {
      assert SameScan(s, s1, y) && SameScan(s1, s2, y);
    }
    forall y | y in s2.mods && y !in s.mods && y !in also
      ensures ScanOver(s2, y)
    {
      if y in s1.mods {
        assert ScanOver(s1, y) && SameScan(s1, s2, y);
      } else {
        assert ScanOver(s2, y);
      }
    }
  }

  lemma BetweenThenQuieter(s: State, s1: State, s2: State, x: Id)
    requires Between(s, s1, x) && Quieter(s1, s2, {})
    ensures Between(s, s2, x) && s2.mods[x].scanned == s1.mods[x].scanned
  {
    MovedChain(s, s1, s2, {x});
    assert SameScan(s1, s2, x);
  }

  lemma BetweenThenStop(s: State, s1: State, s2: State, x: Id)
    requires Between(s, s1, x) && Quieter(s1, s2, {x})
    ensures Quieter(s, s2, {x})
  {
    forall y | y in s.mods && y !in {x}
      ensures SameScan(s, s2, y)
    {
      assert SameScan(s, s1, y) && SameScan(s1, s2, y);
    }
    forall y | y in s2.mods && y !in s.mods && y !in {x}
      ensures ScanOver(s2, y)
    {
      if y in s1.mods {
        assert ScanOver(s1, y) && SameScan(s1, s2, y);
      } else {
        assert ScanOver(s2, y);
      }
    }
    assert ScanOver(s2, x);
  }

  lemma BetweenThenBetween(s: State, s1: State, s2: State, x: Id)
    requires Between(s, s1, x) && Between(s1, s2, x)
    ensures Between(s, s2, x)
  {
    forall y | y in s.mods && y !in {x}
      ensures SameScan(s, s2, y)
    {
      assert SameScan(s, s1, y) && SameScan(s1, s2, y);
    }
    forall y | y in s2.mods && y !in s.mods && y !in {x}
      ensures ScanOver(s2, y)
    {
      if y in s1.mods {
        assert ScanOver(s1, y) && SameScan(s1, s2, y);
      } else {
        assert ScanOver(s2, y);
      }
    }
  }

  lemma QuieterChain(s: State, s1: State, s2: State)
    requires Quieter(s, s1, {}) && Quieter(s1, s2, {})
    ensures Quieter(s, s2, {})
  {
    MovedChain(s, s1, s2, {});
  }

  lemma QuieterRefl(s: State)
    ensures Quieter(s, s, {})
  {
  }

  lemma SameScansChain(s: State, s1: State, s2: State)
    requires SameScans(s, s1) && SameScans(s1, s2)
    ensures SameScans(s, s2)
  {
    forall y | y in s.mods
      ensures SameScan(s, s2, y)
    {
      assert SameScan(s, s1, y) && SameScan(s1, s2, y);
    }
  }

  /** Completing modules moves no scan. */
  lemma CompletingIsQuiet(s: State, s': State)
    requires s'.pend == s.pend && SameScans(s, s')
    ensures Quieter(s, s', {})
  {
  }

  lemma ScanEnds(s: State, s': State, x: Id)
    requires Between(s, s', x) && s'.mods[x].scanned == |s'.mods[x].decl|
    ensures Quieter(s, s', {x})
  {
  }

  lemma DefineThenQuieter(s: State, id: Id, deps: seq<Dep>, callback: Callback, errorback: bool, s2: State)
    requires id !in s.mods && Quieter(DoDefine(s, id, deps, callback, errorback), s2, {id})
    ensures Quieter(s, s2, {})
  {
    var s1 := DoDefine(s, id, deps, callback, errorback);
    forall y | y in s.mods
      ensures SameScan(s, s2, y)
    {
      assert SameScan(s1, s2, y);
    }
    forall y | y in s2.mods && y !in s.mods
      ensures ScanOver(s2, y)
    {
      if y != id {
        assert y !in s1.mods;
      }
    }
  }

  /** What one step of the scan of x leaves behind. */
  ghost predicate ScannedOne(s: State, s': State, x: Id) {
    Between(s, s', x) && s'.mods[x].scanned == s.mods[x].scanned + 1
  }

  lemma CreditEffects(s: State, x: Id)
    requires Enabled(s, Scan(x)) && NoneReady(s, {x})
    ensures ScannedOne(s, Credit(s, x), x) && NoneReady(Credit(s, x), {x})
    ensures ScannedOne(s, Cut(s, x), x) && NoneReady(Cut(s, x), {x})
  {
    forall y
      ensures (ReadyAt(Credit(s, x), y) || ReadyAt(Cut(s, x), y)) && y != x ==> ReadyAt(s, y)
    {
    }
  }

  lemma AddWaitEffects(s: State, x: Id, d: Id)
    requires Enabled(s, Scan(x)) && NoneReady(s, {x}) && Inv(AddWait(s, x, d))
    ensures ScannedOne(s, AddWait(s, x, d), x) && NoneReady(AddWait(s, x, d), {})
  {
    var s' := AddWait(s, x, d);
    assert ModOk(s'.mods[x], s'.pend[x]);
    assert d in s'.mods[x].wait;
    forall y
      ensures ReadyAt(s', y) ==> ReadyAt(s, y) && y != x
    {
    }
  }

  /** The step of the run in which x starts to wait for d. */
  lemma WaitStep(h: seq<State>, x: Id, d: Id)
    requires IsRun(h) && Enabled(h[|h| - 1], Scan(x)) && NoneReady(h[|h| - 1], {x})
    requires var s := h[|h| - 1];
      Judge(s, x, s.mods[x].decl[s.mods[x].scanned]) == LoaderMachine.Verdict.WaitFor(d)
    ensures var s, s' := h[|h| - 1], AddWait(h[|h| - 1], x, d);
      IsRun(h + [s']) && ScannedOne(s, s', x) && NoneReady(s', {})
  {
    var s' := AddWait(h[|h| - 1], x, d);
    ExtendRun(h, Scan(x));
    RunInv(h + [s']);
    AddWaitEffects(h[|h| - 1], x, d);
  }

  lemma AbortEffects(s: State, x: Id, err: LoaderError)
    requires Enabled(s, Scan(x)) && NoneReady(s, {x})
    ensures Quieter(s, Abort(s, x, err), {x}) && NoneReady(Abort(s, x, err), {})
  {
    forall y
      ensures ReadyAt(Abort(s, x, err), y) ==> ReadyAt(s, y) && y != x
    {
    }
  }

  lemma AbortStep(h: seq<State>, x: Id, err: LoaderError)
    requires IsRun(h) && Enabled(h[|h| - 1], Scan(x)) && NoneReady(h[|h| - 1], {x})
    requires var s := h[|h| - 1];
      Judge(s, x, s.mods[x].decl[s.mods[x].scanned]) == Broken(err)
    ensures var s, s' := h[|h| - 1], Abort(h[|h| - 1], x, err);
      IsRun(h + [s']) && Quieter(s, s', {x}) && NoneReady(s', {}) && s'.known == s.known
  {
    ExtendRun(h, Scan(x));
    AbortEffects(h[|h| - 1], x, err);
  }

  lemma DefineEffects(s: State, id: Id, deps: seq<Dep>, callback: Callback, errorback: bool)
    requires id !in s.mods && NoneReady(s, {})
    ensures var s' := DoDefine(s, id, deps, callback, errorback);
      NoneReady(s', {id}) && s'.pend == s.pend && s'.mods.Keys == s.mods.Keys + {id}
      && s'.mods[id].scanned == 0 && s'.mods[id].decl == deps
      && (forall y | y in s.mods :: s'.mods[y] == s.mods[y])
  {
    var s' := DoDefine(s, id, deps, callback, errorback);
    forall y
      ensures ReadyAt(s', y) && y != id ==> ReadyAt(s, y)
    {
    }
  }

  lemma FailEffects(s: State, id: Id)
    requires NoneReady(s, {})
    ensures NoneReady(DoFail(s, id), {}) && Quieter(s, DoFail(s, id), {})
  {
    var s' := DoFail(s, id);
    forall y
      ensures ReadyAt(s', y) ==> ReadyAt(s, y)
    {
    }
    forall y | y in s'.mods && y !in s.mods
      ensures ScanOver(s', y)
    {
      assert y == id;
    }
  }

  /** The set a flood has seen is exactly what waits for id, once nothing in it is left to look at. */
  lemma SeenIsFlooded(s: State, id: Id, seen: set<Id>)
    requires id in seen && id in s.mods && seen <= s.mods.Keys
    requires forall v | v in seen :: Reaches(s.inv, id, v)
    requires forall v, w | v in seen && Edge(s.inv, v, w) :: w in seen
    ensures forall v :: v in seen <==> v in Flooded(s, id)
  {
    forall v | v in Flooded(s, id)
      ensures v in seen
    {
      ClosedTrapsPaths(s.inv, seen, id, v);
    }
  }

  ghost predicate NotifiedAmong(s: State, done: set<Id>) {
    exists v :: v in done && v in s.mods && s.mods[v].errorback
  }

  lemma NotifiedGrows(s: State, done: set<Id>, x: Id)
    requires x in s.mods
    ensures NotifiedAmong(s, done + {x}) <==> NotifiedAmong(s, done) || s.mods[x].errorback
  {
    if s.mods[x].errorback {
      assert x in done + {x};
    }
    if NotifiedAmong(s, done) {
      var v :| v in done && v in s.mods && s.mods[v].errorback;
      assert v in done + {x};
    }
  }

  /**
   The walk of a flood: done and order are the modules that have taken the error over, the queue holds the
   others that have been seen, each once.
   */
  ghost predicate Walk(s: State, id: Id, seen: set<Id>, queue: seq<Id>, done: set<Id>, order: seq<Id>) {
    && id in s.mods && id in seen && seen <= s.mods.Keys && done <= seen
    && (forall v | v in seen :: Reaches(s.inv, id, v))
    && (forall v | v in seen :: v in done || v in queue)
    && NoDuplicates(queue) && (forall v | v in queue :: v in seen && v !in done)
    && NoDuplicates(order) && (forall v :: v in order <==> v in done)
    && (forall v, w | v in done && Edge(s.inv, v, w) :: w in seen)
  }

  lemma WalkStarts(s: State, id: Id)
    requires id in s.mods
    ensures Walk(s, id, {id}, [id], {}, []) && !NotifiedAmong(s, {})
  {
  }

  lemma WalkTakes(s: State, id: Id, seen: set<Id>, queue: seq<Id>, done: set<Id>, order: seq<Id>)
    requires Walk(s, id, seen, queue, done, order) && queue != []
    ensures queue[0] in seen && queue[0] in s.mods && queue[0] !in done && queue[0] !in order
    ensures NoDuplicates(queue[1..]) && (forall v | v in queue[1..] :: v in seen)
    ensures NotifiedAmong(s, done + {queue[0]}) <==> NotifiedAmong(s, done) || s.mods[queue[0]].errorback
  {
    assert queue[0] in queue;
    NotifiedGrows(s, done, queue[0]);
  }

  lemma WalkGoesOn(s: State, id: Id, seen: set<Id>, queue: seq<Id>, done: set<Id>, order: seq<Id>,
                   seen': set<Id>, queue': seq<Id>)
    requires Walk(s, id, seen, queue, done, order) && queue != []
    requires seen <= seen' <= seen + s.mods.Keys && NoDuplicates(queue')
    requires forall v :: v in seen' <==> v in seen || v in InvList(s.inv, queue[0])
    requires forall v :: v in queue' <==> v in queue[1..] || (v in seen' && v !in seen)
    ensures Walk(s, id, seen', queue', done + {queue[0]}, order + [queue[0]])
  {
    var element, rest := queue[0], queue[1..];
    assert element in queue;
    assert forall v :: v in queue <==> v == element || v in rest;
    NoDuplicatesSnoc(order, element);
    forall v | v in seen' && v !in seen
      ensures Reaches(s.inv, id, v)
    {
      PathThenEdge(s.inv, id, element, v);
    }
  }

  lemma WalkEnds(s: State, id: Id, seen: set<Id>, queue: seq<Id>, done: set<Id>, order: seq<Id>)
    requires Walk(s, id, seen, queue, done, order) && queue == []
    ensures forall v :: v in done <==> v in Flooded(s, id)
    ensures forall v :: v in order <==> v in Flooded(s, id)
  {
    SeenIsFlooded(s, id, done);
  }

  /** The errorback call of one module, and those of modules one after the other. */
  function CallOf(s: State, id: Id, x: Id): seq<Heard> {
    if x in s.mods && s.mods[x].errorback then [Heard(x, LoadError(id))] else []
  }

  function CallsAlong(s: State, id: Id, order: seq<Id>): seq<Heard> {
    if order == [] then [] else CallsAlong(s, id, order[..|order| - 1]) + CallOf(s, id, order[|order| - 1])
  }

  lemma CallsGoOn(s: State, id: Id, h: seq<Heard>, h1: seq<Heard>, h2: seq<Heard>, order: seq<Id>, x: Id)
    requires h1 == h + CallsAlong(s, id, order) && h2 == h1 + CallOf(s, id, x)
    ensures h2 == h + CallsAlong(s, id, order + [x])
  {
    assert (order + [x])[..|order|] == order;
  }

  lemma NothingHeard(s: State, id: Id)
    ensures s.heard + multiset(HeardAmong(s, id, {})) == s.heard
  {
    assert HeardAmong(s, id, {}) == {};
  }

  lemma HeardGrows(s: State, id: Id, done: set<Id>, x: Id)
    requires x !in done
    ensures multiset(HeardAmong(s, id, done + {x}))
         == multiset(HeardAmong(s, id, done)) + multiset(CallOf(s, id, x))
  {
    var h := Heard(x, LoadError(id));
    if x in s.mods && s.mods[x].errorback {
      assert h !in HeardAmong(s, id, done);
      assert HeardAmong(s, id, done + {x}) == HeardAmong(s, id, done) + {h};
    } else {
      assert HeardAmong(s, id, done + {x}) == HeardAmong(s, id, done);
    }
  }

  lemma FloodEffect(s: State, id: Id, seen: set<Id>)
    requires id in s.mods
    requires forall v :: v in seen <==> v in Flooded(s, id)
    ensures var s' := DoFail(s, id);
      && s'.mods.Keys == s.mods.Keys && s'.inv == s.inv && s'.log == s.log
      && s'.heard == s.heard + multiset(HeardAmong(s, id, seen))
      && s'.reported == (if NotifiedAmong(s, seen) then s.reported else s.reported + [LoadError(id)])
      && forall x | x in s.mods :: s'.mods[x] == InFlood(s, id, seen, x)
  {
    if NotifiedAmong(s, seen) {
      var v :| v in seen && v in s.mods && s.mods[v].errorback;
      assert v in Flooded(s, id);
    }
    if SomeoneNotified(s, id) {
      var v :| v in Flooded(s, id) && v in s.mods && s.mods[v].errorback;
      assert v in seen;
    }
  }

  function InFlood(s: State, id: Id, done: set<Id>, x: Id): Mod
    requires x in s.mods
  {
    if x in done then s.mods[x].(complete := true, error := Some(LoadError(id))) else s.mods[x]
  }

  lemma PlaceholderFails(s: State, id: Id)
    ensures DoFail(WithPlaceholder(s, id), id) == DoFail(s, id)
  {
  }

  lemma FailStep(h: seq<State>, id: Id)
    requires IsRun(h)
    ensures var s := h[|h| - 1];
      && InvDefined(WithPlaceholder(s, id))
      && DoFail(WithPlaceholder(s, id), id) == DoFail(s, id)
      && DoFail(s, id).known == s.known
      && IsRun(h + [DoFail(s, id)])
  {
    RunInv(h);
    PlaceholderFails(h[|h| - 1], id);
    ExtendRun(h, Fail(id));
  }

  lemma QuietIsNotReady(s: State)
    requires Quiescent(s)
    ensures NoneReady(s, {})
  {
    forall x
      ensures !ReadyAt(s, x)
    {
      assert !Enabled(s, LoaderMachine.Complete(x));
    }
  }

  /** A manager that was quiet is quiet again. */
  lemma QuietAgain(h: seq<State>, h': seq<State>, also: set<Id>)
    requires IsRun(h) && IsRun(h') && Quiescent(h[|h| - 1])
    requires Quieter(h[|h| - 1], h'[|h'| - 1], also) && NoneReady(h'[|h'| - 1], {})
    ensures Quiescent(h'[|h'| - 1])
  {
    var s, s' := h[|h| - 1], h'[|h'| - 1];
    RunInv(h);
    RunInv(h');
    forall x
      ensures !Enabled(s', Scan(x)) && !Enabled(s', LoaderMachine.Complete(x)) && !Enabled(s', Release(x))
    {
      assert !Enabled(s, Scan(x)) && !Enabled(s, Release(x));
      assert !ReadyAt(s', x);
      if x in s'.mods {
        assert x in s.mods && x !in also ==> SameScan(s, s', x);
        assert x !in s.mods || x in also ==> ScanOver(s', x);
        assert ModOk(s'.mods[x], s'.pend[x]);
        if x in s.mods {
          assert ModOk(s.mods[x], s.pend[x]);
        }
      }
    }
  }

  /** The run h goes on with s' first. */
  ghost predicate BeginsWith(h: seq<State>, h': seq<State>, s': State) {
    |h| < |h'| && h <= h' && h'[|h|] == s'
  }

  /**
   Between the states i and j of a run this definition was made: a module of that id that was there already
   left the run as it was, otherwise the run went on with exactly this definition.
   */
  ghost predicate Made(h: seq<State>, i: int, j: int, id: Id, deps: seq<Dep>, callback: Callback) {
    && 0 < i <= j <= |h|
    && if id in h[i - 1].mods then j == i
       else i < j && h[i] == DoDefine(h[i - 1], id, deps, callback, false)
  }

  ghost predicate MadeAt(h: seq<State>, definitions: seq<Definition>, at: seq<int>, k: int)
    requires 0 <= k < |definitions| && |at| == |definitions| + 1
  {
    Made(h, at[k], at[k + 1], definitions[k].id, definitions[k].deps, definitions[k].callback)
  }

  /** The definitions were made one after the other; at says where in the run each one begins. */
  ghost predicate MadeInTurn(h: seq<State>, from: int, definitions: seq<Definition>, at: seq<int>) {
    && |at| == |definitions| + 1 && at[0] == from
    && forall k {:trigger MadeAt(h, definitions, at, k)} | 0 <= k < |definitions| :: MadeAt(h, definitions, at, k)
  }

  lemma MadeStays(h: seq<State>, h': seq<State>, from: int, definitions: seq<Definition>, at: seq<int>)
    requires MadeInTurn(h, from, definitions, at) && h <= h'
    ensures MadeInTurn(h', from, definitions, at)
  {
    forall k {:trigger MadeAt(h', definitions, at, k)} | 0 <= k < |definitions|
      ensures MadeAt(h', definitions, at, k)
    {
      assert MadeAt(h, definitions, at, k);
    }
  }

  lemma OneMoreMade(h: seq<State>, h': seq<State>, from: int, definitions: seq<Definition>, at: seq<int>, d: Definition)
    requires MadeInTurn(h, from, definitions, at) && h <= h' && at[|definitions|] == |h|
    requires Made(h', |h|, |h'|, d.id, d.deps, d.callback)
    ensures MadeInTurn(h', from, definitions + [d], at + [|h'|])
  {
    var ds, at' := definitions + [d], at + [|h'|];
    forall k {:trigger MadeAt(h', ds, at', k)} | 0 <= k < |ds|
      ensures MadeAt(h', ds, at', k)
    {
      if k < |definitions| {
        assert MadeAt(h, definitions, at, k);
      }
    }
  }

  /** How a script ended: with its failure, or with the nameless definition that was pending, if there was one. */
  ghost predicate Ended(h: seq<State>, h': seq<State>, id: Id, ok: bool, pending: Option<AnonymousCall>)
    requires h != []
  {
    if !ok then h' == h + [DoFail(h[|h| - 1], id)]
    else
      match pending
      case None => h' == h
      case Some(call) => h <= h' && Made(h', |h|, |h'|, id, call.0, call.1)
  }

  /** What the delivery of a script adds to a run: its definitions in turn, and its end. */
  ghost predicate Delivered(h: seq<State>, h': seq<State>, id: Id, script: Script, pending: Option<AnonymousCall>,
                            at: seq<int>) {
    && MadeInTurn(h', |h|, script.definitions, at)
    && var end := at[|script.definitions|];
      0 < end <= |h'| && Ended(h'[..end], h', id, !Fails(script, pending), PendingAfter(script, pending))
  }

  lemma DeliveredThen(h0: seq<State>, h: seq<State>, h': seq<State>, id: Id, script: Script,
                      pending: Option<AnonymousCall>, at: seq<int>)
    requires MadeInTurn(h, |h0|, script.definitions, at) && at[|script.definitions|] == |h| && 0 < |h| && h <= h'
    requires Ended(h, h', id, !Fails(script, pending), PendingAfter(script, pending))
    ensures Delivered(h0, h', id, script, pending, at)
  {
    MadeStays(h, h', |h0|, script.definitions, at);
    assert h'[..|h|] == h;
  }

  lemma KeysKept<K, V>(m: map<K, V>, m': map<K, V>, k: K)
    requires m.Items <= m'.Items && k in m
    ensures k in m'
  {
    assert (k, m[k]) in m.Items;
  }

  class ModuleManager {
    var modules: map<Id, Module>
    var known: set<Id>
    var inverseDependencies: map<Id, seq<Id>>
    /** What the outside sees: factories invoked with their arguments, errors handed to `onError`, errorback calls. */
    var log: seq<Completion>
    var reported: seq<LoaderError>
    var heard: seq<Heard>
    /** Ids whose script is delivered inside the load request; all others answer later. */
    const scripts: map<Id, Script>
    /** The `define` call without a name that the running script has made, if any. */
    var currentAnonymousDefineCall: Option<AnonymousCall>
    ghost var history: seq<State>
    /** The module objects of the table. */
    ghost var Repr: set<Module>

    ghost function Now(): State
      reads `history
      requires |history| > 0
    {
      history[|history| - 1]
    }

    ghost predicate ModuleMatches(s: State, x: Id)
      reads `modules, `Repr, Repr
    {
      x in modules && x in s.mods && modules[x] in Repr && modules[x].id == x && modules[x].Is(s.mods[x])
    }

    ghost predicate Matches(s: State)
      reads `modules, `inverseDependencies, `log, `reported, `heard, `Repr, Repr
    {
      && modules.Keys == s.mods.Keys
      && (forall x {:trigger ModuleMatches(s, x)} | x in modules :: ModuleMatches(s, x))
      && inverseDependencies == s.inv && log == s.log && reported == s.reported && multiset(heard) == s.heard
    }

    /** The fields are the last state of a run of the machine. */
    ghost predicate Valid()
      reads this, Repr
    {
      IsRun(history) && Matches(Now()) && known == Now().known
    }

    constructor (scripts: map<Id, Script>)
      ensures Valid() && Now() == INIT_STATE && this.scripts == scripts
    {
      this.scripts := scripts;
      modules := map[];
      Repr := {};
      known := {};
      inverseDependencies := map[];
      log := [];
      reported := [];
      heard := [];
      currentAnonymousDefineCall := None;
      history := [INIT_STATE];
    }

    /** One round of the search: look at the dependencies of one element, queue the new ones. */
    method EnqueueDependencies(deps: seq<Dep>, toId: Id, seen: set<Id>, waiting: seq<Id>)
      returns (found: bool, inQueue: set<Id>, queue: seq<Id>)
      requires NoDuplicates(waiting) && forall v | v in waiting :: v in seen
      ensures NoDuplicates(queue)
      ensures found <==> toId in DepIds(deps)
      ensures !found ==> forall v :: v in inQueue <==> v in seen || (v in DepIds(deps) && v in modules)
      ensures seen <= inQueue <= seen + modules.Keys
      ensures !found ==> forall v :: v in queue <==> v in waiting || (v in inQueue && v !in seen)
      ensures inQueue == seen ==> queue == waiting
    {
      inQueue, queue := seen, waiting;
      var i := 0;
      while i < |deps|
        invariant 0 <= i <= |deps|
        invariant toId !in DepIds(deps)[..i]
        invariant NoDuplicates(queue)
        invariant forall v :: v in inQueue <==> v in seen || (v in DepIds(deps)[..i] && v in modules)
        invariant forall v :: v in queue <==> v in waiting || (v in inQueue && v !in seen)
        invariant seen <= inQueue <= seen + modules.Keys && (inQueue == seen ==> queue == waiting)
      {
        var dependency := DepId(deps[i]);
        assert DepIds(deps)[i] == dependency && DepIds(deps)[..i + 1] == DepIds(deps)[..i] + [dependency];
        if dependency == toId {
          return true, inQueue, queue;
        }
        if dependency in modules && dependency !in inQueue {
          NoDuplicatesSnoc(queue, dependency);
          inQueue := inQueue + {dependency};
          queue := queue + [dependency];
        }
        i := i + 1;
      }
      assert DepIds(deps)[..i] == DepIds(deps);
      found := false;
    }

    /** Breadth-first search through the dependency lists of modules that have not run. */
    method HasDependencyPath(fromId: Id, toId: Id) returns (found: bool)
      requires Valid()
      ensures found <==> HasPath(SearchGraph(Now()), fromId, toId)
    {
      ghost var g := SearchGraph(Now());
      if fromId !in modules {
        UnseenIsUnreachable(g, {fromId}, fromId, toId);
        return false;
      }
      var inQueue := {fromId};
      var queue := [fromId];
      ghost var done: set<Id> := {};
      while |queue| > 0
        invariant fromId in inQueue
        invariant inQueue <= modules.Keys
        invariant forall v | v in inQueue :: Reaches(g, fromId, v)
        invariant forall v | v in inQueue :: v in done || v in queue
        invariant NoDuplicates(queue) && forall v | v in queue :: v in inQueue && v !in done
        invariant done <= inQueue
        invariant forall v, w | v in done && Edge(g, v, w) :: w != toId && (w in modules ==> w in inQueue)
        decreases modules.Keys - inQueue, |queue|
      {
        var element := queue[0];
        assert element in queue;
        var rest := queue[1..];
        assert forall v :: v in queue <==> v == element || v in rest;
        assert ModuleMatches(Now(), element);
        var deps := modules[element].dependencies.GetOr([]);
        assert g[element] == DepIds(deps);
        var hit, inQueue', queue' := EnqueueDependencies(deps, toId, inQueue, rest);
        if hit {
          PathThenEdge(g, fromId, element, toId);
          return true;
        }
        forall v | v in inQueue' && v !in inQueue
          ensures Reaches(g, fromId, v)
        {
          PathThenEdge(g, fromId, element, v);
        }
        inQueue, queue, done := inQueue', queue', done + {element};
      }
      UnseenIsUnreachable(g, done, fromId, toId);
      return false;
    }

    method DependencyValues(deps: seq<Dep>, ghost s: State) returns (args: seq<Arg>)
      requires Matches(s)
      ensures args == ArgsFor(s, deps)
    {
      args := [];
      var i := 0;
      while i < |deps|
        invariant 0 <= i <= |deps|
        invariant args == ArgsFor(s, deps)[..i]
      {
        var arg := match deps[i]
          case Exports => OwnExports
          case ModuleInfo => OwnInfo
          case Require => LocalRequire
          case Regular(d) => if d in modules then ExportsOf(d) else Missing;
        args := args + [arg];
        i := i + 1;
      }
    }

    /** Run the factory of m and take its list of waiters out of the table. */
    method RunFactory(m: Module, ghost s: State) returns (inverseDeps: seq<Id>)
      requires Matches(s) && m.id in modules && modules[m.id] == m && m.error == None
      requires Enabled(s, LoaderMachine.Complete(m.id))
      modifies this`inverseDependencies, this`log, this`reported, m
      ensures Matches(DoComplete(s, m.id))
      ensures m.isComplete && inverseDeps == InvList(s.inv, m.id)
    {
      assert ModuleMatches(s, m.id);
      var args := DependencyValues(m.dependencies.GetOr([]), s);
      log := log + [Completion(m.id, m.callback.Factory?, args)];
      var threw := m.Complete();
      if threw {
        reported := reported + [FactoryError(m.id)];
      }
      inverseDeps := InvList(inverseDependencies, m.id);
      inverseDependencies := inverseDependencies - {m.id};
      forall x {:trigger CompletedMatches(s, m.id, x)} | x in modules
        ensures CompletedMatches(s, m.id, x)
      {
        assert old(ModuleMatches(s, x));
      }
      CompletedTables(s, m.id);
    }

    /** The fields of a module after m has run. */
    ghost predicate CompletedMatches(s: State, id: Id, x: Id)
      reads `modules, `Repr, Repr
    {
      && x in modules && x in s.mods && modules[x] in Repr && modules[x].id == x
      && modules[x].Is(if x == id then AfterRun(s.mods[x], x) else s.mods[x])
    }

    lemma CompletedTables(s: State, id: Id)
      requires Enabled(s, LoaderMachine.Complete(id)) && modules.Keys == s.mods.Keys
      requires forall x {:trigger CompletedMatches(s, id, x)} | x in modules :: CompletedMatches(s, id, x)
      requires var s' := DoComplete(s, id);
        && inverseDependencies == s'.inv && log == s'.log && reported == s'.reported && multiset(heard) == s'.heard
      ensures Matches(DoComplete(s, id))
    {
      var s' := DoComplete(s, id);
      CompleteKeys(s, id);
      forall x | x in modules
        ensures ModuleMatches(s', x)
      {
        assert CompletedMatches(s, id, x);
        CompleteCore(s, id, x);
      }
    }

    /** The same as a step of the run; its waiters are now owed a release. */
    method CompleteAndDetach(m: Module) returns (inverseDeps: seq<Id>)
      requires Valid() && m.id in modules && modules[m.id] == m
      requires !m.isComplete && m.unresolvedDependenciesCount == 0
      requires NoneReady(Now(), {m.id})
      modifies this`inverseDependencies, this`log, this`reported, this`history, m
      ensures Valid()
      ensures old(history) <= history
      ensures NoneReady(Now(), {}) && SameScans(old(Now()), Now())
      ensures Now().pend == old(Now()).pend + multiset(inverseDeps)
      ensures m.id in old(WaitingSet(Now())) && WaitingSet(Now()) <= old(WaitingSet(Now())) - {m.id}
    {
      ghost var s := Now();
      ghost var a := LoaderMachine.Complete(m.id);
      assert ModuleMatches(s, m.id);
      WaitingHasDeps(history, m.id);
      ExtendRun(history, a);
      CompleteEffects(s, m.id);
      inverseDeps := RunFactory(m, s);
      history := history + [DoComplete(s, m.id)];
    }

    /** One dependency of a waiting module has completed; is it the last one? */
    method ReleaseWaiter(waiter: Id) returns (ready: bool)
      requires Valid() && waiter in Now().pend && NoneReady(Now(), {})
      modifies this`history, Repr
      ensures Valid() && waiter in modules
      ensures old(history) <= history
      ensures NoneReady(Now(), {waiter}) && SameScans(old(Now()), Now())
      ensures Now().pend == old(Now()).pend - multiset{waiter}
      ensures WaitingSet(Now()) <= old(WaitingSet(Now()))
      ensures if ready then modules[waiter].unresolvedDependenciesCount == 0 else NoneReady(Now(), {})
    {
      ghost var s := Now();
      OwedIsDefined(history, waiter);
      ExtendRun(history, Release(waiter));
      ReleaseEffects(s, waiter);
      assert ModuleMatches(s, waiter);
      var inverseDependency := modules[waiter];
      inverseDependency.unresolvedDependenciesCount := inverseDependency.unresolvedDependenciesCount - 1;
      forall x | x in modules
        ensures ModuleMatches(DoRelease(s, waiter), x)
      {
        assert old(ModuleMatches(s, x) && ModuleMatches(s, waiter));
      }
      history := history + [DoRelease(s, waiter)];
      ready := inverseDependency.unresolvedDependenciesCount == 0;
    }

    /** Complete m, then release its waiters one at a time, completing those that become ready. */
    method OnModuleComplete(m: Module)
      requires Valid() && m.id in modules && modules[m.id] == m
      requires m.isComplete || m.unresolvedDependenciesCount == 0
      requires NoneReady(Now(), {m.id})
      modifies this`inverseDependencies, this`log, this`reported, this`history, Repr
      ensures Valid()
      ensures old(history) <= history
      ensures m.isComplete && NoneReady(Now(), {})
      ensures Now().pend == old(Now()).pend && SameScans(old(Now()), Now())
      ensures WaitingSet(Now()) <= old(WaitingSet(Now()))
      decreases WaitingSet(Now()), 0
    {
      assert ModuleMatches(Now(), m.id);
      if m.isComplete {
        return;
      }
      ghost var s := Now();
      var inverseDeps := CompleteAndDetach(m);
      var i := 0;
      assert inverseDeps[0..] == inverseDeps;
      while i < |inverseDeps|
        invariant 0 <= i <= |inverseDeps|
        invariant Valid()
        invariant old(history) <= history
        invariant NoneReady(Now(), {})
        invariant Now().pend == s.pend + multiset(inverseDeps[i..])
        invariant SameScans(s, Now())
        invariant WaitingSet(Now()) <= WaitingSet(s) - {m.id}
      {
        var waiter := inverseDeps[i];
        assert inverseDeps[i..] == [waiter] + inverseDeps[i + 1..];
        assert waiter in Now().pend;
        ghost var s1 := Now();
        ReleaseAndComplete(waiter);
        SameScansChain(s, s1, Now());
        i := i + 1;
      }
      assert m.id !in WaitingSet(Now()) && ModuleMatches(Now(), m.id);
    }

    /** Release one waiter, and complete it if it was the last thing it waited for. */
    method ReleaseAndComplete(waiter: Id)
      requires Valid() && waiter in Now().pend && NoneReady(Now(), {})
      modifies this`inverseDependencies, this`log, this`reported, this`history, Repr
      ensures Valid()
      ensures old(history) <= history
      ensures NoneReady(Now(), {}) && SameScans(old(Now()), Now())
      ensures Now().pend == old(Now()).pend - multiset{waiter}
      ensures WaitingSet(Now()) <= old(WaitingSet(Now()))
      decreases WaitingSet(Now()), 1
    {
      ghost var s := Now();
      var ready := ReleaseWaiter(waiter);
      ghost var s1 := Now();
      assert ModuleMatches(s1, waiter);
      if ready {
        OnModuleComplete(modules[waiter]);
        SameScansChain(s, s1, Now());
      }
    }

    /** The end of `_resolve`. */
    method CompleteIfReady(m: Module)
      requires Valid() && m.id in modules && modules[m.id] == m && NoneReady(Now(), {m.id})
      modifies `inverseDependencies, `log, `reported, `history, Repr
      ensures Valid() && NoneReady(Now(), {})
      ensures old(history) <= history && Quieter(old(Now()), Now(), {})
    {
      ghost var s := Now();
      assert ModuleMatches(s, m.id);
      if m.unresolvedDependenciesCount == 0 {
        OnModuleComplete(m);
        CompletingIsQuiet(s, Now());
      } else {
        assert !ReadyAt(s, m.id);
        QuieterRefl(s);
      }
    }

    // ----- one step of a dependency scan -----

    ghost predicate MidScan(m: Module)
      reads this, Repr, m
    {
      Valid() && m.id in modules && modules[m.id] == m && Enabled(Now(), Scan(m.id)) && NoneReady(Now(), {m.id})
    }

    /** The verdict on the dependency m is looking at. */
    ghost function Verdict(m: Module): Verdict
      reads this, Repr, m
      requires MidScan(m)
    {
      Judge(Now(), m.id, Now().mods[m.id].decl[Now().mods[m.id].scanned])
    }

    /** The current dependency is there, or will never be waited for. */
    method Credit(m: Module)
      requires MidScan(m) && (Verdict(m).There? || Verdict(m).Cycle?)
      modifies m`unresolvedDependenciesCount, `history
      ensures Valid()
      ensures old(history) <= history
      ensures ScannedOne(old(Now()), Now(), m.id) && NoneReady(Now(), {m.id})
    {
      ghost var s := Now();
      ghost var s' := DoScan(s, m.id);
      ExtendRun(history, Scan(m.id));
      CreditEffects(s, m.id);
      assert ModuleMatches(s, m.id);
      m.unresolvedDependenciesCount := m.unresolvedDependenciesCount - 1;
      forall x | x in modules
        ensures ModuleMatches(s', x)
      {
        assert old(ModuleMatches(s, x));
      }
      history := history + [s'];
    }

    /** m fails and its errorback is called; its scan is over. */
    method FailWith(m: Module, err: LoaderError, ghost s: State)
      requires Matches(s) && m.id in modules && modules[m.id] == m && Enabled(s, Scan(m.id))
      modifies m, `heard
      ensures Matches(Abort(s, m.id, err))
      ensures heard == old(heard) + if old(m.errorback) then [Heard(m.id, err)] else []
    {
      assert ModuleMatches(s, m.id);
      var notified := m.OnDependencyError(err);
      if notified {
        heard := heard + [Heard(m.id, err)];
      }
      forall x | x in modules
        ensures ModuleMatches(Abort(s, m.id, err), x)
      {
        assert old(ModuleMatches(s, x));
      }
    }

    /** The current dependency is in error: so is m. */
    method TakeOverError(m: Module, err: LoaderError)
      requires MidScan(m) && Verdict(m) == Broken(err)
      modifies m, `heard, `history
      ensures Valid()
      ensures old(history) <= history
      ensures Quieter(old(Now()), Now(), {m.id}) && NoneReady(Now(), {})
      ensures heard == old(heard) + if old(m.errorback) then [Heard(m.id, err)] else []
    {
      ghost var s := Now();
      AbortStep(history, m.id, err);
      FailWith(m, err, s);
      history := history + [Abort(s, m.id, err)];
    }

    /** Everything of Valid() except that the request for d is still to be noted. */
    ghost predicate ValidButRequest(d: Id)
      reads this, Repr
    {
      IsRun(history) && Matches(Now()) && Now().known == if d in modules then known else known + {d}
    }

    /** m starts to wait for d. */
    method RecordInverse(m: Module, d: Id)
      requires MidScan(m) && Verdict(m) == LoaderMachine.Verdict.WaitFor(d)
      modifies `inverseDependencies, `history
      ensures ValidButRequest(d)
      ensures old(history) <= history
      ensures ScannedOne(old(Now()), Now(), m.id) && NoneReady(Now(), {})
    {
      ghost var s := Now();
      ghost var s' := AddWait(s, m.id, d);
      WaitStep(history, m.id, d);
      inverseDependencies := inverseDependencies[d := InvList(inverseDependencies, d) + [m.id]];
      forall x | x in modules
        ensures ModuleMatches(s', x)
      {
        assert old(ModuleMatches(s, x));
      }
      history := history + [s'];
    }

    // ----- errors -----

    /** In the middle of a flood: the modules in done have taken the error over. */
    ghost predicate FloodMatches(s: State, id: Id, done: set<Id>, x: Id)
      reads `modules, `Repr, Repr
    {
      x in modules && x in s.mods && modules[x] in Repr && modules[x].id == x && modules[x].Is(InFlood(s, id, done, x))
    }

    ghost predicate MidFlood(s: State, id: Id, done: set<Id>)
      reads `modules, `heard, `Repr, Repr
    {
      && modules.Keys == s.mods.Keys
      && (forall x {:trigger FloodMatches(s, id, done, x)} | x in modules :: FloodMatches(s, id, done, x))
      && multiset(heard) == s.heard + multiset(HeardAmong(s, id, done))
    }

    /** Queue the waiters that have not been seen. */
    method EnqueueInverse(inverseDeps: seq<Id>, seen: set<Id>, waiting: seq<Id>)
      returns (seen': set<Id>, queue: seq<Id>)
      requires forall x | x in inverseDeps :: x in modules
      requires NoDuplicates(waiting) && forall v | v in waiting :: v in seen
      ensures NoDuplicates(queue)
      ensures seen <= seen' <= seen + modules.Keys
      ensures forall v :: v in seen' <==> v in seen || v in inverseDeps
      ensures forall v :: v in queue <==> v in waiting || (v in seen' && v !in seen)
      ensures seen' == seen ==> queue == waiting
    {
      seen', queue := seen, waiting;
      var i := 0;
      while i < |inverseDeps|
        invariant 0 <= i <= |inverseDeps|
        invariant seen <= seen' <= seen + modules.Keys && (seen' == seen ==> queue == waiting)
        invariant forall v :: v in seen' <==> v in seen || v in inverseDeps[..i]
        invariant NoDuplicates(queue)
        invariant forall v :: v in queue <==> v in waiting || (v in seen' && v !in seen)
      {
        var inverseDep := inverseDeps[i];
        assert inverseDeps[..i + 1] == inverseDeps[..i] + [inverseDep];
        if inverseDep !in seen' {
          NoDuplicatesSnoc(queue, inverseDep);
          queue := queue + [inverseDep];
          seen' := seen' + {inverseDep};
        }
        i := i + 1;
      }
      assert inverseDeps[..i] == inverseDeps;
    }

    /** One module of the flood takes the error over; its errorback is called. */
    method FloodOne(id: Id, x: Id, ghost s: State, ghost done: set<Id>) returns (notified: bool)
      requires MidFlood(s, id, done) && x in modules && x !in done
      modifies `heard, Repr
      ensures MidFlood(s, id, done + {x})
      ensures notified == s.mods[x].errorback
      ensures heard == old(heard) + CallOf(s, id, x)
    {
      assert FloodMatches(s, id, done, x);
      notified := modules[x].OnDependencyError(LoadError(id));
      if notified {
        heard := heard + [Heard(x, LoadError(id))];
      }
      HeardGrows(s, id, done, x);
      forall y | y in modules
        ensures FloodMatches(s, id, done + {x}, y)
      {
        assert old(FloodMatches(s, id, done, y));
      }
    }

    /** Walk the inverse dependencies of id and hand the error to every module on the way; order is the walk. */
    method VisitWaiters(id: Id, ghost s: State)
      returns (someoneNotified: bool, ghost done: set<Id>, ghost order: seq<Id>)
      requires Matches(s) && id in modules && InvDefined(s)
      modifies `heard, Repr
      ensures MidFlood(s, id, done)
      ensures forall v :: v in done <==> v in Flooded(s, id)
      ensures NoDuplicates(order) && forall v :: v in order <==> v in Flooded(s, id)
      ensures heard == old(heard) + CallsAlong(s, id, order)
      ensures someoneNotified <==> NotifiedAmong(s, done)
    {
      someoneNotified := false;
      var seen, queue := {id}, [id];
      done, order := {}, [];
      FloodStarts(s, id);
      WalkStarts(s, id);
      assert heard == heard + CallsAlong(s, id, []);
      while |queue| > 0
        invariant MidFlood(s, id, done)
        invariant Walk(s, id, seen, queue, done, order)
        invariant heard == old(heard) + CallsAlong(s, id, order)
        invariant someoneNotified <==> NotifiedAmong(s, done)
        decreases s.mods.Keys - done
      {
        WalkTakes(s, id, seen, queue, done, order);
        ghost var element, calls := queue[0], heard;
        var notified, seen', queue' := VisitNext(id, queue, seen, s, done, order);
        someoneNotified := notified || someoneNotified;
        CallsGoOn(s, id, old(heard), calls, heard, order, element);
        seen, queue, done, order := seen', queue', done + {element}, order + [element];
      }
      WalkEnds(s, id, seen, queue, done, order);
    }

    /** One round of the walk: the first of the queue takes the error over, its waiters are queued. */
    method VisitNext(id: Id, queue: seq<Id>, seen: set<Id>, ghost s: State, ghost done: set<Id>, ghost order: seq<Id>)
      returns (notified: bool, seen': set<Id>, queue': seq<Id>)
      requires MidFlood(s, id, done) && Walk(s, id, seen, queue, done, order) && queue != []
      requires inverseDependencies == s.inv && InvDefined(s)
      modifies `heard, Repr
      ensures MidFlood(s, id, done + {queue[0]})
      ensures Walk(s, id, seen', queue', done + {queue[0]}, order + [queue[0]])
      ensures notified <==> s.mods[queue[0]].errorback
      ensures heard == old(heard) + CallOf(s, id, queue[0])
    {
      WalkTakes(s, id, seen, queue, done, order);
      notified := FloodOne(id, queue[0], s, done);
      var inverseDeps := InvList(inverseDependencies, queue[0]);
      seen', queue' := EnqueueInverse(inverseDeps, seen, queue[1..]);
      WalkGoesOn(s, id, seen, queue, done, order, seen', queue');
    }

    lemma FloodStarts(s: State, id: Id)
      requires Matches(s)
      ensures MidFlood(s, id, {})
    {
      NothingHeard(s, id);
      forall x | x in modules
        ensures FloodMatches(s, id, {}, x)
      {
        assert ModuleMatches(s, x);
      }
    }

    /** Once everything that waits has taken the error over, the tables are those after the failure. */
    lemma FloodEnds(s: State, id: Id, done: set<Id>)
      requires MidFlood(s, id, done) && id in s.mods && forall v :: v in done <==> v in Flooded(s, id)
      requires inverseDependencies == s.inv && log == s.log
      requires reported == if NotifiedAmong(s, done) then s.reported else s.reported + [LoadError(id)]
      ensures Matches(DoFail(s, id))
    {
      FloodEffect(s, id, done);
      forall x | x in modules
        ensures ModuleMatches(DoFail(s, id), x)
      {
        assert FloodMatches(s, id, done, x);
      }
    }

    /** Every module that waits for id fails; if none of them minds, the global handler hears of it. */
    method Flood(id: Id, ghost s: State) returns (ghost order: seq<Id>)
      requires Matches(s) && id in modules && InvDefined(s)
      modifies `reported, `heard, Repr
      ensures Matches(DoFail(s, id))
      ensures NoDuplicates(order) && forall v :: v in order <==> v in Flooded(s, id)
      ensures heard == old(heard) + CallsAlong(s, id, order)
    {
      var someoneNotified;
      ghost var done;
      someoneNotified, done, order := VisitWaiters(id, s);
      if !someoneNotified {
        reported := reported + [LoadError(id)];
      }
      FloodEnds(s, id, done);
    }

    /** A new module object enters the table. */
    method Insert(id: Id, deps: seq<Dep>, callback: Callback, errorback: bool, ghost s: State) returns (m: Module)
      requires Matches(s) && id !in modules
      modifies `modules, `Repr
      ensures fresh(m) && m.id == id && modules == old(modules)[id := m] && Repr == old(Repr) + {m}
      ensures old(modules.Items) <= modules.Items
      ensures Matches(DoDefine(s, id, deps, callback, errorback))
    {
      m := new Module(id, deps, callback, errorback);
      InsertKeepsItems(modules, id, m);
      modules := modules[id := m];
      Repr := Repr + {m};
      ghost var s' := DoDefine(s, id, deps, callback, errorback);
      forall x | x in modules
        ensures ModuleMatches(s', x)
      {
        assert x != id ==> old(ModuleMatches(s, x));
      }
    }

    /** An id without a module gets an empty one. */
    method InsertPlaceholder(id: Id, ghost s: State)
      requires Matches(s)
      modifies `modules, `Repr
      ensures Matches(WithPlaceholder(s, id)) && id in modules
      ensures old(modules.Items) <= modules.Items
      ensures old(Repr) <= Repr && fresh(Repr - old(Repr))
    {
      if id !in modules {
        var _ := Insert(id, [], Factory(false), false, s);
      }
    }

    /** The module of id, or an empty one in its place, and every module that waits for it fail. */
    method FailAll(id: Id, ghost s: State)
      requires Matches(s) && InvDefined(WithPlaceholder(s, id))
      modifies `modules, `Repr, `reported, `heard, Repr
      ensures Matches(DoFail(WithPlaceholder(s, id), id)) && id in modules
      ensures old(modules.Items) <= modules.Items
      ensures fresh(Repr - old(Repr))
    {
      InsertPlaceholder(id, s);
      ghost var _ := Flood(id, WithPlaceholder(s, id));
    }

    /** The load of id has failed. */
    method OnLoadError(id: Id)
      requires Valid() && NoneReady(Now(), {})
      modifies `modules, `Repr, `reported, `heard, `history, Repr
      ensures Valid() && id in modules
      ensures history == old(history) + [DoFail(old(Now()), id)]
      ensures old(modules.Items) <= modules.Items
      ensures fresh(Repr - old(Repr))
    {
      ghost var s := Now();
      FailStep(history, id);
      FailAll(id, s);
      history := history + [DoFail(s, id)];
    }

    // ----- defining and loading -----

    ghost predicate AllDefined(definitions: seq<Definition>)
      reads `modules
    {
      forall k | 0 <= k < |definitions| :: definitions[k].id in modules
    }

    lemma StillDefined(defined: map<Id, Module>, definitions: seq<Definition>)
      requires defined.Items <= modules.Items
      requires forall k | 0 <= k < |definitions| :: definitions[k].id in defined
      ensures AllDefined(definitions)
    {
      forall k | 0 <= k < |definitions|
        ensures definitions[k].id in modules
      {
        KeysKept(defined, modules, definitions[k].id);
      }
    }

    /**
     Request the script of id unless it is known. The script may run at once: then its definitions are made
     in turn, and it ends, with the nameless definition that is pending then.
     */
    method LoadModule(id: Id) returns (ghost pending: Option<AnonymousCall>, ghost at: seq<int>)
      requires ValidButRequest(id) && NoneReady(Now(), {})
      modifies `modules, `Repr, `known, `inverseDependencies, `log, `reported, `heard, `history, Repr,
        `currentAnonymousDefineCall
      ensures Valid() && NoneReady(Now(), {})
      ensures old(history) <= history && Quieter(old(Now()), Now(), {})
      ensures old(known) <= known
      ensures old(modules.Items) <= modules.Items
      ensures fresh(Repr - old(Repr))
      ensures id !in old(modules) && id !in old(known) && id in scripts ==>
        Delivered(old(history), history, id, scripts[id], pending, at) && EndNoted(id, !Fails(scripts[id], pending),
                                                                                   PendingAfter(scripts[id], pending))
      decreases scripts.Keys - known, 0
    {
      pending, at := None, [];
      if id in modules || id in known {
        assert known + {id} == known || id in modules;
        return;
      }
      known := known + {id};
      if id in scripts {
        pending, at := RunScript(id, scripts[id]);
      }
    }

    /** A script runs from its first definition to its end. */
    method RunScript(id: Id, script: Script) returns (ghost pending: Option<AnonymousCall>, ghost at: seq<int>)
      requires Valid() && NoneReady(Now(), {})
      modifies `modules, `Repr, `known, `inverseDependencies, `log, `reported, `heard, `history, Repr,
        `currentAnonymousDefineCall
      ensures Valid() && NoneReady(Now(), {})
      ensures old(history) <= history && Quieter(old(Now()), Now(), {})
      ensures old(known) <= known
      ensures old(modules.Items) <= modules.Items
      ensures fresh(Repr - old(Repr))
      ensures Delivered(old(history), history, id, script, pending, at)
      ensures EndNoted(id, !Fails(script, pending), PendingAfter(script, pending))
      decreases scripts.Keys - known, 7
    {
      at := RunDefinitions(script.definitions);
      ghost var s, h := Now(), history;
      pending := currentAnonymousDefineCall;
      var ok := RunAnonymous(script);
      EndScript(id, ok);
      DeliveredThen(old(history), h, history, id, script, pending, at);
      QuieterChain(old(Now()), s, Now());
    }

    /** A script may make a nameless definition; a second one that is pending is refused, which breaks it off. */
    method RunAnonymous(script: Script) returns (ok: bool)
      modifies `currentAnonymousDefineCall
      ensures ok <==> script.ok && (script.anonymous.None? || old(currentAnonymousDefineCall).None?)
      ensures currentAnonymousDefineCall
           == if old(currentAnonymousDefineCall).Some? then old(currentAnonymousDefineCall) else script.anonymous
      ensures ok <==> !Fails(script, old(currentAnonymousDefineCall))
      ensures currentAnonymousDefineCall == PendingAfter(script, old(currentAnonymousDefineCall))
    {
      ok := script.ok;
      if script.anonymous.Some? {
        var accepted := EnqueueDefineAnonymousModule(script.anonymous.value.0, script.anonymous.value.1);
        ok := ok && accepted;
      }
    }

    /**
     The end of a script: it has failed, or it has run. A script that has run gives its name to the nameless
     definition that is pending, its own or one that a failed script has left; a failed one leaves it there.
     */
    method EndScript(id: Id, ok: bool)
      requires Valid() && NoneReady(Now(), {})
      modifies `modules, `Repr, `known, `inverseDependencies, `log, `reported, `heard, `history, Repr,
        `currentAnonymousDefineCall
      ensures Valid() && NoneReady(Now(), {})
      ensures old(history) <= history && Quieter(old(Now()), Now(), {})
      ensures old(known) <= known
      ensures old(modules.Items) <= modules.Items
      ensures fresh(Repr - old(Repr))
      ensures EndNoted(id, ok, old(currentAnonymousDefineCall))
      ensures Ended(old(history), history, id, ok, old(currentAnonymousDefineCall))
      decreases scripts.Keys - known, 6
    {
      ghost var s := Now();
      if !ok {
        OnLoadError(id);
        ErrorNoted(id, s);
        FailEffects(s, id);
      } else if currentAnonymousDefineCall.Some? {
        var defineCall := currentAnonymousDefineCall.value;
        currentAnonymousDefineCall := None;
        DefineModule(id, defineCall.0, defineCall.1, false);
      } else {
        QuieterRefl(s);
      }
    }

    ghost predicate EndNoted(id: Id, ok: bool, pending: Option<AnonymousCall>)
      reads this, Repr
      requires Valid()
    {
      if ok then pending.Some? ==> id in modules
      else
        && id in Now().mods && Now().mods[id].complete && Now().mods[id].error == Some(LoadError(id))
        && currentAnonymousDefineCall == pending
    }

    lemma ErrorNoted(id: Id, s: State)
      requires Valid() && id in modules && Now() == DoFail(s, id)
      ensures id in Now().mods && Now().mods[id].complete && Now().mods[id].error == Some(LoadError(id))
    {
      assert ModuleMatches(Now(), id);
      assert id in WithPlaceholder(s, id).mods;
      assert id in Flooded(WithPlaceholder(s, id), id);
    }

    /** A script makes its `define` calls one after the other. */
    method RunDefinitions(definitions: seq<Definition>) returns (ghost at: seq<int>)
      requires Valid() && NoneReady(Now(), {})
      modifies `modules, `Repr, `known, `inverseDependencies, `log, `reported, `heard, `history, Repr,
        `currentAnonymousDefineCall
      ensures Valid() && NoneReady(Now(), {})
      ensures old(history) <= history && Quieter(old(Now()), Now(), {})
      ensures old(known) <= known
      ensures old(modules.Items) <= modules.Items
      ensures fresh(Repr - old(Repr))
      ensures AllDefined(definitions)
      ensures MadeInTurn(history, |old(history)|, definitions, at) && at[|definitions|] == |history|
      decreases scripts.Keys - known, 6
    {
      var i := 0;
      at := [|history|];
      while i < |definitions|
        invariant 0 <= i <= |definitions|
        invariant MadeInTurn(history, |old(history)|, definitions[..i], at) && at[i] == |history|
        invariant Valid() && NoneReady(Now(), {})
        invariant old(history) <= history && Quieter(old(Now()), Now(), {})
        invariant old(known) <= known
        invariant old(modules.Items) <= modules.Items
        invariant fresh(Repr - old(Repr))
        invariant AllDefined(definitions[..i])
      {
        var d := definitions[i];
        ghost var s, defined, h := Now(), modules, history;
        DefineModule(d.id, d.deps, d.callback, false);
        StillDefined(defined, definitions[..i]);
        OneMoreMade(h, history, |old(history)|, definitions[..i], at, d);
        at := at + [|history|];
        assert definitions[..i + 1] == definitions[..i] + [d];
        QuieterChain(old(Now()), s, Now());
        i := i + 1;
      }
      assert definitions[..i] == definitions;
    }

    /** Look at the dependencies of m one after the other; complete m if none is left to wait for. */
    method Resolve(m: Module)
      requires Valid() && m.id in modules && modules[m.id] == m
      requires Waiting(Now(), m.id) && Now().mods[m.id].scanned == 0 && NoneReady(Now(), {m.id})
      modifies `modules, `Repr, `known, `inverseDependencies, `log, `reported, `heard, `history, Repr,
        `currentAnonymousDefineCall
      ensures Valid() && NoneReady(Now(), {})
      ensures old(history) <= history && Quieter(old(Now()), Now(), {m.id})
      ensures old(known) <= known
      ensures old(modules.Items) <= modules.Items
      ensures fresh(Repr - old(Repr))
      decreases scripts.Keys - known, 4
    {
      ghost var s := Now();
      var stop := ResolveAll(m);
      if !stop {
        ghost var s1 := Now();
        CompleteIfReady(m);
        BetweenThenQuieter(s, s1, Now(), m.id);
        ScanEnds(s, Now(), m.id);
      }
    }

    /** The loop of `_resolve`; it stops at a dependency in error. */
    method ResolveAll(m: Module) returns (stop: bool)
      requires Valid() && m.id in modules && modules[m.id] == m
      requires Waiting(Now(), m.id) && Now().mods[m.id].scanned == 0 && NoneReady(Now(), {m.id})
      modifies `modules, `Repr, `known, `inverseDependencies, `log, `reported, `heard, `history, Repr,
        `currentAnonymousDefineCall
      ensures Valid() && m.id in modules && modules[m.id] == m
      ensures old(history) <= history
      ensures if stop then Quieter(old(Now()), Now(), {m.id}) && NoneReady(Now(), {})
              else Between(old(Now()), Now(), m.id) && NoneReady(Now(), {m.id})
                   && Now().mods[m.id].scanned == |Now().mods[m.id].decl|
      ensures old(known) <= known
      ensures old(modules.Items) <= modules.Items
      ensures fresh(Repr - old(Repr))
      decreases scripts.Keys - known, 3
    {
      ghost var s := Now();
      assert ModuleMatches(s, m.id);
      WaitingHasDeps(history, m.id);
      var deps := m.dependencies.value;
      var i := 0;
      while i < |deps|
        invariant 0 <= i <= |deps|
        invariant Valid() && NoneReady(Now(), {m.id})
        invariant old(history) <= history && Between(s, Now(), m.id)
        invariant m.id in modules && modules[m.id] == m
        invariant Now().mods[m.id].decl == deps && Now().mods[m.id].scanned == i
        invariant old(known) <= known
        invariant old(modules.Items) <= modules.Items
        invariant fresh(Repr - old(Repr))
      {
        ghost var s1 := Now();
        assert (m.id, m) in modules.Items;
        stop := ResolveOne(m, deps[i]);
        if stop {
          BetweenThenStop(s, s1, Now(), m.id);
          return;
        }
        BetweenThenBetween(s, s1, Now(), m.id);
        i := i + 1;
      }
      stop := false;
    }

    /** Does m have to wait for dep, and is dep in error? */
    method ResolveOne(m: Module, dep: Dep) returns (stop: bool)
      requires MidScan(m) && dep == Now().mods[m.id].decl[Now().mods[m.id].scanned]
      modifies `modules, `Repr, `known, `inverseDependencies, `log, `reported, `heard, `history, Repr,
        `currentAnonymousDefineCall
      ensures Valid() && NoneReady(Now(), if stop then {} else {m.id})
      ensures old(history) <= history
      ensures if stop then Quieter(old(Now()), Now(), {m.id})
              else ScannedOne(old(Now()), Now(), m.id)
      ensures old(known) <= known
      ensures old(modules.Items) <= modules.Items
      ensures fresh(Repr - old(Repr))
      decreases scripts.Keys - known, 2
    {
      stop := false;
      assert ModuleMatches(Now(), m.id);
      if !dep.Regular? {
        Credit(m);
        return;
      }
      ghost var s := Now();
      if dep.id in modules && modules[dep.id].isComplete {
        assert ModuleMatches(s, dep.id);
        var error := modules[dep.id].error;
        if error.Some? {
          TakeOverError(m, error.value);
          stop := true;
        } else {
          Credit(m);
        }
        return;
      }
      assert dep.id in modules ==> ModuleMatches(s, dep.id);
      var cycle := HasDependencyPath(dep.id, m.id);
      if cycle {
        Credit(m);
      } else {
        WaitFor(m, dep.id);
      }
    }

    /** m waits for d, and d is requested. */
    method WaitFor(m: Module, d: Id)
      requires MidScan(m) && Verdict(m) == LoaderMachine.Verdict.WaitFor(d)
      modifies `modules, `Repr, `known, `inverseDependencies, `log, `reported, `heard, `history, Repr,
        `currentAnonymousDefineCall
      ensures Valid() && NoneReady(Now(), {})
      ensures old(history) <= history && ScannedOne(old(Now()), Now(), m.id)
      ensures old(known) <= known
      ensures old(modules.Items) <= modules.Items
      ensures fresh(Repr - old(Repr))
      decreases scripts.Keys - known, 1
    {
      ghost var s := Now();
      RecordInverse(m, d);
      ghost var s1 := Now();
      ghost var _, _ := LoadModule(d);
      BetweenThenQuieter(s, s1, Now(), m.id);
    }

    /** A duplicate definition is ignored; any other module is entered and resolved at once. */
    method DefineModule(id: Id, deps: seq<Dep>, callback: Callback, errorback: bool)
      requires Valid() && NoneReady(Now(), {})
      modifies `modules, `Repr, `known, `inverseDependencies, `log, `reported, `heard, `history, Repr,
        `currentAnonymousDefineCall
      ensures Valid() && NoneReady(Now(), {}) && id in modules
      ensures old(history) <= history && Quieter(old(Now()), Now(), {})
      ensures id in old(modules) ==> history == old(history)
      ensures id !in old(modules) ==>
        BeginsWith(old(history), history, DoDefine(old(Now()), id, deps, callback, errorback))
      ensures old(known) <= known
      ensures old(modules.Items) <= modules.Items
      ensures fresh(Repr - old(Repr))
      decreases scripts.Keys - known, 5
    {
      if id in modules {
        return;
      }
      ghost var s := Now();
      var m := Insert(id, deps, callback, errorback, s);
      ExtendRun(history, LoaderMachine.Define(id, deps, callback, errorback));
      DefineEffects(s, id, deps, callback, errorback);
      history := history + [DoDefine(s, id, deps, callback, errorback)];
      Resolve(m);
      assert ScanOver(Now(), id);
      DefineThenQuieter(s, id, deps, callback, errorback, Now());
    }

    // ----- events -----

    method EnqueueDefineAnonymousModule(deps: seq<Dep>, callback: Callback) returns (accepted: bool)
      modifies `currentAnonymousDefineCall
      ensures accepted <==> old(currentAnonymousDefineCall).None?
      ensures currentAnonymousDefineCall == if accepted then Some((deps, callback)) else old(currentAnonymousDefineCall)
    {
      accepted := currentAnonymousDefineCall.None?;
      if accepted {
        currentAnonymousDefineCall := Some((deps, callback));
      }
    }

    /** A module is defined while the manager is quiet; the manager is quiet again afterwards. */
    method Define(id: Id, deps: seq<Dep>, callback: Callback, errorback: bool)
      requires Valid() && Quiescent(Now())
      modifies `modules, `known, `inverseDependencies, `log, `reported, `heard, `history, `Repr, Repr,
        `currentAnonymousDefineCall
      ensures Valid() && Quiescent(Now()) && old(history) <= history
      ensures id in modules && fresh(Repr - old(Repr))
      ensures id in old(modules) ==> history == old(history)
      ensures id !in old(modules) ==>
        BeginsWith(old(history), history, DoDefine(old(Now()), id, deps, callback, errorback))
    {
      ghost var h := history;
      QuietIsNotReady(Now());
      DefineModule(id, deps, callback, errorback);
      QuietAgain(h, history, {});
    }

    /** The script of id has run: the nameless definition that is pending, if there is one, gets that name. */
    method OnLoad(id: Id)
      requires Valid() && Quiescent(Now())
      modifies `modules, `known, `inverseDependencies, `log, `reported, `heard, `history, `Repr, Repr,
        `currentAnonymousDefineCall
      ensures Valid() && Quiescent(Now()) && old(history) <= history
      ensures fresh(Repr - old(Repr))
      ensures match old(currentAnonymousDefineCall)
              case None => currentAnonymousDefineCall == None && history == old(history)
              case Some(call) => id in modules
                                 && (id in old(modules) ==> history == old(history))
                                 && (id !in old(modules) ==>
                                       BeginsWith(old(history), history,
                                                  DoDefine(old(Now()), id, call.0, call.1, false)))
    {
      if currentAnonymousDefineCall.Some? {
        var defineCall := currentAnonymousDefineCall.value;
        currentAnonymousDefineCall := None;
        Define(id, defineCall.0, defineCall.1, false);
      }
    }

    /** The script of id could not be loaded. */
    method OnLoadFailed(id: Id)
      requires Valid() && Quiescent(Now())
      modifies `modules, `reported, `heard, `history, `Repr, Repr
      ensures Valid() && Quiescent(Now())
      ensures history == old(history) + [DoFail(old(Now()), id)]
    {
      ghost var h := history;
      QuietIsNotReady(Now());
      OnLoadError(id);
      FailEffects(h[|h| - 1], id);
      QuietAgain(h, history, {});
    }
  }
}
