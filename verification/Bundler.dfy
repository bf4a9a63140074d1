/** The loader, the bundler and the cached bundle. */
module Bundlers {
  import opened Wrappers
  import opened SourceMaps
  import opened SourceMapBuilders
  import opened PostOrders
  import opened Bundles
  import opened Bundling
  import opened Loads
  import opened Updates

  // ----- what a bundle holds -----

  /** The part of the dependency graph that lies among files. */
  function Among(g: Dependencies, files: set<Path>): Dependencies {
    map p | p in g && p in files :: g[p]
  }

  lemma LoadableGraph(resolve: Resolver, disk: Disk, files: set<Path>, rank: Path -> int)
    requires files <= disk.Keys && RequestClosed(resolve, disk, files) && RankedBy(resolve, disk, files, rank)
    ensures var g := DiskGraph(resolve, disk);
      ClosedUnder(g, files) && Whole(Among(g, files)) && DependencyRank(Among(g, files), rank)
  {
    var g := DiskGraph(resolve, disk);
    forall p, d | p in files && p in g && d in g[p]
      ensures d in files && d in g && rank(d) < rank(p)
    {
      OnlyParsedIn(disk, Requested(resolve, disk[p].value.requests, p), d);
      assert d in RequestedFrom(resolve, disk, p);
    }
  }

  /**
   A bundle holds the entry and all it depends on, each module once, and every module comes after all
   of its dependencies.
   */
  lemma BundleIsTopological(resolve: Resolver, disk: Disk, entry: Path)
    requires !Doomed(resolve, disk, entry) && !Tangled(resolve, disk, entry) && entry in DiskGraph(resolve, disk)
    ensures var g := DiskGraph(resolve, disk);
      var order := Order(g, entry);
      && NoDuplicates(order) && entry in order
      && (forall k, d | 0 <= k < |order| && order[k] in g && d in g[order[k]] :: Before(order, d, k))
      && (forall s: set<Path> | entry in s && ClosedUnder(g, s) :: forall x | x in order :: x in s)
  {
    var g := DiskGraph(resolve, disk);
    var files := LoadableIsRanked(resolve, disk, entry);
    var rank :| RankedBy(resolve, disk, files, rank);
    var part := Among(g, files);
    LoadableGraph(resolve, disk, files, rank);
    VisitAgrees(g, part, files, entry, {});
    OrderIsReachable(part, entry);
    OrderIsTopological(part, entry, rank);
    forall s: set<Path> | entry in s && ClosedUnder(g, s)
      ensures forall x | x in Order(g, entry) :: x in s
    {
      VisitStaysIn(g, entry, {}, s);
    }
  }

  // ----- the loader -----

  lemma BegunSnoc(promises: Promises, ps: seq<Path>, p: Path)
    ensures Begun(promises, ps + [p]) == Begun(Begun(promises, ps), [p])
  {
    assert (ps + [p])[..|ps|] == ps && [p][..0] == [];
  }

  lemma {:induction false} RequestedSnoc(resolve: Resolver, requests: seq<string>, r: string, path: Path)
    ensures Requested(resolve, requests + [r], path)
         == Requested(resolve, requests, path) + Requested(resolve, [r], path)
    decreases |requests|
  {
    if requests == [] {
      assert requests + [r] == [r];
    } else {
      assert (requests + [r])[0] == requests[0] && (requests + [r])[1..] == requests[1..] + [r];
      RequestedSnoc(resolve, requests[1..], r, path);
    }
  }

  lemma RequestedOne(resolve: Resolver, r: string, path: Path)
    ensures Requested(resolve, [r], path)
         == if Special(r) || resolve(r, path).None? then [] else [resolve(r, path).value]
  {
    assert [r][1..] == [] && Requested(resolve, [], path) == [];
  }

  lemma {:induction false} KeptSnoc(promises: Promises, ps: seq<Path>, p: Path)
    ensures KeptModules(promises, ps + [p]) == KeptModules(promises, ps) + KeptModules(promises, [p])
    decreases |ps|
  {
    if ps == [] {
      assert ps + [p] == [p];
    } else {
      assert (ps + [p])[0] == ps[0] && (ps + [p])[1..] == ps[1..] + [p];
      KeptSnoc(promises, ps[1..], p);
    }
  }

  lemma KeptOne(promises: Promises, p: Path)
    ensures KeptModules(promises, [p])
         == if p in promises && promises[p].Fulfilled? && promises[p].value.Some? then [p] else []
  {
    assert [p][1..] == [] && KeptModules(promises, []) == [];
  }

  class ModuleLoader {
    const resolve: Resolver
    var promises: Promises

    constructor (resolve: Resolver)
      ensures this.resolve == resolve && promises == map[]
    {
      this.resolve := resolve;
      promises := map[];
    }

    /** The load of a file begins, unless it has begun before. */
    method AddModuleAndDependencies(path: Path)
      modifies this
      ensures promises == Begun(old(promises), [path])
    {
      assert [path][..0] == [] && Begun(promises, []) == promises;
      if path in promises {
        return;
      }
      promises := promises[path := Reading];
    }

    /** The loads of all requests begin, in order. */
    method AddAll(requests: seq<string>, path: Path)
      modifies this
      ensures promises == Begun(old(promises), Requested(resolve, requests, path))
    {
      var i := 0;
      while i < |requests|
        invariant 0 <= i <= |requests|
        invariant promises == Begun(old(promises), Requested(resolve, requests[..i], path))
      {
        var r := requests[i];
        assert requests[..i + 1] == requests[..i] + [r];
        RequestedSnoc(resolve, requests[..i], r, path);
        RequestedOne(resolve, r, path);
        assert Requested(resolve, requests[..i], path) + [] == Requested(resolve, requests[..i], path);
        if !Special(r) {
          var depPath := resolve(r, path);
          if depPath.Some? {
            BegunSnoc(old(promises), Requested(resolve, requests[..i], path), depPath.value);
            AddModuleAndDependencies(depPath.value);
          }
        }
        i := i + 1;
      }
      assert requests[..i] == requests;
    }

    predicate CanRead(p: Path)
      reads this
    {
      Enabled(resolve, promises, Read(p))
    }

    predicate CanSettle(p: Path)
      reads this
    {
      Enabled(resolve, promises, Reject(p)) || Enabled(resolve, promises, Fulfill(p))
    }

    /** A file has been read, or could not be: it is rejected, known to be no module, or waits for its requests. */
    method OnRead(path: Path, disk: Disk)
      requires CanRead(path)
      modifies this
      ensures promises == Next(resolve, disk, old(promises), Read(path))
    {
      if path !in disk {
        promises := promises[path := Rejected];
        return;
      }
      match disk[path]
      case None =>
        promises := promises[path := Fulfilled(None)];
      case Some(parsed) =>
        promises := promises[path := Awaiting(parsed)];
        AddAll(parsed.requests, path);
    }

    /** The modules among the requests, unless one of them has been rejected. */
    method CollectDependencies(requests: seq<string>, path: Path) returns (ok: bool, dependencies: seq<Path>)
      ensures ok <==> !SomeRejected(promises, Requested(resolve, requests, path))
      ensures ok ==> dependencies == KeptModules(promises, Requested(resolve, requests, path))
    {
      dependencies := [];
      var i := 0;
      while i < |requests|
        invariant 0 <= i <= |requests|
        invariant !SomeRejected(promises, Requested(resolve, requests[..i], path))
        invariant dependencies == KeptModules(promises, Requested(resolve, requests[..i], path))
      {
        var r := requests[i];
        ghost var before := Requested(resolve, requests[..i], path);
        assert requests[..i + 1] == requests[..i] + [r];
        RequestedSnoc(resolve, requests[..i], r, path);
        RequestedOne(resolve, r, path);
        assert before + [] == before && dependencies + [] == dependencies;
        if !Special(r) && resolve(r, path).Some? {
          var d := resolve(r, path).value;
          if d in promises && promises[d].Rejected? {
            RejectedAmong(requests, path, i, d);
            return false, [];
          }
          KeptSnoc(promises, before, d);
          KeptOne(promises, d);
          if d in promises && promises[d].Fulfilled? && promises[d].value.Some? {
            dependencies := dependencies + [d];
          }
        }
        i := i + 1;
      }
      assert requests[..i] == requests;
      ok := true;
    }

    lemma RejectedAmong(requests: seq<string>, path: Path, i: int, d: Path)
      requires 0 <= i < |requests| && d in Requested(resolve, requests[..i + 1], path)
      requires d in promises && promises[d].Rejected?
      ensures SomeRejected(promises, Requested(resolve, requests, path))
    {
      RequestedGrows(resolve, requests[..i + 1], requests[i + 1..], path, d);
      assert requests == requests[..i + 1] + requests[i + 1..];
    }

    /** What a file waits for has come: it is rejected with the first that is, or becomes a module. */
    method OnSettled(path: Path, ghost disk: Disk)
      requires CanSettle(path)
      modifies this
      ensures promises == Next(resolve, disk, old(promises),
                               if old(Enabled(resolve, promises, Reject(path))) then Reject(path) else Fulfill(path))
    {
      var parsed := promises[path].parsed;
      var ok, dependencies := CollectDependencies(parsed.requests, path);
      if ok {
        promises := promises[path := Fulfilled(Some(IModule(parsed.requests, dependencies, parsed.source)))];
      } else {
        promises := promises[path := Rejected];
      }
    }

    /** Files are read and promises settle, in any order, until nothing is left to do. */
    method Run(disk: Disk, ghost entry: Path)
      requires Inv(resolve, disk, promises, entry)
      modifies this
      ensures Inv(resolve, disk, promises, entry) && AtRest(resolve, promises)
    {
      while !AtRest(resolve, promises)
        invariant Inv(resolve, disk, promises, entry)
        decreases Work(resolve, disk, promises, entry)
      {
        if {
          case p :| p in promises && CanRead(p) =>
            StepKeepsInv(resolve, disk, promises, entry, Read(p));
            StepWorks(resolve, disk, promises, entry, Read(p));
            OnRead(p, disk);
          case p :| p in promises && CanSettle(p) =>
            ghost var e := if Enabled(resolve, promises, Reject(p)) then Reject(p) else Fulfill(p);
            StepKeepsInv(resolve, disk, promises, entry, e);
            StepWorks(resolve, disk, promises, entry, e);
            OnSettled(p, disk);
        }
      }
    }

    /** Replace the source of a module in place, unless its requests have changed; fails without a change. */
    method UpdateContent(path: Path, content: Option<Parsed>) returns (updated: bool)
      requires path in promises && promises[path].Fulfilled? && promises[path].value.Some?
      modifies this
      ensures updated <==> content.Some? && content.value.requests == old(promises[path].value.value.requests)
      ensures updated <==> Updated(ModulesOf(old(promises)), path, Some(content)).Some?
      ensures promises == if updated then Replaced(old(promises), path, content.value.source) else old(promises)
    {
      var m := promises[path].value.value;
      if content.None? {
        return false;
      }
      if content.value.requests != m.requests {
        return false;
      }
      m := m.(requests := content.value.requests, source := content.value.source);
      promises := promises[path := Fulfilled(Some(m))];
      updated := true;
    }
  }

  lemma {:induction false} RequestedGrows(resolve: Resolver, a: seq<string>, b: seq<string>, path: Path, d: Path)
    requires d in Requested(resolve, a, path)
    ensures d in Requested(resolve, a + b, path)
    decreases |a|
  {
    if a != [] {
      assert (a + b)[0] == a[0] && (a + b)[1..] == a[1..] + b;
      if d in Requested(resolve, a[1..], path) {
        RequestedGrows(resolve, a[1..], b, path, d);
      }
    }
  }

  /** The source of a module is another one. */
  function Replaced(promises: Promises, path: Path, source: Source): Promises
    requires path in promises && promises[path].Fulfilled? && promises[path].value.Some?
  {
    promises[path := Fulfilled(Some(promises[path].value.value.(source := source)))]
  }

  // ----- the bundler -----

  /** What the visit so far has added, and what is still to come. */
  ghost predicate VisitSoFar(g: Dependencies, deps: seq<Path>, from: set<Path>, i: int, visited: set<Path>,
                             added: seq<Path>) {
    && 0 <= i <= |deps| && from <= visited
    && VisitAll(g, deps, from).0 == VisitAll(g, deps[i..], visited).0
    && VisitAll(g, deps, from).1 == added + VisitAll(g, deps[i..], visited).1
  }

  lemma VisitNext(g: Dependencies, deps: seq<Path>, from: set<Path>, i: int, visited: set<Path>, added: seq<Path>)
    requires VisitSoFar(g, deps, from, i, visited, added) && i < |deps|
    ensures var r := Visit(g, deps[i], visited); VisitSoFar(g, deps, from, i + 1, r.0, added + r.1)
  {
    var r := Visit(g, deps[i], visited);
    assert deps[i..][1..] == deps[i + 1..];
    Reassociate(added, r.1, VisitAll(g, deps[i + 1..], r.0).1);
  }

  lemma VisitDone(g: Dependencies, deps: seq<Path>, from: set<Path>, visited: set<Path>, added: seq<Path>)
    requires VisitSoFar(g, deps, from, |deps|, visited, added)
    ensures VisitAll(g, deps, from) == (visited, added)
  {
    assert deps[|deps|..] == [];
    assert added + [] == added;
  }

  /** What the builder b becomes when these modules are added. */
  function Gained(modules: Modules, b: Built, added: seq<Path>): Option<Built> {
    AddedAll(b, ModuleSources(modules, added))
  }

  /** What comes after a, comes after what a has made of the builder. */
  lemma GainedMore(modules: Modules, b: Built, a: seq<Path>, more: seq<Path>)
    ensures Gained(modules, b, a + more)
         == match Gained(modules, b, a)
            case None => None
            case Some(b1) => Gained(modules, b1, more)
  {
    ModuleSourcesAppend(modules, a, more);
    FoldAppend(Added, b, ModuleSources(modules, a), ModuleSources(modules, more));
  }

  /** A part that cannot be read makes the whole unreadable. */
  lemma VisitStops(modules: Modules, b: Built, deps: seq<Path>, from: set<Path>, i: int, visited: set<Path>,
                   added: seq<Path>, b1: Built)
    requires VisitSoFar(ModuleGraph(modules), deps, from, i, visited, added) && i < |deps|
    requires Gained(modules, b, added) == Some(b1)
    requires Gained(modules, b1, Visit(ModuleGraph(modules), deps[i], visited).1).None?
    ensures Gained(modules, b, VisitAll(ModuleGraph(modules), deps, from).1).None?
  {
    var g := ModuleGraph(modules);
    var r := Visit(g, deps[i], visited);
    VisitNext(g, deps, from, i, visited, added);
    GainedMore(modules, b, added, r.1);
    GainedMore(modules, b, added + r.1, VisitAll(g, deps[i + 1..], r.0).1);
  }

  lemma GainedOne(modules: Modules, b: Built, p: Path)
    requires p in ModuleGraph(modules)
    ensures Gained(modules, b, [p]) == Added(b, modules[p].value.source)
  {
    assert [p][1..] == [] && ModuleSources(modules, []) == [];
    assert ModuleSources(modules, [p]) == [modules[p].value.source];
    FoldOne(Added, b, modules[p].value.source);
  }

  /** The dependencies of a module, in order; stop at the first source map that cannot be read. */
  method VisitDependencies(modules: Modules, deps: seq<Path>, from: set<Path>, builder: SourceMapBuilder)
    returns (ok: bool, visited: set<Path>)
    requires builder.Valid() && Whole(ModuleGraph(modules)) && forall d | d in deps :: d in ModuleGraph(modules)
    modifies builder, builder.outputBuffer, builder.outputBuffer.buffer, builder.mappings, builder.mappings.buffer
    ensures builder.Valid()
    ensures builder.outputBuffer.buffer == old(builder.outputBuffer.buffer) || fresh(builder.outputBuffer.buffer)
    ensures builder.mappings.buffer == old(builder.mappings.buffer) || fresh(builder.mappings.buffer)
    ensures ok <==> Gained(modules, old(builder.Now()), VisitAll(ModuleGraph(modules), deps, from).1).Some?
    ensures ok ==>
      var r := VisitAll(ModuleGraph(modules), deps, from);
      visited == r.0 && Some(builder.Now()) == Gained(modules, old(builder.Now()), r.1)
    decreases ModuleGraph(modules).Keys - from, 1
  {
    ghost var g, b := ModuleGraph(modules), builder.Now();
    visited := from;
    ghost var added := [];
    var i := 0;
    assert deps[0..] == deps;
    while i < |deps|
      modifies builder, builder.outputBuffer, builder.outputBuffer.buffer, builder.mappings, builder.mappings.buffer
      invariant builder.Valid()
      invariant builder.outputBuffer.buffer == old(builder.outputBuffer.buffer) || fresh(builder.outputBuffer.buffer)
      invariant builder.mappings.buffer == old(builder.mappings.buffer) || fresh(builder.mappings.buffer)
      invariant VisitSoFar(g, deps, from, i, visited, added)
      invariant Gained(modules, b, added) == Some(builder.Now())
    {
      ghost var r, b1 := Visit(g, deps[i], visited), builder.Now();
      VisitNext(g, deps, from, i, visited, added);
      GainedMore(modules, b, added, r.1);
      var more;
      ok, more := VisitModule(modules, deps[i], visited, builder);
      if !ok {
        VisitStops(modules, b, deps, from, i, visited, added, b1);
        return;
      }
      visited, added := more, added + r.1;
      i := i + 1;
    }
    ok := true;
    VisitDone(g, deps, from, visited, added);
  }

  /** Visit the dependencies of a module, then add its source. */
  method VisitModule(modules: Modules, p: Path, from: set<Path>, builder: SourceMapBuilder)
    returns (ok: bool, visited: set<Path>)
    requires builder.Valid() && Whole(ModuleGraph(modules)) && p in ModuleGraph(modules)
    modifies builder, builder.outputBuffer, builder.outputBuffer.buffer, builder.mappings, builder.mappings.buffer
    ensures builder.Valid()
    ensures builder.outputBuffer.buffer == old(builder.outputBuffer.buffer) || fresh(builder.outputBuffer.buffer)
    ensures builder.mappings.buffer == old(builder.mappings.buffer) || fresh(builder.mappings.buffer)
    ensures ok <==> Gained(modules, old(builder.Now()), Visit(ModuleGraph(modules), p, from).1).Some?
    ensures ok ==>
      var r := Visit(ModuleGraph(modules), p, from);
      visited == r.0 && Some(builder.Now()) == Gained(modules, old(builder.Now()), r.1)
    decreases ModuleGraph(modules).Keys - from, 0
  {
    if p in from {
      return true, from;
    }
    var m := modules[p].value;
    ghost var b, deps := builder.Now(), VisitAll(ModuleGraph(modules), m.dependencies, from + {p});
    GainedMore(modules, b, deps.1, [p]);
    ok, visited := VisitDependencies(modules, m.dependencies, from + {p}, builder);
    if ok {
      GainedOne(modules, builder.Now(), p);
      ok := builder.AddSource(m.source);
    }
  }

  // ----- the bundle -----

  /** The bundle of a module and its dependencies. */
  method BundleWithDependencies(modules: Modules, entry: Path, link: Link) returns (r: Option<Bundled>)
    requires Whole(ModuleGraph(modules)) && entry in ModuleGraph(modules)
    ensures r == ModulesBundle(modules, entry, link)
  {
    var builder := new SourceMapBuilder();
    var ok, visited := VisitModule(modules, entry, {}, builder);
    if !ok {
      return None;
    }
    var sourceMap := builder.ToSourceMap(modules[entry].value.source.sourceMap.sourceRoot);
    builder.AddLine(link(sourceMap));
    var content := builder.ToContent();
    r := Some(Bundled(content, sourceMap));
  }

  // ----- the cached bundle -----

  /** A bundle, an exception, or a promise that nothing will ever settle. */
  datatype Reply = Ready(bundle: Bundled) | Fails | Never

  function BundleReply(bundle: Option<Bundled>): Reply {
    match bundle
    case None => Fails
    case Some(b) => Ready(b)
  }

  /** What the loader's promises come to. */
  function ReplyOf(promises: Promises, entry: Path, link: Link): Reply
    requires entry in promises
  {
    match promises[entry]
    case Fulfilled(_) => BundleReply(ModulesBundle(ModulesOf(promises), entry, link))
    case Rejected => Fails
    case _ => Never
  }

  /** What a fresh loader comes to, by the files alone. */
  ghost function FreshReply(resolve: Resolver, disk: Disk, entry: Path, link: Link): Reply {
    if Doomed(resolve, disk, entry) then Fails
    else if Tangled(resolve, disk, entry) then Never
    else BundleReply(FreshBundle(resolve, disk, entry, link))
  }

  lemma RestIsFresh(resolve: Resolver, disk: Disk, promises: Promises, entry: Path, link: Link)
    requires Inv(resolve, disk, promises, entry) && AtRest(resolve, promises)
    ensures ReplyOf(promises, entry, link) == FreshReply(resolve, disk, entry, link)
    ensures !promises[entry].Reading?
  {
    LoadsEndWell(resolve, disk, promises, entry, entry);
    AtRestAll(resolve, disk, promises, entry, entry);
    FulfilledAreLoaded(resolve, disk, promises, entry);
    if promises[entry].Fulfilled? {
      LoadedBundleIsFresh(resolve, disk, ModulesOf(promises), entry, link);
    }
  }

  /** Modules that follow the disk come to what a fresh loader does. */
  lemma FollowedReply(resolve: Resolver, disk: Disk, promises: Promises, entry: Path, link: Link)
    requires entry in promises && promises[entry].Fulfilled? && Follows(resolve, disk, ModulesOf(promises), entry)
    ensures ReplyOf(promises, entry, link) == FreshReply(resolve, disk, entry, link)
  {
    FollowedIsFresh(resolve, disk, ModulesOf(promises), entry);
    LoadedBundleIsFresh(resolve, disk, ModulesOf(promises), entry, link);
  }

  /** What has just been loaded is in step with the files. */
  lemma LoadedInStep(resolve: Resolver, disk: Disk, promises: Promises, entry: Path)
    requires Inv(resolve, disk, promises, entry)
    ensures Whole(ModuleGraph(ModulesOf(promises)))
    ensures promises[entry].Fulfilled? ==> InStep(resolve, disk, ModulesOf(promises), entry)
  {
    var modules := ModulesOf(promises);
    FulfilledAreLoaded(resolve, disk, promises, entry);
    LoadedIsClosed(resolve, disk, modules);
    forall p | p in modules
      ensures !Silent(disk, modules, p)
    {
      assert modules[p] == DiskModule(resolve, disk, p);
    }
    assert Masked(disk, modules) == disk;
  }

  datatype Update = Done | Throws | Hangs

  /** How an update ends: it waits for the file's own promise, and parses the file if that is a module. */
  function UpdateEnds(promises: Promises, path: Path, content: Content): Update {
    if path !in promises then Done
    else
      match promises[path]
      case Fulfilled(m) => if m.Some? && content.None? then Throws else Done
      case Rejected => Throws
      case _ => Hangs
  }

  /** An update hangs exactly on a load that does, and throws exactly on a failed load or a broken module. */
  lemma UpdateEndsExactly(promises: Promises, path: Path, content: Content)
    ensures UpdateEnds(promises, path, content).Hangs? <==>
      path in promises && (promises[path].Reading? || promises[path].Awaiting?)
    ensures UpdateEnds(promises, path, content).Throws? <==>
      path in promises
      && (promises[path].Rejected? || (path in ModulesOf(promises) && promises[path].value.Some? && content.None?))
  {
  }

  /** The load of the entry has come to the same. */
  predicate KeepsEntry(promises: Promises, promises': Promises, entry: Path) {
    && entry in promises && entry in promises' && (promises[entry].Fulfilled? <==> promises'[entry].Fulfilled?)
    && (!promises[entry].Fulfilled? ==> promises'[entry] == promises[entry])
  }

  /** Promises that hold the modules after an update that asks for no reload. */
  ghost predicate AfterUpdate(promises: Promises, promises': Promises, path: Path, content: Content) {
    && Updated(ModulesOf(promises), path, content) == Some(ModulesOf(promises'))
    && promises'.Keys == promises.Keys
    && (forall p | p in promises && p != path :: promises'[p] == promises[p])
    && (path in promises ==>
          promises'[path] == promises[path] || (promises[path].Fulfilled? && promises'[path].Fulfilled?))
  }

  lemma ReplacedUpdates(promises: Promises, path: Path, content: Content)
    requires path in promises && promises[path].Fulfilled? && promises[path].value.Some?
    requires content.Some? && content.value.Some? && Updated(ModulesOf(promises), path, content).Some?
    ensures AfterUpdate(promises, Replaced(promises, path, content.value.value.source), path, content)
  {
    var modules' := ModulesOf(Replaced(promises, path, content.value.value.source));
    assert modules' == Updated(ModulesOf(promises), path, content).value;
  }

  lemma UpdateInStep(resolve: Resolver, disk: Disk, promises: Promises, promises': Promises, path: Path,
                     content: Content, entry: Path)
    requires AfterUpdate(promises, promises', path, content) && entry in promises
    ensures KeepsEntry(promises, promises', entry)
    ensures Whole(ModuleGraph(ModulesOf(promises))) ==> Whole(ModuleGraph(ModulesOf(promises')))
    ensures promises[entry].Fulfilled? && InStep(resolve, disk, ModulesOf(promises), entry) ==>
      var disk', modules' := Written(disk, path, content), ModulesOf(promises');
      && InStep(resolve, disk', modules', entry)
      && (FreshSources(resolve, disk', entry) == Some(LoadedSources(modules', entry))
          <==> Hidden(disk', modules') == {})
      && Hidden(disk', modules') == HiddenThen(Hidden(disk, ModulesOf(promises)), ModulesOf(promises), path, content)
  {
    SameGraph(ModulesOf(promises), path, content);
    if promises[entry].Fulfilled? && InStep(resolve, disk, ModulesOf(promises), entry) {
      UpdateStaysInStep(resolve, disk, ModulesOf(promises), path, content, entry);
      HiddenAfter(disk, ModulesOf(promises), path, content);
      StaleIff(resolve, Written(disk, path, content), ModulesOf(promises'), entry);
    }
  }

  /** The main file has been loaded while the file it requests was missing. */
  const MISSING: Disk := map[MAIN_PATH := Some(MAIN_FILE)]
  const FAILED_LOAD: Promises := map[MAIN_PATH := Rejected, DEP_PATH := Rejected]

  lemma ExampleDoom()
    ensures RequestedFrom(ExampleResolver(), MISSING, MAIN_PATH) == [DEP_PATH]
    ensures RequestedFrom(ExampleResolver(), MISSING, DEP_PATH) == []
    ensures Doomed(ExampleResolver(), MISSING, MAIN_PATH) && Doomed(ExampleResolver(), MISSING, DEP_PATH)
  {
    ExampleRequests();
    ReachesSelf(ExampleResolver(), MISSING, DEP_PATH);
    DoomSpreads(ExampleResolver(), MISSING, MAIN_PATH, DEP_PATH);
  }

  lemma ExampleIsNeeded()
    ensures Needed(ExampleResolver(), MISSING, {MAIN_PATH, DEP_PATH}, MAIN_PATH)
  {
    ExampleDoom();
    forall s: set<Path> | MAIN_PATH in s && RequestClosed(ExampleResolver(), MISSING, s)
      ensures DEP_PATH in s
    {
      assert DEP_PATH in RequestedFrom(ExampleResolver(), MISSING, MAIN_PATH);
    }
  }

  lemma ExampleFails()
    ensures Inv(ExampleResolver(), MISSING, FAILED_LOAD, MAIN_PATH) && AtRest(ExampleResolver(), FAILED_LOAD)
  {
    ExampleDoom();
    ExampleIsNeeded();
    assert FAILED_LOAD.Keys == {MAIN_PATH, DEP_PATH} && FulfilledSet(FAILED_LOAD) == {};
    assert PromiseOk(ExampleResolver(), MISSING, FAILED_LOAD, MAIN_PATH);
    assert PromiseOk(ExampleResolver(), MISSING, FAILED_LOAD, DEP_PATH);
    assert RankedBy(ExampleResolver(), MISSING, {}, p => 0);
  }

  lemma ExampleIsReady(link: Link)
    ensures FreshReply(ExampleResolver(), EXAMPLE_DISK[DEP_PATH := Some(DEP_FILE)], MAIN_PATH, link).Ready?
  {
    var disk' := EXAMPLE_DISK[DEP_PATH := Some(DEP_FILE)];
    assert Written(EXAMPLE_DISK, DEP_PATH, Some(Some(DEP_FILE))) == disk';
    StaleBundle(link);
    ExampleRanks(disk');
    ReadableAndRanked(ExampleResolver(), disk', disk'.Keys, MAIN_PATH);
  }

  /** When the missing file is there, the update throws, and the next bundle fails although a fresh load would not. */
  lemma MissingFileStaysMissing(link: Link)
    ensures Inv(ExampleResolver(), MISSING, FAILED_LOAD, MAIN_PATH) && AtRest(ExampleResolver(), FAILED_LOAD)
    ensures UpdateEnds(FAILED_LOAD, DEP_PATH, Some(Some(DEP_FILE))) == Throws
    ensures ReplyOf(FAILED_LOAD, MAIN_PATH, link) == Fails
    ensures FreshReply(ExampleResolver(), Written(MISSING, DEP_PATH, Some(Some(DEP_FILE))), MAIN_PATH, link).Ready?
  {
    assert Written(MISSING, DEP_PATH, Some(Some(DEP_FILE))) == EXAMPLE_DISK[DEP_PATH := Some(DEP_FILE)];
    ExampleFails();
    ExampleIsReady(link);
  }

  class CachedBundle {
    const entry: Path
    const resolve: Resolver
    const link: Link
    var loader: ModuleLoader?
    var bundlePromise: Option<Reply>

    /** A cached bundle is the bundle of the loaded modules. */
    ghost predicate Valid()
      reads this, loader
    {
      && (loader != null ==>
            loader.resolve == resolve && entry in loader.promises && Whole(ModuleGraph(ModulesOf(loader.promises))))
      && (bundlePromise.Some? ==>
            loader != null && bundlePromise.value == ReplyOf(loader.promises, entry, link))
    }

    /** The entry has been loaded. */
    predicate HasModules()
      reads this, loader
    {
      loader != null && entry in loader.promises && loader.promises[entry].Fulfilled?
    }

    function Modules(): Modules
      requires HasModules()
      reads this, loader
    {
      ModulesOf(loader.promises)
    }

    /** The loaded modules are those of the files on disk, as far as the loader has noticed. */
    ghost predicate OnDisk(disk: Disk)
      reads this, loader
    {
      HasModules() ==> InStep(resolve, disk, Modules(), entry)
    }

    /** The next bundle will be made of the sources that a fresh loader would bundle. */
    ghost predicate NextIsFresh(disk: Disk)
      requires HasModules()
      reads this, loader
    {
      FreshSources(resolve, disk, entry) == Some(LoadedSources(Modules(), entry))
    }

    constructor (entry: Path, resolve: Resolver, link: Link)
      ensures this.entry == entry && this.resolve == resolve && this.link == link
      ensures Valid() && loader == null
    {
      this.entry := entry;
      this.resolve := resolve;
      this.link := link;
      loader := null;
      bundlePromise := None;
    }

    /** Load the entry and everything it requests. */
    method Load(disk: Disk)
      modifies this`loader
      ensures fresh(loader) && loader.resolve == resolve
      ensures Inv(resolve, disk, loader.promises, entry) && AtRest(resolve, loader.promises)
    {
      loader := new ModuleLoader(resolve);
      loader.AddModuleAndDependencies(entry);
      BeginsOk(resolve, disk, entry);
      loader.Run(disk, entry);
    }

    /**
     What the loaded files come to. With nothing loaded, that is what the files on disk come to: a bundle,
     an exception, or nothing ever. With files loaded, it is that, too, if they are those on disk.
     */
    method Bundle(disk: Disk) returns (r: Reply)
      requires Valid()
      modifies this
      ensures Valid() && loader != null && bundlePromise == Some(r)
      ensures if old(loader) != null then loader == old(loader) else fresh(loader)
      ensures old(loader) == null ==> r == FreshReply(resolve, disk, entry, link)
      ensures old(OnDisk(disk)) ==> OnDisk(disk)
      ensures old(OnDisk(disk) && HasModules() && NextIsFresh(disk)) ==> r == FreshReply(resolve, disk, entry, link)
    {
      if bundlePromise.None? {
        if loader == null {
          Load(disk);
          LoadedInStep(resolve, disk, loader.promises, entry);
          RestIsFresh(resolve, disk, loader.promises, entry, link);
        }
        var bundled := BundleLoaded();
        bundlePromise := Some(bundled);
      }
      r := bundlePromise.value;
      if HasModules() && InStep(resolve, disk, Modules(), entry) && NextIsFresh(disk) {
        StaleIff(resolve, disk, Modules(), entry);
        NothingHidden(resolve, disk, Modules(), entry);
        FollowedReply(resolve, disk, loader.promises, entry, link);
      }
    }

    /** The bundle of what has been loaded, if it can be made. */
    method BundleLoaded() returns (r: Reply)
      requires Valid() && loader != null
      ensures r == ReplyOf(loader.promises, entry, link)
    {
      match loader.promises[entry]
      case Fulfilled(m) =>
        if m.None? {
          return Fails;
        }
        var bundled := BundleWithDependencies(ModulesOf(loader.promises), entry, link);
        r := BundleReply(bundled);
      case Rejected =>
        r := Fails;
      case _ =>
        r := Never;
    }

    /** Which loaded files have changed without the loader noticing. */
    ghost function Missed(disk: Disk): set<Path>
      requires HasModules()
      reads this, loader
    {
      Hidden(disk, Modules())
    }

    /**
     A file has been changed. The update waits for the promise of the file; it may wait for ever, or throw,
     and then nothing has changed. However many updates there have been, the next bundle is made of the
     sources on disk if and only if no file has got a define call, or has been broken, without being noticed.
     */
    method SetModuleContent(path: Path, content: Content, ghost disk: Disk) returns (update: Update)
      requires Valid() && OnDisk(disk)
      modifies this, loader
      ensures Valid() && OnDisk(Written(disk, path, content)) && (loader == null || loader == old(loader))
      ensures update == if old(loader) == null then Done else UpdateEnds(old(Promises()), path, content)
      ensures if update.Done? then bundlePromise.None? else unchanged(this) && unchanged(old(loader))
      ensures old(loader) != null ==>
        (loader == null <==> update.Done? && Updated(ModulesOf(old(Promises())), path, content).None?)
      ensures loader != null ==> KeepsEntry(old(Promises()), loader.promises, entry)
      ensures HasModules() ==>
        var disk' := Written(disk, path, content);
        && old(HasModules()) && (NextIsFresh(disk') <==> Missed(disk') == {})
        && Missed(disk') == HiddenThen(old(Missed(disk)), old(Modules()), path, content)
    {
      if loader == null {
        return Done;
      }
      ghost var promises := loader.promises;
      update := ApplyUpdate(path, content);
      if update.Done? {
        bundlePromise := None;
      }
      if loader != null {
        UpdateInStep(resolve, disk, promises, loader.promises, path, content, entry);
      }
    }

    /** Update a loaded module in place, or drop the loader. */
    method ApplyUpdate(path: Path, content: Content) returns (update: Update)
      requires loader != null
      modifies this`loader, loader
      ensures loader == null || loader == old(loader)
      ensures update == UpdateEnds(old(loader.promises), path, content)
      ensures !update.Done? ==> loader == old(loader) && unchanged(loader)
      ensures loader == null <==> update.Done? && Updated(ModulesOf(old(loader.promises)), path, content).None?
      ensures loader != null ==> AfterUpdate(old(loader.promises), loader.promises, path, content)
    {
      ghost var promises := loader.promises;
      if path in loader.promises {
        match loader.promises[path]
        case Fulfilled(m) =>
          if m.Some? {
            if content.None? {
              return Throws;
            }
            var updated := loader.UpdateContent(path, content.value);
            if !updated {
              loader := null;
            } else {
              ReplacedUpdates(promises, path, content);
            }
          }
        case Rejected =>
          return Throws;
        case _ =>
          return Hangs;
      }
      update := Done;
    }

    ghost function Promises(): Promises
      reads this, loader
    {
      if loader == null then map[] else loader.promises
    }
  }
}
