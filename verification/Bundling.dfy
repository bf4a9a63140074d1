/** Bundling a module with its dependencies, and keeping the bundle up to date as files change. */
module Bundling {
  import opened Wrappers
  import opened SourceMaps
  import opened PostOrders
  import opened Bundles

  // ----- files and modules -----

  /**
   What parseModule makes of a file; None for a file without a define call. A file that is missing, or that
   parseModule throws on, is not on the disk map.
   */
  datatype Parsed = Parsed(requests: seq<string>, source: Source)

  type Disk = map<Path, Option<Parsed>>

  datatype IModule = IModule(requests: seq<string>, dependencies: seq<Path>, source: Source)

  type Modules = map<Path, Option<IModule>>

  type Resolver = (string, Path) -> Option<Path>

  predicate Special(request: string) {
    request == "require" || request == "exports" || request == "module"
  }

  /** The files a list of requests leads to. */
  function Requested(resolve: Resolver, requests: seq<string>, path: Path): seq<Path> {
    if requests == [] then []
    else if Special(requests[0]) || resolve(requests[0], path).None? then Requested(resolve, requests[1..], path)
    else [resolve(requests[0], path).value] + Requested(resolve, requests[1..], path)
  }

  /** A file is requested if and only if some request leads to it that is not one of the three special ones. */
  lemma {:induction false} RequestedIff(resolve: Resolver, requests: seq<string>, path: Path, d: Path)
    ensures d in Requested(resolve, requests, path) <==>
      exists r :: r in requests && r != "require" && r != "exports" && r != "module" && resolve(r, path) == Some(d)
  {
    if requests != [] {
      RequestedIff(resolve, requests[1..], path, d);
      assert requests == [requests[0]] + requests[1..];
    }
  }

  /** Those of ps that parse. */
  function OnlyParsed(disk: Disk, ps: seq<Path>): seq<Path> {
    if ps == [] then []
    else (if ps[0] in disk && disk[ps[0]].Some? then [ps[0]] else []) + OnlyParsed(disk, ps[1..])
  }

  function RequestedFrom(resolve: Resolver, disk: Disk, path: Path): seq<Path> {
    if path in disk && disk[path].Some? then Requested(resolve, disk[path].value.requests, path) else []
  }

  function DiskModule(resolve: Resolver, disk: Disk, path: Path): Option<IModule> {
    if path in disk && disk[path].Some? then
      var parsed := disk[path].value;
      Some(IModule(parsed.requests, OnlyParsed(disk, Requested(resolve, parsed.requests, path)), parsed.source))
    else None
  }

  /** The modules are those of the disk, and what they request has been loaded too. */
  ghost predicate Loaded(resolve: Resolver, disk: Disk, modules: Modules) {
    && (forall p | p in modules :: p in disk && modules[p] == DiskModule(resolve, disk, p))
    && (forall p, d | p in modules && d in RequestedFrom(resolve, disk, p) :: d in modules)
  }

  /** Everything a file of s requests is in s. */
  ghost predicate RequestClosed(resolve: Resolver, disk: Disk, s: set<Path>) {
    forall p, d | p in s && d in RequestedFrom(resolve, disk, p) :: d in s
  }

  /** Everything that has been loaded is requested, in the end, from the entry. */
  ghost predicate Needed(resolve: Resolver, disk: Disk, loaded: set<Path>, entry: Path) {
    forall s: set<Path> | entry in s && RequestClosed(resolve, disk, s) :: loaded <= s
  }

  function ModuleGraph(modules: Modules): Dependencies {
    map p | p in modules && modules[p].Some? :: modules[p].value.dependencies
  }

  /** The dependency graph of all files on disk. */
  function DiskGraph(resolve: Resolver, disk: Disk): Dependencies {
    map p | p in disk && disk[p].Some? :: OnlyParsed(disk, Requested(resolve, disk[p].value.requests, p))
  }

  lemma {:induction false} OnlyParsedIn(disk: Disk, ps: seq<Path>, d: Path)
    ensures d in OnlyParsed(disk, ps) <==> d in ps && d in disk && disk[d].Some?
  {
    if ps != [] {
      OnlyParsedIn(disk, ps[1..], d);
    }
  }

  lemma {:induction false} OnlyParsedSame(disk: Disk, disk': Disk, ps: seq<Path>)
    requires forall p | p in ps :: (p in disk && disk[p].Some?) <==> (p in disk' && disk'[p].Some?)
    ensures OnlyParsed(disk, ps) == OnlyParsed(disk', ps)
  {
    if ps != [] {
      OnlyParsedSame(disk, disk', ps[1..]);
    }
  }

  /** What the bundle of an entry is made of, by the files alone. */
  function BundledSources(resolve: Resolver, disk: Disk, entry: Path): seq<Source> {
    SourcesOf(disk, Order(DiskGraph(resolve, disk), entry))
  }

  function SourcesOf(disk: Disk, order: seq<Path>): seq<Source> {
    if order == [] then []
    else (if order[0] in disk && disk[order[0]].Some? then [disk[order[0]].value.source] else [])
         + SourcesOf(disk, order[1..])
  }

  function ModuleSources(modules: Modules, order: seq<Path>): seq<Source> {
    if order == [] then []
    else (if order[0] in modules && modules[order[0]].Some? then [modules[order[0]].value.source] else [])
         + ModuleSources(modules, order[1..])
  }

  lemma {:induction false} ModuleSourcesAppend(modules: Modules, a: seq<Path>, b: seq<Path>)
    ensures ModuleSources(modules, a + b) == ModuleSources(modules, a) + ModuleSources(modules, b)
  {
    if a == [] {
      assert a + b == b;
    } else {
      assert (a + b)[1..] == a[1..] + b;
      ModuleSourcesAppend(modules, a[1..], b);
    }
  }

  // ----- the loader sees the same order and the same sources as the disk -----

  lemma {:induction false} VisitAgrees(g: Dependencies, g': Dependencies, s: set<Path>, p: Path, visited: set<Path>)
    requires ClosedUnder(g, s) && p in s
    requires forall x | x in s :: (x in g <==> x in g') && (x in g ==> g[x] == g'[x])
    ensures Visit(g, p, visited) == Visit(g', p, visited)
    decreases g.Keys - visited, 0
  {
    if p !in visited && p in g {
      VisitAllAgrees(g, g', s, g[p], visited + {p});
    }
  }

  lemma {:induction false} VisitAllAgrees(g: Dependencies, g': Dependencies, s: set<Path>, ps: seq<Path>,
                                          visited: set<Path>)
    requires ClosedUnder(g, s) && forall q | q in ps :: q in s
    requires forall x | x in s :: (x in g <==> x in g') && (x in g ==> g[x] == g'[x])
    ensures VisitAll(g, ps, visited) == VisitAll(g', ps, visited)
    decreases g.Keys - visited, |ps|
  {
    if ps != [] {
      VisitAgrees(g, g', s, ps[0], visited);
      VisitAllAgrees(g, g', s, ps[1..], Visit(g, ps[0], visited).0);
    }
  }

  lemma GraphsAgree(resolve: Resolver, disk: Disk, modules: Modules, x: Path)
    requires Loaded(resolve, disk, modules) && x in modules
    ensures x in ModuleGraph(modules) <==> x in DiskGraph(resolve, disk)
    ensures x in ModuleGraph(modules) ==> ModuleGraph(modules)[x] == DiskGraph(resolve, disk)[x]
  {
    assert modules[x] == DiskModule(resolve, disk, x);
  }

  lemma DependencyIsLoaded(resolve: Resolver, disk: Disk, modules: Modules, p: Path, d: Path)
    requires Loaded(resolve, disk, modules) && p in ModuleGraph(modules) && d in ModuleGraph(modules)[p]
    ensures d in ModuleGraph(modules) && d in modules
  {
    assert modules[p] == DiskModule(resolve, disk, p);
    OnlyParsedIn(disk, RequestedFrom(resolve, disk, p), d);
    assert d in RequestedFrom(resolve, disk, p);
    assert modules[d] == DiskModule(resolve, disk, d);
  }

  lemma LoadedIsClosed(resolve: Resolver, disk: Disk, modules: Modules)
    requires Loaded(resolve, disk, modules)
    ensures ClosedUnder(ModuleGraph(modules), modules.Keys) && Whole(ModuleGraph(modules))
  {
    var g := ModuleGraph(modules);
    forall p, d | p in g && d in g[p]
      ensures d in g && d in modules.Keys
    {
      DependencyIsLoaded(resolve, disk, modules, p, d);
    }
  }

  lemma {:induction false} SameSources(resolve: Resolver, disk: Disk, modules: Modules, order: seq<Path>)
    requires Loaded(resolve, disk, modules) && forall x | x in order :: x in modules
    ensures ModuleSources(modules, order) == SourcesOf(disk, order)
  {
    if order != [] {
      assert modules[order[0]] == DiskModule(resolve, disk, order[0]);
      SameSources(resolve, disk, modules, order[1..]);
    }
  }

  /** A loader that has loaded the entry bundles what the files on disk say. */
  lemma LoadedBundlesDisk(resolve: Resolver, disk: Disk, modules: Modules, entry: Path)
    requires Loaded(resolve, disk, modules) && entry in modules
    ensures ModuleSources(modules, Order(ModuleGraph(modules), entry)) == BundledSources(resolve, disk, entry)
  {
    LoadedIsClosed(resolve, disk, modules);
    forall x | x in modules
      ensures x in ModuleGraph(modules) <==> x in DiskGraph(resolve, disk)
      ensures x in ModuleGraph(modules) ==> ModuleGraph(modules)[x] == DiskGraph(resolve, disk)[x]
    {
      GraphsAgree(resolve, disk, modules, x);
    }
    VisitAgrees(ModuleGraph(modules), DiskGraph(resolve, disk), modules.Keys, entry, {});
    VisitStaysIn(ModuleGraph(modules), entry, {}, modules.Keys);
    SameSources(resolve, disk, modules, Order(ModuleGraph(modules), entry));
  }

  /** What the loader's modules are bundled to; None without a define call in the entry. */
  function ModulesBundle(modules: Modules, entry: Path, link: Link): Option<Bundled> {
    if entry in modules && modules[entry].Some? then
      BundleOf(modules[entry].value.source.sourceMap.sourceRoot,
               ModuleSources(modules, Order(ModuleGraph(modules), entry)), link)
    else None
  }

  /** What a fresh loader would bundle, by the files alone. */
  function FreshBundle(resolve: Resolver, disk: Disk, entry: Path, link: Link): Option<Bundled> {
    if entry in disk && disk[entry].Some? then
      BundleOf(disk[entry].value.source.sourceMap.sourceRoot, BundledSources(resolve, disk, entry), link)
    else None
  }

  lemma LoadedBundleIsFresh(resolve: Resolver, disk: Disk, modules: Modules, entry: Path, link: Link)
    requires Loaded(resolve, disk, modules) && entry in modules
    ensures ModulesBundle(modules, entry, link) == FreshBundle(resolve, disk, entry, link)
  {
    assert modules[entry] == DiskModule(resolve, disk, entry);
    LoadedBundlesDisk(resolve, disk, modules, entry);
  }
}
