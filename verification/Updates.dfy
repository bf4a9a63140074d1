/** Keeping the loaded modules up to date as files change. */
module Updates {
  import opened Wrappers
  import opened SourceMaps
  import opened PostOrders
  import opened Bundles
  import opened Bundling
  import opened Loads

  /** What a file has been changed to; None if it cannot be parsed any more. */
  type Content = Option<Option<Parsed>>

  function Written(disk: Disk, path: Path, content: Content): Disk {
    if content.None? then disk - {path} else disk[path := content.value]
  }

  /** The modules after an update; None if the files have to be loaded again. */
  function Updated(modules: Modules, path: Path, content: Content): Option<Modules> {
    if path !in modules || modules[path].None? || content.None? then Some(modules)
    else if content.value.None? || content.value.value.requests != modules[path].value.requests then None
    else Some(modules[path := Some(modules[path].value.(source := content.value.value.source))])
  }

  lemma SameGraph(modules: Modules, path: Path, content: Content)
    requires Updated(modules, path, content).Some?
    ensures ModuleGraph(Updated(modules, path, content).value) == ModuleGraph(modules)
  {
  }

  // ----- the files as the loader knows them -----

  /** The disk says something else of p than the loader has noticed: it has got a define call, or is broken. */
  predicate Silent(disk: Disk, modules: Modules, p: Path) {
    p in modules && (p !in disk || (modules[p].None? && disk[p].Some?))
  }

  function Hidden(disk: Disk, modules: Modules): set<Path> {
    set p | p in modules && Silent(disk, modules, p)
  }

  function Held(m: Option<IModule>): Option<Parsed> {
    match m
    case None => None
    case Some(m) => Some(Parsed(m.requests, m.source))
  }

  /** The disk without what the loader has not noticed. */
  function Masked(disk: Disk, modules: Modules): Disk {
    map p | p in disk.Keys + modules.Keys :: if Silent(disk, modules, p) then Held(modules[p]) else disk[p]
  }

  /** The modules are all that the entry requests in the end, as far as the loader has noticed. */
  ghost predicate Follows(resolve: Resolver, disk: Disk, modules: Modules, entry: Path) {
    && entry in modules && Loaded(resolve, disk, modules)
    && Needed(resolve, disk, modules.Keys, entry) && Ranked(resolve, disk, modules.Keys)
  }

  ghost predicate InStep(resolve: Resolver, disk: Disk, modules: Modules, entry: Path) {
    Follows(resolve, Masked(disk, modules), modules, entry)
  }

  /** The files of the modules differ in their sources at most. */
  ghost predicate SameShape(disk: Disk, disk': Disk, modules: Modules) {
    forall p | p in modules ::
      && p in disk && p in disk' && (disk[p].Some? <==> disk'[p].Some?)
      && (disk[p].Some? ==> disk[p].value.requests == disk'[p].value.requests)
  }

  lemma ShapeDecides(resolve: Resolver, disk: Disk, disk': Disk, modules: Modules, p: Path)
    requires Loaded(resolve, disk, modules) && SameShape(disk, disk', modules) && p in modules
    ensures RequestedFrom(resolve, disk', p) == RequestedFrom(resolve, disk, p)
    ensures modules[p].None? <==> disk'[p].None?
    ensures modules[p].Some? ==>
      DiskModule(resolve, disk', p) == Some(modules[p].value.(source := disk'[p].value.source))
  {
    if disk[p].Some? {
      OnlyParsedSame(disk, disk', Requested(resolve, disk[p].value.requests, p));
    }
  }

  lemma NeededStays(resolve: Resolver, disk: Disk, disk': Disk, modules: Modules, entry: Path)
    requires Follows(resolve, disk, modules, entry) && SameShape(disk, disk', modules)
    ensures Needed(resolve, disk', modules.Keys, entry) && Ranked(resolve, disk', modules.Keys)
  {
    forall p | p in modules
      ensures RequestedFrom(resolve, disk', p) == RequestedFrom(resolve, disk, p)
    {
      ShapeDecides(resolve, disk, disk', modules, p);
    }
    forall s: set<Path> | entry in s && RequestClosed(resolve, disk', s)
      ensures modules.Keys <= s
    {
      assert RequestClosed(resolve, disk, s * modules.Keys);
    }
    var rank :| RankedBy(resolve, disk, modules.Keys, rank);
    assert RankedBy(resolve, disk', modules.Keys, rank);
  }

  /** Modules with the sources of another disk of the same shape follow that disk. */
  lemma FollowsShape(resolve: Resolver, disk: Disk, disk': Disk, modules: Modules, modules': Modules, entry: Path)
    requires Follows(resolve, disk, modules, entry) && SameShape(disk, disk', modules)
    requires modules'.Keys == modules.Keys
    requires forall p | p in modules ::
      if modules[p].None? then modules'[p].None?
      else disk'[p].Some? ==> modules'[p] == Some(modules[p].value.(source := disk'[p].value.source))
    ensures Follows(resolve, disk', modules', entry)
  {
    NeededStays(resolve, disk, disk', modules, entry);
    forall p | p in modules'
      ensures p in disk' && modules'[p] == DiskModule(resolve, disk', p)
      ensures RequestedFrom(resolve, disk', p) == RequestedFrom(resolve, disk, p)
    {
      ShapeDecides(resolve, disk, disk', modules, p);
    }
  }

  /** The loader stays in step with what it has noticed across every update that asks for no reload. */
  lemma UpdateStaysInStep(resolve: Resolver, disk: Disk, modules: Modules, path: Path, content: Content, entry: Path)
    requires InStep(resolve, disk, modules, entry) && Updated(modules, path, content).Some?
    ensures InStep(resolve, Written(disk, path, content), Updated(modules, path, content).value, entry)
  {
    var modules' := Updated(modules, path, content).value;
    var known, known' := Masked(disk, modules), Masked(Written(disk, path, content), modules');
    forall p | p in modules
      ensures p in known && p in known' && Held(modules[p]) == known[p] && Held(modules'[p]) == known'[p]
      ensures modules[p].None? <==> modules'[p].None?
    {
      HeldIsMasked(resolve, disk, modules, p);
    }
    FollowsShape(resolve, known, known', modules, modules', entry);
  }

  /** What is held of a loaded file is what the masked disk says. */
  lemma HeldIsMasked(resolve: Resolver, disk: Disk, modules: Modules, p: Path)
    requires Loaded(resolve, Masked(disk, modules), modules) && p in modules
    ensures p in Masked(disk, modules) && Masked(disk, modules)[p] == Held(modules[p])
  {
    assert modules[p] == DiskModule(resolve, Masked(disk, modules), p);
  }

  /** Which files go unnoticed after an update: the file that has changed, if it is one, and those from before. */
  function HiddenThen(hidden: set<Path>, modules: Modules, path: Path, content: Content): set<Path> {
    if path in modules && (content.None? || (modules[path].None? && content.value.Some?)) then hidden + {path}
    else hidden - {path}
  }

  lemma HiddenAfter(disk: Disk, modules: Modules, path: Path, content: Content)
    requires Updated(modules, path, content).Some?
    ensures Hidden(Written(disk, path, content), Updated(modules, path, content).value)
         == HiddenThen(Hidden(disk, modules), modules, path, content)
  {
  }

  // ----- updates that are not noticed -----

  function SourceOf(m: Option<IModule>): Option<Source> {
    match m
    case None => None
    case Some(m) => Some(m.source)
  }

  /** The sources of modules are theirs, one each, in their order. */
  lemma {:induction false} OneModuleEach(modules: Modules, order: seq<Path>)
    requires forall x | x in order :: x in ModuleGraph(modules)
    ensures |ModuleSources(modules, order)| == |order|
    ensures forall k | 0 <= k < |order| ::
      order[k] in modules && Some(ModuleSources(modules, order)[k]) == SourceOf(modules[order[k]])
  {
    if order != [] {
      assert order[0] in ModuleGraph(modules);
      OneModuleEach(modules, order[1..]);
    }
  }

  /** The sources of files are theirs, one each, in their order. */
  lemma {:induction false} OneSourceEach(disk: Disk, order: seq<Path>)
    requires forall x | x in order :: x in disk && disk[x].Some?
    ensures |SourcesOf(disk, order)| == |order|
    ensures forall k {:trigger order[k]} | 0 <= k < |order| ::
      order[k] in disk && disk[order[k]].Some? && SourcesOf(disk, order)[k] == disk[order[k]].value.source
  {
    if order != [] {
      assert order[0] in disk && disk[order[0]].Some?;
      OneSourceEach(disk, order[1..]);
    }
  }

  lemma DiskIsWhole(resolve: Resolver, disk: Disk)
    ensures Whole(DiskGraph(resolve, disk))
  {
    forall p, d | p in DiskGraph(resolve, disk) && d in DiskGraph(resolve, disk)[p]
      ensures d in DiskGraph(resolve, disk)
    {
      OnlyParsedIn(disk, Requested(resolve, disk[p].value.requests, p), d);
    }
  }

  lemma NothingHidden(resolve: Resolver, disk: Disk, modules: Modules, entry: Path)
    requires InStep(resolve, disk, modules, entry) && Hidden(disk, modules) == {}
    ensures Follows(resolve, disk, modules, entry)
  {
    var known := Masked(disk, modules);
    forall p | p in modules
      ensures p in disk && known[p] == disk[p]
    {
      assert p !in Hidden(disk, modules);
    }
    forall p | p in modules
      ensures modules[p].Some? ==> modules[p] == Some(modules[p].value.(source := disk[p].value.source))
    {
      HeldIsMasked(resolve, disk, modules, p);
    }
    FollowsShape(resolve, known, disk, modules, modules, entry);
  }

  /** What the loader bundles, and what a fresh one would, which may fail or never end. */
  function LoadedSources(modules: Modules, entry: Path): seq<Source> {
    ModuleSources(modules, Order(ModuleGraph(modules), entry))
  }

  ghost function FreshSources(resolve: Resolver, disk: Disk, entry: Path): Option<seq<Source>> {
    if Doomed(resolve, disk, entry) || Tangled(resolve, disk, entry) then None
    else Some(BundledSources(resolve, disk, entry))
  }

  lemma FollowedIsFresh(resolve: Resolver, disk: Disk, modules: Modules, entry: Path)
    requires Follows(resolve, disk, modules, entry)
    ensures FreshSources(resolve, disk, entry) == Some(LoadedSources(modules, entry))
  {
    assert RequestClosed(resolve, disk, modules.Keys) && modules.Keys <= disk.Keys;
    ReadableAndRanked(resolve, disk, modules.Keys, entry);
    LoadedBundlesDisk(resolve, disk, modules, entry);
  }

  /** A file the loader does not know to be broken makes a fresh load fail. */
  lemma BrokenIsDoom(resolve: Resolver, disk: Disk, modules: Modules, entry: Path, p: Path)
    requires InStep(resolve, disk, modules, entry) && p in modules && p !in disk
    ensures Doomed(resolve, disk, entry)
  {
    if !Doomed(resolve, disk, entry) {
      var known := Masked(disk, modules);
      var reached := set x | x in modules && Reaches(resolve, disk, entry, x);
      ReachesSelf(resolve, disk, entry);
      forall x, d | x in reached && d in RequestedFrom(resolve, known, x)
        ensures d in reached
      {
        HeldIsMasked(resolve, disk, modules, x);
        assert x in disk && known[x] == disk[x];
        ReachesLast(resolve, disk, entry, x, d);
      }
      assert RequestClosed(resolve, known, reached);
    }
  }

  /** With all files readable, the dependencies of the modules can only have become more. */
  lemma DependenciesGrow(resolve: Resolver, disk: Disk, modules: Modules, p: Path)
    requires Loaded(resolve, Masked(disk, modules), modules) && modules.Keys <= disk.Keys && p in ModuleGraph(modules)
    ensures var g' := DiskGraph(resolve, disk);
      && p in g' && !Silent(disk, modules, p)
      && (forall d | d in ModuleGraph(modules)[p] :: d in g'[p])
      && (forall d | d in RequestedFrom(resolve, Masked(disk, modules), p) && d in g' :: d in g'[p])
  {
    var known := Masked(disk, modules);
    HeldIsMasked(resolve, disk, modules, p);
    assert modules[p] == DiskModule(resolve, known, p) && known[p] == disk[p];
    var requested := Requested(resolve, disk[p].value.requests, p);
    forall d
      ensures d in OnlyParsed(known, requested) <==> d in requested && d in known && known[d].Some?
      ensures d in OnlyParsed(disk, requested) <==> d in requested && d in disk && disk[d].Some?
    {
      OnlyParsedIn(known, requested, d);
      OnlyParsedIn(disk, requested, d);
    }
    forall d | d in requested && known[d].Some?
      ensures disk[d].Some?
    {
      assert d in RequestedFrom(resolve, known, p);
    }
  }

  /** The entry has a define call, unless it is the file that has just got one. */
  lemma EntryIsDefined(resolve: Resolver, disk: Disk, modules: Modules, entry: Path, path: Path)
    requires InStep(resolve, disk, modules, entry) && modules.Keys <= disk.Keys
    requires path in Hidden(disk, modules)
    ensures entry == path || entry in ModuleGraph(modules)
    ensures entry in DiskGraph(resolve, disk)
  {
    HeldIsMasked(resolve, disk, modules, entry);
    if entry !in ModuleGraph(modules) {
      assert RequestClosed(resolve, Masked(disk, modules), {entry});
    } else {
      DependenciesGrow(resolve, disk, modules, entry);
    }
  }

  /** p is loaded and, if it has a define call by now, in the order. */
  ghost predicate InOrder(g': Dependencies, modules: Modules, order: seq<Path>, p: Path) {
    p in modules && (p in g' ==> p in order)
  }

  lemma RequestedInOrder(resolve: Resolver, disk: Disk, modules: Modules, order: seq<Path>, p: Path, d: Path)
    requires Loaded(resolve, Masked(disk, modules), modules) && modules.Keys <= disk.Keys
    requires var g' := DiskGraph(resolve, disk);
      InOrder(g', modules, order, p) && forall x, y | x in order && x in g' && y in g'[x] :: y in order
    requires d in RequestedFrom(resolve, Masked(disk, modules), p)
    ensures InOrder(DiskGraph(resolve, disk), modules, order, d)
  {
    HeldIsMasked(resolve, disk, modules, p);
    DependenciesGrow(resolve, disk, modules, p);
  }

  /** A file that has got a define call belongs into the bundle. */
  lemma UnnoticedIsNeeded(resolve: Resolver, disk: Disk, modules: Modules, entry: Path, path: Path)
    requires InStep(resolve, disk, modules, entry) && modules.Keys <= disk.Keys
    requires path in Hidden(disk, modules)
    ensures path in Order(DiskGraph(resolve, disk), entry)
  {
    var g' := DiskGraph(resolve, disk);
    var order := Order(g', entry);
    EntryIsDefined(resolve, disk, modules, entry, path);
    DiskIsWhole(resolve, disk);
    OrderIsReachable(g', entry);
    var s := set x | x in modules && InOrder(g', modules, order, x);
    forall p, d | p in s && d in RequestedFrom(resolve, Masked(disk, modules), p)
      ensures d in s
    {
      RequestedInOrder(resolve, disk, modules, order, p, d);
    }
    assert RequestClosed(resolve, Masked(disk, modules), s);
    assert path in s;
  }

  /** So the loader bundles fewer modules than there should be. */
  lemma UnnoticedIsStale(resolve: Resolver, disk: Disk, modules: Modules, entry: Path, path: Path)
    requires InStep(resolve, disk, modules, entry) && modules.Keys <= disk.Keys
    requires path in Hidden(disk, modules)
    ensures |LoadedSources(modules, entry)| < |BundledSources(resolve, disk, entry)|
  {
    var g, g' := ModuleGraph(modules), DiskGraph(resolve, disk);
    EntryIsDefined(resolve, disk, modules, entry, path);
    UnnoticedIsNeeded(resolve, disk, modules, entry, path);
    DiskIsWhole(resolve, disk);
    LoadedIsClosed(resolve, Masked(disk, modules), modules);
    OrderIsReachable(g', entry);
    var order, order' := Order(g, entry), Order(g', entry);
    if entry in g {
      OrderIsReachable(g, entry);
      forall p, d | p in Elements(order') && p in g && d in g[p]
        ensures d in Elements(order')
      {
        DependenciesGrow(resolve, disk, modules, p);
      }
      assert ClosedUnder(g, Elements(order'));
    }
    FewerPaths(order, order', path);
    OneModuleEach(modules, order);
    OneSourceEach(disk, order');
  }

  /**
   After any updates without a reload, the loader bundles the sources that a fresh loader would bundle, if
   and only if there is no file whose change it has not noticed.
   */
  lemma StaleIff(resolve: Resolver, disk: Disk, modules: Modules, entry: Path)
    requires InStep(resolve, disk, modules, entry)
    ensures FreshSources(resolve, disk, entry) == Some(LoadedSources(modules, entry)) <==> Hidden(disk, modules) == {}
  {
    if Hidden(disk, modules) == {} {
      NothingHidden(resolve, disk, modules, entry);
      FollowedIsFresh(resolve, disk, modules, entry);
    } else if modules.Keys <= disk.Keys {
      var path := PickFrom(Hidden(disk, modules));
      UnnoticedIsStale(resolve, disk, modules, entry, path);
    } else {
      var p :| p in modules && p !in disk;
      BrokenIsDoom(resolve, disk, modules, entry, p);
    }
  }

  // ----- such an update -----

  const MAIN_PATH := Path("main")
  const DEP_PATH := Path("dep")
  const MAIN_FILE := Parsed(["dep"], Source([109, NEWLINE], EMPTY_SOURCE_MAP, 1))
  const DEP_FILE := Parsed([], Source([100, NEWLINE], EMPTY_SOURCE_MAP, 1))

  /** The main file requests another one, which has no define call. */
  const EXAMPLE_DISK: Disk := map[MAIN_PATH := Some(MAIN_FILE), DEP_PATH := None]
  const EXAMPLE_MODULES: Modules := map[MAIN_PATH := Some(IModule(["dep"], [], MAIN_FILE.source)), DEP_PATH := None]

  function ExampleResolver(): Resolver {
    (request: string, path: Path) => if request == "dep" then Some(DEP_PATH) else None
  }

  lemma ExampleRequests()
    ensures Requested(ExampleResolver(), ["dep"], MAIN_PATH) == [DEP_PATH]
    ensures Requested(ExampleResolver(), [], DEP_PATH) == []
  {
    assert ["dep"][1..] == [] && !Special("dep");
    assert Requested(ExampleResolver(), [], MAIN_PATH) == [];
  }

  lemma ParsedOnly(disk: Disk, p: Path)
    ensures OnlyParsed(disk, [p]) == if p in disk && disk[p].Some? then [p] else []
  {
    assert [p][1..] == [] && OnlyParsed(disk, []) == [];
  }

  lemma ExampleIsLoaded()
    ensures Follows(ExampleResolver(), EXAMPLE_DISK, EXAMPLE_MODULES, MAIN_PATH)
  {
    ExampleRequests();
    ParsedOnly(EXAMPLE_DISK, DEP_PATH);
    assert RequestedFrom(ExampleResolver(), EXAMPLE_DISK, MAIN_PATH) == [DEP_PATH];
    assert DEP_PATH in RequestedFrom(ExampleResolver(), EXAMPLE_DISK, MAIN_PATH);
    assert EXAMPLE_MODULES.Keys == {MAIN_PATH, DEP_PATH};
    ExampleRanks(EXAMPLE_DISK);
    assert EXAMPLE_DISK.Keys == EXAMPLE_MODULES.Keys;
  }

  /** The main file ranks above the one it requests. */
  lemma ExampleRanks(disk: Disk)
    requires disk.Keys == EXAMPLE_DISK.Keys && disk[MAIN_PATH] == Some(MAIN_FILE)
    requires disk[DEP_PATH] == None || disk[DEP_PATH] == Some(DEP_FILE)
    ensures Ranked(ExampleResolver(), disk, disk.Keys) && RequestClosed(ExampleResolver(), disk, disk.Keys)
  {
    ExampleRequests();
    var rank := (p: Path) => if p == MAIN_PATH then 1 else 0;
    assert RankedBy(ExampleResolver(), disk, disk.Keys, rank);
  }

  lemma LeafOrder(g: Dependencies, p: Path, visited: set<Path>)
    requires p in g && g[p] == [] && p !in visited
    ensures Visit(g, p, visited) == (visited + {p}, [p])
  {
    assert VisitAll(g, [], visited + {p}) == (visited + {p}, []);
    assert [] + [p] == [p];
  }

  lemma ChainOrder(g: Dependencies, p: Path, d: Path)
    requires p in g && d in g && p != d && g[p] == [d] && g[d] == []
    ensures Order(g, p) == [d, p]
  {
    var none: set<Path> := {};
    LeafOrder(g, d, {p});
    assert none + {p} == {p} && [d][1..] == [] && [d] + [] == [d];
    assert VisitAll(g, [], {p} + {d}) == ({p} + {d}, []);
    assert VisitAll(g, [d], {p}) == ({p} + {d}, [d]);
    assert [d] + [p] == [d, p];
  }

  lemma ExampleSources()
    ensures ModuleSources(EXAMPLE_MODULES, Order(ModuleGraph(EXAMPLE_MODULES), MAIN_PATH)) == [MAIN_FILE.source]
    ensures FreshSources(ExampleResolver(), EXAMPLE_DISK[DEP_PATH := Some(DEP_FILE)], MAIN_PATH)
         == Some([DEP_FILE.source, MAIN_FILE.source])
  {
    var disk' := EXAMPLE_DISK[DEP_PATH := Some(DEP_FILE)];
    LeafOrder(ModuleGraph(EXAMPLE_MODULES), MAIN_PATH, {});
    assert [MAIN_PATH][1..] == [] && ModuleSources(EXAMPLE_MODULES, []) == [];
    ExampleRequests();
    ParsedOnly(disk', DEP_PATH);
    ChainOrder(DiskGraph(ExampleResolver(), disk'), MAIN_PATH, DEP_PATH);
    assert [DEP_PATH, MAIN_PATH][1..] == [MAIN_PATH] && SourcesOf(disk', []) == [];
    assert SourcesOf(disk', [MAIN_PATH]) == [MAIN_FILE.source];
    assert BundledSources(ExampleResolver(), disk', MAIN_PATH) == [DEP_FILE.source, MAIN_FILE.source];
    assert disk'.Keys == EXAMPLE_DISK.Keys && disk'.Keys <= disk'.Keys;
    ExampleRanks(disk');
    ReadableAndRanked(ExampleResolver(), disk', disk'.Keys, MAIN_PATH);
  }

  /** The text of a bundle whose maps are all empty. */
  lemma PlainText(sources: seq<Source>, link: Link)
    requires forall s | s in sources :: s.sourceMap == EMPTY_SOURCE_MAP
    ensures var r := BundleOf(None, sources, link);
      r.Some? && r.value.content == AllContent(sources) + link(r.value.sourceMap) + [NEWLINE]
  {
    BundleMeans(None, sources, link);
    assert forall s | s in sources :: CleanMappings(s);
  }

  lemma ExampleTexts()
    ensures AllContent([MAIN_FILE.source]) == [109, NEWLINE]
    ensures AllContent([DEP_FILE.source, MAIN_FILE.source]) == [100, NEWLINE, 109, NEWLINE]
  {
    var main, dep := MAIN_FILE.source, DEP_FILE.source;
    assert [main][1..] == [] && [dep, main][1..] == [main] && AllContent([]) == [];
  }

  /** When that file gets a define call, the next bundle still has the text of the main file only. */
  lemma StaleBundle(link: Link)
    ensures Follows(ExampleResolver(), EXAMPLE_DISK, EXAMPLE_MODULES, MAIN_PATH)
    ensures Updated(EXAMPLE_MODULES, DEP_PATH, Some(Some(DEP_FILE))) == Some(EXAMPLE_MODULES)
    ensures var r := ModulesBundle(EXAMPLE_MODULES, MAIN_PATH, link);
      r.Some? && r.value.content == [109, NEWLINE] + link(r.value.sourceMap) + [NEWLINE]
    ensures var disk' := Written(EXAMPLE_DISK, DEP_PATH, Some(Some(DEP_FILE)));
      var r := FreshBundle(ExampleResolver(), disk', MAIN_PATH, link);
      r.Some? && r.value.content == [100, NEWLINE, 109, NEWLINE] + link(r.value.sourceMap) + [NEWLINE]
  {
    ExampleIsLoaded();
    ExampleSources();
    ExampleTexts();
    PlainText([MAIN_FILE.source], link);
    PlainText([DEP_FILE.source, MAIN_FILE.source], link);
  }
}
