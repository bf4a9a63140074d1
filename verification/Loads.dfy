/**
 Loading files as promises. A file is read, then waits for everything it requests, and files settle in
 whatever order they can. A file that is missing, or that cannot be parsed, is not on the disk map.
 */
module Loads {
  import opened Wrappers
  import opened PostOrders
  import opened Bundling

  datatype Promised = Reading | Awaiting(parsed: Parsed) | Rejected | Fulfilled(value: Option<IModule>)

  type Promises = map<Path, Promised>

  // ----- requests, followed from file to file -----

  /** Each file of the chain is requested by the one before it. */
  ghost predicate IsChain(resolve: Resolver, disk: Disk, w: seq<Path>) {
    |w| > 0 && forall i, j | 0 <= i < j == i + 1 < |w| :: w[j] in RequestedFrom(resolve, disk, w[i])
  }

  ghost predicate Reaches(resolve: Resolver, disk: Disk, p: Path, q: Path) {
    exists w :: IsChain(resolve, disk, w) && w[0] == p && w[|w| - 1] == q
  }

  /** p requests, in the end, a file that cannot be read. */
  ghost predicate Doomed(resolve: Resolver, disk: Disk, p: Path) {
    exists q :: Reaches(resolve, disk, p, q) && q !in disk
  }

  /** q requests itself, in the end. */
  ghost predicate Circular(resolve: Resolver, disk: Disk, q: Path) {
    exists w :: IsChain(resolve, disk, w) && |w| >= 2 && w[0] == q && w[|w| - 1] == q
  }

  /** p requests, in the end, a file that requests itself. */
  ghost predicate Tangled(resolve: Resolver, disk: Disk, p: Path) {
    exists q :: Reaches(resolve, disk, p, q) && Circular(resolve, disk, q)
  }

  lemma ReachesSelf(resolve: Resolver, disk: Disk, p: Path)
    ensures Reaches(resolve, disk, p, p)
  {
    assert IsChain(resolve, disk, [p]);
  }

  lemma ReachesFirst(resolve: Resolver, disk: Disk, p: Path, d: Path, q: Path)
    requires d in RequestedFrom(resolve, disk, p) && Reaches(resolve, disk, d, q)
    ensures Reaches(resolve, disk, p, q)
  {
    var w :| IsChain(resolve, disk, w) && w[0] == d && w[|w| - 1] == q;
    assert IsChain(resolve, disk, [p] + w);
    assert ([p] + w)[0] == p && ([p] + w)[|[p] + w| - 1] == q;
  }

  lemma ReachesLast(resolve: Resolver, disk: Disk, p: Path, q: Path, d: Path)
    requires Reaches(resolve, disk, p, q) && d in RequestedFrom(resolve, disk, q)
    ensures Reaches(resolve, disk, p, d)
  {
    var w :| IsChain(resolve, disk, w) && w[0] == p && w[|w| - 1] == q;
    LongerChain(resolve, disk, w, d);
    assert (w + [d])[0] == p && (w + [d])[|w + [d]| - 1] == d;
  }

  lemma DoomSpreads(resolve: Resolver, disk: Disk, p: Path, d: Path)
    requires d in RequestedFrom(resolve, disk, p) && Doomed(resolve, disk, d)
    ensures Doomed(resolve, disk, p)
  {
    var q :| Reaches(resolve, disk, d, q) && q !in disk;
    ReachesFirst(resolve, disk, p, d, q);
  }

  lemma {:induction false} ChainStaysIn(resolve: Resolver, disk: Disk, s: set<Path>, w: seq<Path>, i: int)
    requires RequestClosed(resolve, disk, s) && IsChain(resolve, disk, w) && w[0] in s && 0 <= i < |w|
    ensures w[i] in s
    decreases i
  {
    if i > 0 {
      ChainStaysIn(resolve, disk, s, w, i - 1);
    }
  }

  lemma ReachedIsIn(resolve: Resolver, disk: Disk, s: set<Path>, p: Path, q: Path)
    requires RequestClosed(resolve, disk, s) && p in s && Reaches(resolve, disk, p, q)
    ensures q in s
  {
    var w :| IsChain(resolve, disk, w) && w[0] == p && w[|w| - 1] == q;
    ChainStaysIn(resolve, disk, s, w, |w| - 1);
  }

  /** The files of s rank above what they request. */
  ghost predicate RankedBy(resolve: Resolver, disk: Disk, s: set<Path>, rank: Path -> int) {
    forall p, d | p in s && d in RequestedFrom(resolve, disk, p) :: rank(d) < rank(p)
  }

  ghost predicate Ranked(resolve: Resolver, disk: Disk, s: set<Path>) {
    exists rank :: RankedBy(resolve, disk, s, rank)
  }

  lemma {:induction false} RankDrops(resolve: Resolver, disk: Disk, s: set<Path>, rank: Path -> int, w: seq<Path>,
                                     i: int)
    requires RequestClosed(resolve, disk, s) && RankedBy(resolve, disk, s, rank)
    requires IsChain(resolve, disk, w) && w[0] in s && 0 < i < |w|
    ensures rank(w[i]) < rank(w[0])
    decreases i
  {
    ChainStaysIn(resolve, disk, s, w, i - 1);
    if i > 1 {
      RankDrops(resolve, disk, s, rank, w, i - 1);
    }
  }

  /** Nothing in a closed set of readable, ranked files is doomed or tangled. */
  lemma ReadableAndRanked(resolve: Resolver, disk: Disk, s: set<Path>, p: Path)
    requires RequestClosed(resolve, disk, s) && p in s
    ensures s <= disk.Keys ==> !Doomed(resolve, disk, p)
    ensures Ranked(resolve, disk, s) ==> !Tangled(resolve, disk, p)
  {
    forall q | Reaches(resolve, disk, p, q)
      ensures q in s && (Ranked(resolve, disk, s) ==> !Circular(resolve, disk, q))
    {
      ReachedIsIn(resolve, disk, s, p, q);
      if Ranked(resolve, disk, s) && Circular(resolve, disk, q) {
        var rank :| RankedBy(resolve, disk, s, rank);
        var w :| IsChain(resolve, disk, w) && |w| >= 2 && w[0] == q && w[|w| - 1] == q;
        RankDrops(resolve, disk, s, rank, w, |w| - 1);
      }
    }
  }

  // ----- a chain that never leaves a finite set has a cycle -----

  ghost predicate RequestsIn(resolve: Resolver, disk: Disk, s: set<Path>, p: Path) {
    exists d :: d in RequestedFrom(resolve, disk, p) && d in s
  }

  ghost predicate GoesOn(resolve: Resolver, disk: Disk, s: set<Path>) {
    forall p {:trigger RequestsIn(resolve, disk, s, p)} | p in s :: RequestsIn(resolve, disk, s, p)
  }

  lemma PartOfChain(resolve: Resolver, disk: Disk, w: seq<Path>, i: int)
    requires IsChain(resolve, disk, w) && 0 <= i < |w|
    ensures IsChain(resolve, disk, w[i..]) && IsChain(resolve, disk, w[..i + 1])
  {
  }

  lemma LongerChain(resolve: Resolver, disk: Disk, w: seq<Path>, d: Path)
    requires IsChain(resolve, disk, w) && d in RequestedFrom(resolve, disk, w[|w| - 1])
    ensures IsChain(resolve, disk, w + [d])
  {
  }

  /** A chain that comes back to d has d on a cycle. */
  lemma ComesBack(resolve: Resolver, disk: Disk, w: seq<Path>, d: Path)
    requires IsChain(resolve, disk, w) && d in w && d in RequestedFrom(resolve, disk, w[|w| - 1])
    ensures Tangled(resolve, disk, w[0])
  {
    var i :| 0 <= i < |w| && w[i] == d;
    LongerChain(resolve, disk, w, d);
    PartOfChain(resolve, disk, w + [d], i);
    PartOfChain(resolve, disk, w, i);
    var round, there := (w + [d])[i..], w[..i + 1];
    assert round[0] == d && round[|round| - 1] == d && |round| >= 2;
    assert there[0] == w[0] && there[|there| - 1] == d;
    assert Reaches(resolve, disk, w[0], d) && Circular(resolve, disk, d);
  }

  lemma DistinctInSet(w: seq<Path>, s: set<Path>)
    requires NoDuplicates(w) && forall p | p in w :: p in s
    ensures |w| <= |s|
  {
    ElementCount(w);
    SubsetCount(Elements(w), s);
  }

  lemma {:induction false} GoesInCircles(resolve: Resolver, disk: Disk, s: set<Path>, w: seq<Path>)
    requires GoesOn(resolve, disk, s) && IsChain(resolve, disk, w) && NoDuplicates(w) && forall p | p in w :: p in s
    ensures Tangled(resolve, disk, w[0])
    decreases |s| - |w|
  {
    var last := w[|w| - 1];
    assert RequestsIn(resolve, disk, s, last);
    var d :| d in RequestedFrom(resolve, disk, last) && d in s;
    if d in w {
      ComesBack(resolve, disk, w, d);
    } else {
      LongerChain(resolve, disk, w, d);
      NoDuplicatesSnoc(w, d);
      DistinctInSet(w + [d], s);
      GoesInCircles(resolve, disk, s, w + [d]);
    }
  }

  lemma WaitersAreTangled(resolve: Resolver, disk: Disk, s: set<Path>, p: Path)
    requires GoesOn(resolve, disk, s) && p in s
    ensures Tangled(resolve, disk, p)
  {
    GoesInCircles(resolve, disk, s, [p]);
  }

  // ----- the promises and what happens to them -----

  /** The loads of ps begin, unless they have begun before. */
  function Begun(promises: Promises, ps: seq<Path>): Promises {
    if ps == [] then promises
    else
      var before := Begun(promises, ps[..|ps| - 1]);
      var p := ps[|ps| - 1];
      if p in before then before else before[p := Reading]
  }

  /** The modules among what has been requested, in order. */
  function KeptModules(promises: Promises, ps: seq<Path>): seq<Path> {
    if ps == [] then []
    else
      (if ps[0] in promises && promises[ps[0]].Fulfilled? && promises[ps[0]].value.Some? then [ps[0]] else [])
        + KeptModules(promises, ps[1..])
  }

  datatype Event = Read(p: Path) | Reject(p: Path) | Fulfill(p: Path)

  predicate AllFulfilled(promises: Promises, ps: seq<Path>) {
    forall d | d in ps :: d in promises && promises[d].Fulfilled?
  }

  predicate SomeRejected(promises: Promises, ps: seq<Path>) {
    exists d :: d in ps && d in promises && promises[d].Rejected?
  }

  predicate Enabled(resolve: Resolver, promises: Promises, e: Event) {
    && e.p in promises
    && match e
       case Read(p) => promises[p].Reading?
       case Reject(p) =>
         promises[p].Awaiting? && SomeRejected(promises, Requested(resolve, promises[p].parsed.requests, p))
       case Fulfill(p) =>
         promises[p].Awaiting? && AllFulfilled(promises, Requested(resolve, promises[p].parsed.requests, p))
  }

  function AfterRead(resolve: Resolver, disk: Disk, promises: Promises, p: Path): Promises {
    if p !in disk then promises[p := Rejected]
    else
      match disk[p]
      case None => promises[p := Fulfilled(None)]
      case Some(parsed) =>
        Begun(promises[p := Awaiting(parsed)], Requested(resolve, parsed.requests, p))
  }

  function ModuleFor(resolve: Resolver, promises: Promises, parsed: Parsed, p: Path): IModule {
    IModule(parsed.requests, KeptModules(promises, Requested(resolve, parsed.requests, p)), parsed.source)
  }

  function Next(resolve: Resolver, disk: Disk, promises: Promises, e: Event): Promises
    requires Enabled(resolve, promises, e)
  {
    match e
    case Read(p) => AfterRead(resolve, disk, promises, p)
    case Reject(p) => promises[p := Rejected]
    case Fulfill(p) => promises[p := Fulfilled(Some(ModuleFor(resolve, promises, promises[p].parsed, p)))]
  }

  predicate AtRest(resolve: Resolver, promises: Promises) {
    forall p {:trigger p in promises} | p in promises ::
      && !Enabled(resolve, promises, Read(p)) && !Enabled(resolve, promises, Reject(p))
      && !Enabled(resolve, promises, Fulfill(p))
  }

  // ----- the invariant -----

  ghost predicate PromiseOk(resolve: Resolver, disk: Disk, promises: Promises, p: Path)
    requires p in promises
  {
    promises[p].Reading? ||
    ((forall d | d in RequestedFrom(resolve, disk, p) :: d in promises)
     && match promises[p]
        case Reading => true
        case Awaiting(parsed) => p in disk && disk[p] == Some(parsed)
        case Rejected => Doomed(resolve, disk, p)
        case Fulfilled(value) =>
          p in disk && value == DiskModule(resolve, disk, p)
          && AllFulfilled(promises, RequestedFrom(resolve, disk, p)))
  }

  function FulfilledSet(promises: Promises): set<Path> {
    set p | p in promises && promises[p].Fulfilled?
  }

  /** Every promise says what the disk says, and nothing is loaded that the entry does not request in the end. */
  ghost predicate Inv(resolve: Resolver, disk: Disk, promises: Promises, entry: Path) {
    && entry in promises
    && (forall p {:trigger PromiseOk(resolve, disk, promises, p)} | p in promises ::
          PromiseOk(resolve, disk, promises, p))
    && Needed(resolve, disk, promises.Keys, entry)
    && Ranked(resolve, disk, FulfilledSet(promises))
  }

  lemma {:induction false} BegunHas(promises: Promises, ps: seq<Path>)
    ensures var after := Begun(promises, ps);
      && promises.Items <= after.Items && (forall p :: p in after <==> p in promises || p in ps)
      && (forall p | p in after && p !in promises :: after[p] == Reading)
    decreases |ps|
  {
    if ps != [] {
      var before, p := ps[..|ps| - 1], ps[|ps| - 1];
      BegunHas(promises, before);
      assert ps == before + [p];
    }
  }

  lemma BeginsOk(resolve: Resolver, disk: Disk, entry: Path)
    ensures Inv(resolve, disk, Begun(map[], [entry]), entry)
  {
    var none: Promises := map[];
    BegunHas(none, [entry]);
    assert RankedBy(resolve, disk, {}, p => 0);
    assert FulfilledSet(Begun(none, [entry])) == {};
  }

  /** What has settled or waits stays so while other loads begin. */
  lemma BegunStaysOk(resolve: Resolver, disk: Disk, promises: Promises, after: Promises, p: Path)
    requires p in promises && PromiseOk(resolve, disk, promises, p) && promises.Items <= after.Items
    ensures p in after && after[p] == promises[p] && PromiseOk(resolve, disk, after, p)
  {
    assert (p, promises[p]) in after.Items;
    forall d | d in promises
      ensures d in after && after[d] == promises[d]
    {
      assert (d, promises[d]) in promises.Items;
    }
  }

  /** The promise of p changes, but not from fulfilled. */
  lemma OthersStayOk(resolve: Resolver, disk: Disk, promises: Promises, p: Path, promised: Promised, q: Path)
    requires p in promises && !promises[p].Fulfilled? && q in promises && q != p
    requires PromiseOk(resolve, disk, promises, q)
    ensures PromiseOk(resolve, disk, promises[p := promised], q)
  {
  }

  lemma RequestsAreNeeded(resolve: Resolver, disk: Disk, entry: Path, loaded: set<Path>, more: set<Path>, p: Path)
    requires Needed(resolve, disk, loaded, entry) && p in loaded
    requires forall d | d in more :: d in loaded || d in RequestedFrom(resolve, disk, p)
    ensures Needed(resolve, disk, more, entry)
  {
    forall s: set<Path> | entry in s && RequestClosed(resolve, disk, s)
      ensures more <= s
    {
      assert p in s;
    }
  }

  lemma RejectedIsOk(resolve: Resolver, disk: Disk, promises: Promises, entry: Path, p: Path)
    requires Inv(resolve, disk, promises, entry) && p in promises && !promises[p].Fulfilled?
    requires Doomed(resolve, disk, p) && forall d | d in RequestedFrom(resolve, disk, p) :: d in promises
    ensures Inv(resolve, disk, promises[p := Rejected], entry)
  {
    var after := promises[p := Rejected];
    forall q | q in after
      ensures PromiseOk(resolve, disk, after, q)
    {
      if q != p {
        OthersStayOk(resolve, disk, promises, p, Rejected, q);
      }
    }
    assert after.Keys == promises.Keys && FulfilledSet(after) == FulfilledSet(promises);
  }

  function Highest(rank: Path -> int, ps: seq<Path>): (r: int)
    ensures forall d | d in ps :: rank(d) <= r
  {
    if ps == [] then 0
    else
      var r := Highest(rank, ps[1..]);
      if rank(ps[0]) > r then rank(ps[0]) else r
  }

  /** What requests ranked files only can be ranked above them, if none of them requests it. */
  lemma OneMoreRanked(resolve: Resolver, disk: Disk, s: set<Path>, p: Path)
    requires Ranked(resolve, disk, s) && RequestClosed(resolve, disk, s) && p !in s
    requires forall d | d in RequestedFrom(resolve, disk, p) :: d in s
    ensures Ranked(resolve, disk, s + {p})
  {
    var rank :| RankedBy(resolve, disk, s, rank);
    var top := Highest(rank, RequestedFrom(resolve, disk, p)) + 1;
    var rank' := (x: Path) => if x == p then top else rank(x);
    assert RankedBy(resolve, disk, s + {p}, rank');
  }

  lemma FulfilledIsOk(resolve: Resolver, disk: Disk, promises: Promises, entry: Path, p: Path, value: Option<IModule>)
    requires Inv(resolve, disk, promises, entry) && p in promises && !promises[p].Fulfilled?
    requires p in disk && value == DiskModule(resolve, disk, p)
    requires AllFulfilled(promises, RequestedFrom(resolve, disk, p))
    ensures Inv(resolve, disk, promises[p := Fulfilled(value)], entry)
  {
    var after := promises[p := Fulfilled(value)];
    forall q | q in after
      ensures PromiseOk(resolve, disk, after, q)
    {
      if q != p {
        OthersStayOk(resolve, disk, promises, p, Fulfilled(value), q);
      }
    }
    FulfilledIsClosed(resolve, disk, promises, entry);
    OneMoreRanked(resolve, disk, FulfilledSet(promises), p);
    assert after.Keys == promises.Keys && FulfilledSet(after) == FulfilledSet(promises) + {p};
  }

  lemma FulfilledIsClosed(resolve: Resolver, disk: Disk, promises: Promises, entry: Path)
    requires Inv(resolve, disk, promises, entry)
    ensures RequestClosed(resolve, disk, FulfilledSet(promises)) && FulfilledSet(promises) <= disk.Keys
  {
    forall q | q in FulfilledSet(promises)
      ensures PromiseOk(resolve, disk, promises, q)
    {
    }
  }

  lemma AwaitingIsOk(resolve: Resolver, disk: Disk, promises: Promises, entry: Path, p: Path)
    requires Inv(resolve, disk, promises, entry) && p in promises && promises[p].Reading?
    requires p in disk && disk[p].Some?
    ensures Inv(resolve, disk, AfterRead(resolve, disk, promises, p), entry)
  {
    var parsed := disk[p].value;
    var waiting := promises[p := Awaiting(parsed)];
    var requested := Requested(resolve, parsed.requests, p);
    var after := Begun(waiting, requested);
    BegunHas(waiting, requested);
    assert (p, waiting[p]) in waiting.Items;
    forall q | q in after
      ensures PromiseOk(resolve, disk, after, q) && (after[q].Fulfilled? ==> q in promises && promises[q].Fulfilled?)
    {
      if q in promises && q != p {
        OthersStayOk(resolve, disk, promises, p, Awaiting(parsed), q);
        BegunStaysOk(resolve, disk, waiting, after, q);
      }
    }
    forall q | q in promises && promises[q].Fulfilled?
      ensures q in after && after[q].Fulfilled?
    {
      assert (q, waiting[q]) in waiting.Items;
    }
    assert FulfilledSet(after) == FulfilledSet(promises);
    RequestsAreNeeded(resolve, disk, entry, promises.Keys, after.Keys, p);
  }

  lemma {:induction false} KeptAreParsed(resolve: Resolver, disk: Disk, promises: Promises, entry: Path, ps: seq<Path>)
    requires Inv(resolve, disk, promises, entry) && AllFulfilled(promises, ps)
    ensures KeptModules(promises, ps) == OnlyParsed(disk, ps)
    decreases |ps|
  {
    if ps != [] {
      assert ps[0] in ps && PromiseOk(resolve, disk, promises, ps[0]);
      KeptAreParsed(resolve, disk, promises, entry, ps[1..]);
    }
  }

  /** Every event keeps the invariant. */
  lemma StepKeepsInv(resolve: Resolver, disk: Disk, promises: Promises, entry: Path, e: Event)
    requires Inv(resolve, disk, promises, entry) && Enabled(resolve, promises, e)
    ensures Inv(resolve, disk, Next(resolve, disk, promises, e), entry)
  {
    var p := e.p;
    assert PromiseOk(resolve, disk, promises, p);
    match e
    case Read(_) =>
      if p !in disk {
        ReachesSelf(resolve, disk, p);
        RejectedIsOk(resolve, disk, promises, entry, p);
      } else if disk[p].None? {
        FulfilledIsOk(resolve, disk, promises, entry, p, None);
      } else {
        AwaitingIsOk(resolve, disk, promises, entry, p);
      }
    case Reject(_) =>
      var d :| d in RequestedFrom(resolve, disk, p) && d in promises && promises[d].Rejected?;
      assert PromiseOk(resolve, disk, promises, d);
      DoomSpreads(resolve, disk, p, d);
      RejectedIsOk(resolve, disk, promises, entry, p);
    case Fulfill(_) =>
      KeptAreParsed(resolve, disk, promises, entry, RequestedFrom(resolve, disk, p));
      FulfilledIsOk(resolve, disk, promises, entry, p, DiskModule(resolve, disk, p));
  }

  // ----- what a load comes to -----

  lemma AtRestAll(resolve: Resolver, disk: Disk, promises: Promises, entry: Path, p: Path)
    requires Inv(resolve, disk, promises, entry) && AtRest(resolve, promises) && p in promises
    ensures !promises[p].Reading? && PromiseOk(resolve, disk, promises, p)
    ensures promises[p].Awaiting? ==>
      var requested := RequestedFrom(resolve, disk, p);
      !SomeRejected(promises, requested) && !AllFulfilled(promises, requested)
  {
    assert PromiseOk(resolve, disk, promises, p);
    assert !Enabled(resolve, promises, Read(p)) && !Enabled(resolve, promises, Reject(p))
        && !Enabled(resolve, promises, Fulfill(p));
  }

  /** At rest, what waits waits for something that waits. */
  lemma WaitersGoOn(resolve: Resolver, disk: Disk, promises: Promises, entry: Path)
    requires Inv(resolve, disk, promises, entry) && AtRest(resolve, promises)
    ensures GoesOn(resolve, disk, set p | p in promises && promises[p].Awaiting?)
  {
    var waiting := set p | p in promises && promises[p].Awaiting?;
    forall p | p in waiting
      ensures RequestsIn(resolve, disk, waiting, p)
    {
      AtRestAll(resolve, disk, promises, entry, p);
      var d :| d in RequestedFrom(resolve, disk, p) && !(d in promises && promises[d].Fulfilled?);
      AtRestAll(resolve, disk, promises, entry, d);
      assert d in waiting;
    }
  }

  /** At rest, what has not been rejected is readable with everything it requests in the end. */
  lemma UnrejectedIsClosed(resolve: Resolver, disk: Disk, promises: Promises, entry: Path)
    requires Inv(resolve, disk, promises, entry) && AtRest(resolve, promises)
    ensures var s := set p | p in promises && !promises[p].Rejected?;
      RequestClosed(resolve, disk, s) && s <= disk.Keys
  {
    var s := set p | p in promises && !promises[p].Rejected?;
    forall p | p in s
      ensures p in disk && forall d | d in RequestedFrom(resolve, disk, p) :: d in s
    {
      AtRestAll(resolve, disk, promises, entry, p);
    }
  }

  /**
   When nothing is left to do, in whatever order it was done: a load has been rejected if and only if a
   file that cannot be read is requested in the end; it never ends if and only if all files can be read and
   one requests itself in the end; otherwise it has been fulfilled with what the files say.
   */
  lemma LoadsEndWell(resolve: Resolver, disk: Disk, promises: Promises, entry: Path, p: Path)
    requires Inv(resolve, disk, promises, entry) && AtRest(resolve, promises) && p in promises
    ensures promises[p].Rejected? <==> Doomed(resolve, disk, p)
    ensures promises[p].Awaiting? <==> !Doomed(resolve, disk, p) && Tangled(resolve, disk, p)
    ensures promises[p].Fulfilled? <==> !Doomed(resolve, disk, p) && !Tangled(resolve, disk, p)
    ensures promises[p].Fulfilled? ==> promises[p].value == DiskModule(resolve, disk, p)
  {
    AtRestAll(resolve, disk, promises, entry, p);
    var s, waiting := set q | q in promises && !promises[q].Rejected?, set q | q in promises && promises[q].Awaiting?;
    UnrejectedIsClosed(resolve, disk, promises, entry);
    if !promises[p].Rejected? {
      ReadableAndRanked(resolve, disk, s, p);
    }
    if promises[p].Fulfilled? {
      FulfilledIsClosed(resolve, disk, promises, entry);
      ReadableAndRanked(resolve, disk, FulfilledSet(promises), p);
    }
    if promises[p].Awaiting? {
      WaitersGoOn(resolve, disk, promises, entry);
      WaitersAreTangled(resolve, disk, waiting, p);
    }
  }

  /** At rest, what has been loaded is what the entry requests in the end. */
  lemma LoadedIsNeeded(resolve: Resolver, disk: Disk, promises: Promises, entry: Path)
    requires Inv(resolve, disk, promises, entry) && AtRest(resolve, promises)
    ensures RequestClosed(resolve, disk, promises.Keys) && Needed(resolve, disk, promises.Keys, entry)
  {
    forall p | p in promises
      ensures forall d | d in RequestedFrom(resolve, disk, p) :: d in promises
    {
      AtRestAll(resolve, disk, promises, entry, p);
    }
  }

  /** The order in which files are read and promises settle makes no difference. */
  lemma SchedulesAgree(resolve: Resolver, disk: Disk, entry: Path, promises: Promises, promises': Promises)
    requires Inv(resolve, disk, promises, entry) && AtRest(resolve, promises)
    requires Inv(resolve, disk, promises', entry) && AtRest(resolve, promises')
    ensures promises == promises'
  {
    LoadedIsNeeded(resolve, disk, promises, entry);
    LoadedIsNeeded(resolve, disk, promises', entry);
    assert promises.Keys == promises'.Keys;
    forall p | p in promises
      ensures promises[p] == promises'[p]
    {
      LoadsEndWell(resolve, disk, promises, entry, p);
      LoadsEndWell(resolve, disk, promises', entry, p);
      AtRestAll(resolve, disk, promises, entry, p);
      AtRestAll(resolve, disk, promises', entry, p);
    }
  }

  // ----- every load comes to rest -----

  /** Every file a load from the entry can come across. */
  function Files(resolve: Resolver, disk: Disk, entry: Path): set<Path> {
    {entry} + disk.Keys + set p, d | p in disk && d in RequestedFrom(resolve, disk, p) :: d
  }

  function ReadSet(promises: Promises): set<Path> {
    set p | p in promises && !promises[p].Reading?
  }

  function SettledSet(promises: Promises): set<Path> {
    set p | p in promises && (promises[p].Rejected? || promises[p].Fulfilled?)
  }

  /** How many files are still to be read, and how many to settle. */
  function Work(resolve: Resolver, disk: Disk, promises: Promises, entry: Path): nat {
    |Files(resolve, disk, entry) - ReadSet(promises)| + |Files(resolve, disk, entry) - SettledSet(promises)|
  }

  lemma LoadedAmongFiles(resolve: Resolver, disk: Disk, promises: Promises, entry: Path)
    requires Inv(resolve, disk, promises, entry)
    ensures promises.Keys <= Files(resolve, disk, entry)
  {
    assert RequestClosed(resolve, disk, Files(resolve, disk, entry));
  }

  lemma ReadGrows(resolve: Resolver, disk: Disk, promises: Promises, p: Path)
    requires p in promises && promises[p].Reading?
    ensures var after := AfterRead(resolve, disk, promises, p);
      ReadSet(after) == ReadSet(promises) + {p} && SettledSet(promises) <= SettledSet(after)
  {
    if p in disk && disk[p].Some? {
      var waiting, requested := promises[p := Awaiting(disk[p].value)], Requested(resolve, disk[p].value.requests, p);
      BegunHas(waiting, requested);
      var after := Begun(waiting, requested);
      forall q | q in waiting
        ensures q in after && after[q] == waiting[q]
      {
        assert (q, waiting[q]) in waiting.Items;
      }
    }
  }

  lemma LessIsLeft(files: set<Path>, done: set<Path>, done': set<Path>, p: Path)
    requires done <= done'
    ensures |files - done'| <= |files - done|
    ensures p in files && p !in done && p in done' ==> |files - done'| < |files - done|
  {
    SubsetCount(files - done', files - done);
    if p in files && p !in done && p in done' {
      SubsetCount((files - done') + {p}, files - done);
    }
  }

  /** An event reads one more file, or settles one more. */
  lemma EventGrows(resolve: Resolver, disk: Disk, promises: Promises, e: Event)
    requires Enabled(resolve, promises, e)
    ensures var after := Next(resolve, disk, promises, e);
      && ReadSet(promises) <= ReadSet(after) && SettledSet(promises) <= SettledSet(after)
      && if e.Read? then e.p !in ReadSet(promises) && e.p in ReadSet(after)
         else e.p !in SettledSet(promises) && e.p in SettledSet(after)
  {
    if e.Read? {
      ReadGrows(resolve, disk, promises, e.p);
    } else {
      var after := Next(resolve, disk, promises, e);
      assert ReadSet(after) == ReadSet(promises) && SettledSet(after) == SettledSet(promises) + {e.p};
    }
  }

  /** Every event leaves less to do. */
  lemma StepWorks(resolve: Resolver, disk: Disk, promises: Promises, entry: Path, e: Event)
    requires Inv(resolve, disk, promises, entry) && Enabled(resolve, promises, e)
    ensures Work(resolve, disk, Next(resolve, disk, promises, e), entry) < Work(resolve, disk, promises, entry)
  {
    LoadedAmongFiles(resolve, disk, promises, entry);
    EventGrows(resolve, disk, promises, e);
    LessWork(resolve, disk, promises, Next(resolve, disk, promises, e), entry, e.p);
  }

  lemma LessWork(resolve: Resolver, disk: Disk, promises: Promises, after: Promises, entry: Path, p: Path)
    requires p in Files(resolve, disk, entry)
    requires ReadSet(promises) <= ReadSet(after) && SettledSet(promises) <= SettledSet(after)
    requires (p !in ReadSet(promises) && p in ReadSet(after)) || (p !in SettledSet(promises) && p in SettledSet(after))
    ensures Work(resolve, disk, after, entry) < Work(resolve, disk, promises, entry)
  {
    LessIsLeft(Files(resolve, disk, entry), ReadSet(promises), ReadSet(after), p);
    LessIsLeft(Files(resolve, disk, entry), SettledSet(promises), SettledSet(after), p);
  }

  ghost predicate Step(resolve: Resolver, disk: Disk, promises: Promises, promises': Promises) {
    exists e :: Enabled(resolve, promises, e) && promises' == Next(resolve, disk, promises, e)
  }

  ghost predicate StepAt(resolve: Resolver, disk: Disk, h: seq<Promises>, i: int)
    requires 0 < i < |h|
  {
    Step(resolve, disk, h[i - 1], h[i])
  }

  /** A load of the entry, event by event. */
  ghost predicate IsLoad(resolve: Resolver, disk: Disk, entry: Path, h: seq<Promises>) {
    && |h| > 0 && h[0] == Begun(map[], [entry])
    && forall i {:trigger StepAt(resolve, disk, h, i)} :: 0 < i < |h| ==> StepAt(resolve, disk, h, i)
  }

  /** However its events are scheduled, a load keeps the invariant, and takes two events a file at most. */
  lemma {:induction false} LoadsAreShort(resolve: Resolver, disk: Disk, entry: Path, h: seq<Promises>, i: int)
    requires IsLoad(resolve, disk, entry, h) && 0 <= i < |h|
    ensures Inv(resolve, disk, h[i], entry)
    ensures i + Work(resolve, disk, h[i], entry) <= 2 * |Files(resolve, disk, entry)|
    decreases i
  {
    if i == 0 {
      BeginsOk(resolve, disk, entry);
      var files := Files(resolve, disk, entry);
      SubsetCount(files - ReadSet(h[0]), files);
      SubsetCount(files - SettledSet(h[0]), files);
    } else {
      LoadsAreShort(resolve, disk, entry, h, i - 1);
      assert StepAt(resolve, disk, h, i);
      var e :| Enabled(resolve, h[i - 1], e) && h[i] == Next(resolve, disk, h[i - 1], e);
      StepKeepsInv(resolve, disk, h[i - 1], entry, e);
      StepWorks(resolve, disk, h[i - 1], entry, e);
    }
  }

  lemma {:induction false} RestIsReached(resolve: Resolver, disk: Disk, promises: Promises, entry: Path)
    returns (rest: Promises)
    requires Inv(resolve, disk, promises, entry)
    ensures Inv(resolve, disk, rest, entry) && AtRest(resolve, rest)
    decreases Work(resolve, disk, promises, entry)
  {
    if AtRest(resolve, promises) {
      return promises;
    }
    var p :| p in promises && !(!Enabled(resolve, promises, Read(p)) && !Enabled(resolve, promises, Reject(p))
                                && !Enabled(resolve, promises, Fulfill(p)));
    var e := if Enabled(resolve, promises, Read(p)) then Read(p)
             else if Enabled(resolve, promises, Reject(p)) then Reject(p) else Fulfill(p);
    StepKeepsInv(resolve, disk, promises, entry, e);
    StepWorks(resolve, disk, promises, entry, e);
    rest := RestIsReached(resolve, disk, Next(resolve, disk, promises, e), entry);
  }

  /** The files of a load that is neither doomed nor tangled can be read and ranked. */
  lemma LoadableIsRanked(resolve: Resolver, disk: Disk, entry: Path) returns (files: set<Path>)
    requires !Doomed(resolve, disk, entry) && !Tangled(resolve, disk, entry)
    ensures entry in files && files <= disk.Keys && RequestClosed(resolve, disk, files) && Ranked(resolve, disk, files)
  {
    BeginsOk(resolve, disk, entry);
    var rest := RestIsReached(resolve, disk, Begun(map[], [entry]), entry);
    LoadsEndWell(resolve, disk, rest, entry, entry);
    FulfilledIsClosed(resolve, disk, rest, entry);
    files := FulfilledSet(rest);
  }

  // ----- the modules of a load -----

  /** The modules whose promises are fulfilled. */
  function ModulesOf(promises: Promises): Modules {
    map p | p in promises && promises[p].Fulfilled? :: promises[p].value
  }

  /** Fulfilled modules are those of the disk; if the entry is one of them, so is all that has been loaded. */
  lemma FulfilledAreLoaded(resolve: Resolver, disk: Disk, promises: Promises, entry: Path)
    requires Inv(resolve, disk, promises, entry)
    ensures Loaded(resolve, disk, ModulesOf(promises)) && Ranked(resolve, disk, ModulesOf(promises).Keys)
    ensures promises[entry].Fulfilled? ==>
      ModulesOf(promises).Keys == promises.Keys && Needed(resolve, disk, promises.Keys, entry)
  {
    forall p | p in ModulesOf(promises)
      ensures PromiseOk(resolve, disk, promises, p)
    {
    }
    assert ModulesOf(promises).Keys == FulfilledSet(promises);
    FulfilledIsClosed(resolve, disk, promises, entry);
  }
}
