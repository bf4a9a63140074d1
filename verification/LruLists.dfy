/** The least-recently-used list of cached downloads, over any run of touches, deletions and restarts. */
module LruLists {
  import opened Wrappers
  import opened PersistedStates

  const KEEP_LRU := 5

  type Names = seq<string>

  function RemoveFirst(l: Names, name: string): Names {
    if l == [] then [] else if l[0] == name then l[1..] else [l[0]] + RemoveFirst(l[1..], name)
  }

  function Retain(l: Names, name: string): Names {
    if l == [] then []
    else if l[0] == name then Retain(l[1..], name)
    else [l[0]] + Retain(l[1..], name)
  }

  /** The new list and the directories left; removes says whether a directory lets itself be removed. */
  function AfterTouch(l: Names, dirs: set<string>, name: string, removes: bool): (Names, set<string>) {
    var m := [name] + RemoveFirst(l, name);
    if |m| <= KEEP_LRU then (m, dirs)
    else if m[|m| - 1] !in dirs || removes then (m[..|m| - 1], dirs - {m[|m| - 1]})
    else (m, dirs)
  }

  /** A touch that finds the list full, and the directory of its last name cannot be removed. */
  predicate Refused(l: Names, dirs: set<string>, name: string, removes: bool) {
    var rest := RemoveFirst(l, name);
    |rest| >= KEEP_LRU && rest[|rest| - 1] in dirs && !removes
  }

  function AfterDelete(l: Names, dirs: set<string>, name: string, removes: bool): (Names, set<string>, bool) {
    if name in dirs && !removes then (l, dirs, false) else (Retain(l, name), dirs - {name}, true)
  }

  // ----- the system -----

  /**
   The list in memory and in its file, and the cached directories. The rest is history: when each name
   was last touched, and how many evictions were refused.
   */
  datatype Cache = Cache(
    mem: Option<Names>, file: FileContents<Names>, dirs: set<string>,
    clock: nat, last: map<string, nat>, failures: nat)

  const EMPTY_CACHE := Cache(None, Absent, {}, 0, map[], 0)

  datatype Op =
    | Touch(name: string, removes: bool, how: WriteOutcome)
    | Delete(name: string, removes: bool, how: WriteOutcome)
    | Create(name: string, created: bool, removes: bool, how: WriteOutcome, renamed: bool)
    | LateRename(name: string)
    | Remove(name: string)
    | LateForget(name: string, how: WriteOutcome)
    | Restart

  function ListOf(c: Cache): Names {
    c.mem.GetOr(Parsed(c.file, []))
  }

  function Saved(c: Cache, l: Names, how: WriteOutcome): Cache {
    c.(mem := Some(l), file := Overwritten(c.file, l, how))
  }

  function DoTouch(c: Cache, name: string, removes: bool, how: WriteOutcome): Cache {
    var (l, dirs) := AfterTouch(ListOf(c), c.dirs, name, removes);
    Saved(c, l, how).(
      dirs := dirs, clock := c.clock + 1, last := c.last[name := c.clock],
      failures := c.failures + if Refused(ListOf(c), c.dirs, name, removes) then 1 else 0)
  }

  function DoDelete(c: Cache, name: string, removes: bool, how: WriteOutcome): Cache {
    var (l, dirs, ok) := AfterDelete(ListOf(c), c.dirs, name, removes);
    if ok then Saved(c, l, how).(dirs := dirs) else c
  }

  /** The name is touched before its directory appears; nobody else comes in between. */
  function DoCreate(c: Cache, name: string, created: bool, removes: bool, how: WriteOutcome, renamed: bool): Cache {
    if name in c.dirs || !created then c
    else
      var c1 := DoTouch(c, name, removes, how);
      if renamed then c1.(dirs := c1.dirs + {name}) else c1
  }

  /** The rename at the end of a creation that others have interrupted after its touch. */
  function DoLateRename(c: Cache, name: string): Cache {
    c.(dirs := c.dirs + {name})
  }

  /** The end of a deletion that others have interrupted after the directory was found absent or removed. */
  function DoLateForget(c: Cache, name: string, how: WriteOutcome): Cache {
    Saved(c, Retain(ListOf(c), name), how)
  }

  function Next(c: Cache, op: Op): Cache {
    match op
    case Touch(name, removes, how) => DoTouch(c, name, removes, how)
    case Delete(name, removes, how) => DoDelete(c, name, removes, how)
    case Create(name, created, removes, how, renamed) => DoCreate(c, name, created, removes, how, renamed)
    case LateRename(name) => DoLateRename(c, name)
    case Remove(name) => c.(dirs := c.dirs - {name})
    case LateForget(name, how) => DoLateForget(c, name, how)
    case Restart => c.(mem := None)
  }

  function After(c: Cache, ops: seq<Op>): Cache
    decreases |ops|
  {
    if ops == [] then c else After(Next(c, ops[0]), ops[1..])
  }

  // ----- lists -----

  predicate NewestFirst(l: Names, last: map<string, nat>) {
    && (forall i :: 0 <= i < |l| ==> l[i] in last)
    && (forall i, j :: 0 <= i < j < |l| ==> last[l[i]] > last[l[j]])
  }

  lemma {:induction false} RemoveFirstIs(l: Names, name: string)
    requires NoDuplicates(l)
    ensures RemoveFirst(l, name) == Retain(l, name)
    ensures name !in RemoveFirst(l, name) && |RemoveFirst(l, name)| == |l| - (if name in l then 1 else 0)
    ensures forall x :: x != name ==> (x in RemoveFirst(l, name) <==> x in l)
  {
    if l != [] {
      assert l == [l[0]] + l[1..];
      if l[0] == name {
        assert name !in l[1..];
        NothingToRetain(l[1..], name);
      } else {
        RemoveFirstIs(l[1..], name);
      }
    }
  }

  lemma {:induction false} NothingToRetain(l: Names, name: string)
    requires name !in l
    ensures Retain(l, name) == l
  {
    if l != [] {
      NothingToRetain(l[1..], name);
    }
  }

  lemma {:induction false} RetainKeepsDistinct(l: Names, name: string)
    requires NoDuplicates(l)
    ensures NoDuplicates(Retain(l, name)) && name !in Retain(l, name) && |Retain(l, name)| <= |l|
    ensures forall x :: x != name ==> (x in Retain(l, name) <==> x in l)
  {
    if l != [] {
      RetainKeepsDistinct(l[1..], name);
      assert l == [l[0]] + l[1..];
      assert l[0] !in l[1..];
      assert l[0] == name || l[0] !in Retain(l[1..], name);
    }
  }

  lemma {:induction false} RetainKeepsOrder(l: Names, name: string, last: map<string, nat>)
    requires NewestFirst(l, last)
    ensures NewestFirst(Retain(l, name), last)
    ensures forall x :: x in Retain(l, name) ==> x in l
  {
    if l != [] {
      assert NewestFirst(l[1..], last);
      RetainKeepsOrder(l[1..], name, last);
      var r := Retain(l[1..], name);
      forall x | x in r ensures last[l[0]] > last[x] {
        var j :| 0 <= j < |l[1..]| && l[1..][j] == x;
        assert l[j + 1] == x;
      }
    }
  }

  lemma OrderedIsDistinct(l: Names, last: map<string, nat>)
    requires NewestFirst(l, last)
    ensures NoDuplicates(l)
  {
  }

  // ----- the invariant -----

  predicate Small(l: Names, failures: nat) {
    NoDuplicates(l) && |l| <= KEEP_LRU + failures
  }

  predicate ClockOk(c: Cache) {
    forall x :: x in c.last ==> c.last[x] < c.clock
  }

  predicate Inv(c: Cache) {
    Small(ListOf(c), c.failures) && Small(Parsed(c.file, []), c.failures) && ClockOk(c)
  }

  lemma TouchedList(l: Names, dirs: set<string>, name: string, removes: bool, failures: nat)
    requires Small(l, failures)
    ensures var (l', dirs') := AfterTouch(l, dirs, name, removes);
      && Small(l', failures + if Refused(l, dirs, name, removes) then 1 else 0)
      && l' != [] && l'[0] == name
      && (forall x :: x in l' ==> x == name || x in l)
      && (forall x :: x in l && x !in l' ==> x !in dirs')
      && dirs' <= dirs
  {
    RemoveFirstIs(l, name);
    RetainKeepsDistinct(l, name);
    var m := [name] + RemoveFirst(l, name);
    assert NoDuplicates(m);
    var l' := AfterTouch(l, dirs, name, removes).0;
    assert |m| <= KEEP_LRU + failures + 1 && (|m| > 1 ==> m[|m| - 1] == RemoveFirst(l, name)[|m| - 2]);
    forall x | x in l && x !in l' ensures x == m[|m| - 1] && |l'| < |m| {
      assert x in m;
    }
  }

  lemma TouchedOrder(l: Names, dirs: set<string>, name: string, removes: bool, last: map<string, nat>, now: nat)
    requires NewestFirst(l, last) && forall x :: x in last ==> last[x] < now
    ensures NewestFirst(AfterTouch(l, dirs, name, removes).0, last[name := now])
  {
    OrderedIsDistinct(l, last);
    RemoveFirstIs(l, name);
    RetainKeepsOrder(l, name, last);
    var m := [name] + RemoveFirst(l, name);
    assert NewestFirst(m, last[name := now]);
  }

  lemma TouchKeepsInv(c: Cache, name: string, removes: bool, how: WriteOutcome)
    requires Inv(c)
    ensures Inv(DoTouch(c, name, removes, how))
  {
    TouchedList(ListOf(c), c.dirs, name, removes, c.failures);
  }

  lemma StepKeepsInv(c: Cache, op: Op)
    requires Inv(c)
    ensures Inv(Next(c, op))
  {
    match op
    case Touch(name, removes, how) => TouchKeepsInv(c, name, removes, how);
    case Delete(name, removes, how) => RetainKeepsDistinct(ListOf(c), name);
    case Create(name, _, removes, how, _) => TouchKeepsInv(c, name, removes, how);
    case LateForget(name, _) => RetainKeepsDistinct(ListOf(c), name);
    case LateRename(_) =>
    case Remove(_) =>
    case Restart =>
  }

  lemma {:induction false} RunKeepsInv(c: Cache, ops: seq<Op>)
    requires Inv(c)
    ensures Inv(After(c, ops))
    decreases |ops|
  {
    if ops != [] {
      StepKeepsInv(c, ops[0]);
      RunKeepsInv(Next(c, ops[0]), ops[1..]);
    }
  }

  /**
   A touch puts its name on top and leaves the order of the others. If there are too many names then, and
   the directory of the last one is gone or lets itself be removed, that name leaves the list and its
   directory is removed; otherwise no name is lost and no directory touched.
   */
  lemma TouchEvicts(c: Cache, name: string, removes: bool, how: WriteOutcome)
    requires Inv(c)
    ensures var l, l', dirs' := [name] + Retain(ListOf(c), name), ListOf(DoTouch(c, name, removes, how)),
        DoTouch(c, name, removes, how).dirs;
      var last := l[|l| - 1];
      if |l| > KEEP_LRU && (last !in c.dirs || removes) then
        l == l' + [last] && last !in l' && last !in dirs' && c.dirs <= dirs' + {last} && dirs' <= c.dirs
      else
        l' == l && dirs' == c.dirs
    ensures (forall x :: x in c.dirs ==> removes) && |ListOf(c)| <= KEEP_LRU ==>
      |ListOf(DoTouch(c, name, removes, how))| <= KEEP_LRU
  {
    RemoveFirstIs(ListOf(c), name);
    RetainKeepsDistinct(ListOf(c), name);
    assert NoDuplicates([name] + Retain(ListOf(c), name));
    TouchedList(ListOf(c), c.dirs, name, removes, c.failures);
  }

  /** A deletion that is not refused leaves neither the name nor its directory, and all others as they were. */
  lemma DeleteForgets(c: Cache, name: string, removes: bool, how: WriteOutcome)
    requires Inv(c)
    ensures var c' := DoDelete(c, name, removes, how);
      if name in c.dirs && !removes then c' == c
      else
        name !in ListOf(c') && name !in c'.dirs && c'.dirs + {name} == c.dirs + {name}
        && forall x :: x != name ==> (x in ListOf(c') <==> x in ListOf(c))
  {
    RetainKeepsDistinct(ListOf(c), name);
  }

  /** No directory that has to be evicted refuses to be removed. */
  predicate Removes(op: Op) {
    op.Touch? || op.Create? ==> op.removes
  }

  predicate AllRemove(ops: seq<Op>) {
    forall op :: op in ops ==> Removes(op)
  }

  /** While removals succeed the list never has more than KEEP_LRU names. */
  lemma {:induction false} RemovedRunsStayWithin(c: Cache, ops: seq<Op>)
    requires Inv(c) && c.failures == 0 && AllRemove(ops)
    ensures After(c, ops).failures == 0 && |ListOf(After(c, ops))| <= KEEP_LRU
    decreases |ops|
  {
    if ops != [] {
      assert Removes(ops[0]);
      StepKeepsInv(c, ops[0]);
      RemovedRunsStayWithin(Next(c, ops[0]), ops[1..]);
    }
  }

  /** Each name once, never more than KEEP_LRU beyond the evictions that were refused. */
  lemma RunsStaySmall(ops: seq<Op>)
    ensures var c := After(EMPTY_CACHE, ops);
      NoDuplicates(ListOf(c)) && |ListOf(c)| <= KEEP_LRU + c.failures
  {
    RunKeepsInv(EMPTY_CACHE, ops);
  }

  // ----- every directory is in the list -----

  /** Every cached directory is in the list, so that it can be evicted one day. */
  predicate AllTracked(c: Cache) {
    forall d :: d in c.dirs ==> d in ListOf(c)
  }

  /**
   When an operation lets a directory escape: a rename whose name is no longer listed, the end of a deletion
   whose name has got a directory again, and a restart before the list with some directory in it has been saved.
   */
  predicate Tracks(c: Cache, op: Op) {
    match op
    case LateRename(name) => name in ListOf(c)
    case LateForget(name, _) => name !in c.dirs
    case Restart => forall d :: d in c.dirs ==> d in Parsed(c.file, [])
    case _ => true
  }

  lemma TouchTracks(c: Cache, name: string, removes: bool, how: WriteOutcome)
    requires Inv(c) && AllTracked(c)
    ensures AllTracked(DoTouch(c, name, removes, how)) && name in ListOf(DoTouch(c, name, removes, how))
  {
    TouchedList(ListOf(c), c.dirs, name, removes, c.failures);
  }

  /** An operation keeps every directory in the list if and only if it is none of the three. */
  lemma TrackedIff(c: Cache, op: Op)
    requires Inv(c) && AllTracked(c)
    ensures AllTracked(Next(c, op)) <==> Tracks(c, op)
  {
    match op
    case Touch(name, removes, how) => TouchTracks(c, name, removes, how);
    case Delete(name, _, _) => RetainKeepsDistinct(ListOf(c), name);
    case Create(name, _, removes, how, _) => TouchTracks(c, name, removes, how);
    case LateRename(name) => assert name in Next(c, op).dirs;
    case Remove(_) =>
    case LateForget(name, _) => RetainKeepsDistinct(ListOf(c), name);
    case Restart =>
  }

  /** holds is true of every state of a run. */
  predicate Throughout(holds: Cache -> bool, c: Cache, ops: seq<Op>)
    decreases |ops|
  {
    holds(c) && (ops == [] || Throughout(holds, Next(c, ops[0]), ops[1..]))
  }

  /** fits is true of every operation of a run, in the state it is taken in. */
  predicate Each(fits: (Cache, Op) -> bool, c: Cache, ops: seq<Op>)
    decreases |ops|
  {
    ops == [] || (fits(c, ops[0]) && Each(fits, Next(c, ops[0]), ops[1..]))
  }

  /** If holds is kept exactly by the operations that fit, it is true throughout exactly if each one fits. */
  lemma {:induction false} ThroughoutIffEach(holds: Cache -> bool, fits: (Cache, Op) -> bool, c: Cache, ops: seq<Op>)
    requires Inv(c) && holds(c)
    requires forall x, op {:trigger Next(x, op)} | Inv(x) && holds(x) :: holds(Next(x, op)) <==> fits(x, op)
    ensures Throughout(holds, c, ops) <==> Each(fits, c, ops)
    decreases |ops|
  {
    if ops != [] {
      StepKeepsInv(c, ops[0]);
      if fits(c, ops[0]) {
        ThroughoutIffEach(holds, fits, Next(c, ops[0]), ops[1..]);
      }
    }
  }

  /** Along a run every directory stays in the list if and only if each operation finds what it needs. */
  lemma TrackedThroughoutIff(c: Cache, ops: seq<Op>)
    requires Inv(c) && AllTracked(c)
    ensures Throughout(AllTracked, c, ops) <==> Each(Tracks, c, ops)
  {
    forall x, op {:trigger Next(x, op)} | Inv(x) && AllTracked(x)
      ensures AllTracked(Next(x, op)) <==> Tracks(x, op)
    {
      TrackedIff(x, op);
    }
    ThroughoutIffEach(AllTracked, Tracks, c, ops);
  }

  // ----- runs whose writes succeed -----

  predicate Saves(op: Op) {
    op.Restart? || op.LateRename? || op.Remove? || op.how.Succeeds?
  }

  predicate Synced(c: Cache) {
    Parsed(c.file, []) == ListOf(c)
  }

  lemma StepKeepsSynced(c: Cache, op: Op)
    requires Synced(c) && Saves(op)
    ensures Synced(Next(c, op))
  {
  }

  /** No creation and no deletion is interrupted. */
  predicate NothingLate(ops: seq<Op>) {
    forall op :: op in ops ==> !op.LateRename? && !op.LateForget?
  }

  predicate AllSave(ops: seq<Op>) {
    forall op :: op in ops ==> Saves(op)
  }

  /** With every write successful and nothing interrupted, no restart lets a directory escape. */
  lemma {:induction false} SavedRunsTrack(c: Cache, ops: seq<Op>)
    requires Inv(c) && AllTracked(c) && Synced(c) && AllSave(ops) && NothingLate(ops)
    ensures Throughout(AllTracked, c, ops) && Synced(After(c, ops))
    decreases |ops|
  {
    if ops != [] {
      assert ops[0] in ops;
      TrackedIff(c, ops[0]);
      StepKeepsInv(c, ops[0]);
      StepKeepsSynced(c, ops[0]);
      SavedRunsTrack(Next(c, ops[0]), ops[1..]);
    }
  }

  /** With every write and every removal successful and nothing interrupted, there are KEEP_LRU directories at most. */
  lemma CacheStaysSmall(ops: seq<Op>)
    requires AllSave(ops) && NothingLate(ops) && AllRemove(ops)
    ensures |After(EMPTY_CACHE, ops).dirs| <= KEEP_LRU
  {
    var c := After(EMPTY_CACHE, ops);
    SavedRunsTrack(EMPTY_CACHE, ops);
    ThroughoutToTheEnd(AllTracked, EMPTY_CACHE, ops);
    RemovedRunsStayWithin(EMPTY_CACHE, ops);
    ElementCount(ListOf(c));
    SubsetCount(c.dirs, Elements(ListOf(c)));
  }

  lemma {:induction false} ThroughoutToTheEnd(holds: Cache -> bool, c: Cache, ops: seq<Op>)
    requires Throughout(holds, c, ops)
    ensures holds(After(c, ops))
    decreases |ops|
  {
    if ops != [] {
      ThroughoutToTheEnd(holds, Next(c, ops[0]), ops[1..]);
    }
  }

  /** A creation whose list could not be saved, and a restart: the directory is there and nobody knows of it. */
  lemma LostSaveLosesADirectory(name: string)
    ensures var ops := [Create(name, true, true, CannotOpen, true), Restart];
      var c := After(EMPTY_CACHE, ops);
      name in c.dirs && ListOf(c) == [] && !Each(Tracks, EMPTY_CACHE, ops)
  {
    var create := Create(name, true, true, CannotOpen, true);
    var c1 := Next(EMPTY_CACHE, create);
    assert [create, Restart][1..] == [Restart] && [Restart][1..] == [];
    assert After(EMPTY_CACHE, [create, Restart]) == After(c1, [Restart]) == After(Next(c1, Restart), []);
    assert name in c1.dirs && name !in Parsed(c1.file, []);
  }

  /**
   A deletion that finds no directory, a creation of that name, and the end of the deletion: the directory
   is there and its name is not in the list, although every write has succeeded.
   */
  lemma LateForgetLosesADirectory(name: string)
    ensures var ops := [Remove(name), Create(name, true, true, Succeeds, true), LateForget(name, Succeeds)];
      var c := After(EMPTY_CACHE, ops);
      && AllSave(ops) && name in c.dirs && ListOf(c) == [] && !Each(Tracks, EMPTY_CACHE, ops)
  {
    var create, forget := Create(name, true, true, Succeeds, true), LateForget(name, Succeeds);
    var c1 := Next(EMPTY_CACHE, Remove(name));
    var c2 := Next(c1, create);
    assert c1.dirs == {} && ListOf(c1) == [];
    assert ListOf(c2) == [name] && name in c2.dirs;
    assert [name][1..] == [] && Retain([name], name) == Retain([], name) == [];
    assert [Remove(name), create, forget][1..] == [create, forget] && [create, forget][1..] == [forget];
    assert [forget][1..] == [];
    assert After(c1, [create, forget]) == After(c2, [forget]) == After(Next(c2, forget), []) == Next(c2, forget);
    assert !Each(Tracks, c2, [forget]) && !Each(Tracks, c1, [create, forget]);
  }

  // ----- the order of the list -----

  predicate Ordered(c: Cache) {
    NewestFirst(ListOf(c), c.last)
  }

  /** The list is ordered by last touch, and so is the one that a restart would read back. */
  predicate OrderedForGood(c: Cache) {
    Ordered(c) && NewestFirst(Parsed(c.file, []), c.last)
  }

  /** A touch whose list cannot be saved takes its name to the top, but not in a file that has it further down. */
  predicate TouchKeepsOrder(c: Cache, name: string, how: WriteOutcome) {
    var saved := Parsed(c.file, []);
    how.CannotOpen? && name in saved ==> saved[0] == name
  }

  predicate KeepsOrder(c: Cache, op: Op) {
    match op
    case Touch(name, _, how) => TouchKeepsOrder(c, name, how)
    case Create(name, created, _, how, _) => name in c.dirs || !created || TouchKeepsOrder(c, name, how)
    case _ => true
  }

  lemma TouchOrderIff(c: Cache, name: string, removes: bool, how: WriteOutcome)
    requires Inv(c) && OrderedForGood(c)
    ensures Ordered(DoTouch(c, name, removes, how))
    ensures OrderedForGood(DoTouch(c, name, removes, how)) <==> TouchKeepsOrder(c, name, how)
  {
    TouchedOrder(ListOf(c), c.dirs, name, removes, c.last, c.clock);
    var saved, last := Parsed(c.file, []), c.last[name := c.clock];
    if how.CannotOpen? && name in saved && saved[0] != name {
      var k :| 0 <= k < |saved| && saved[k] == name;
      assert last[saved[0]] < last[saved[k]];
    }
  }

  /**
   The list, and the one a restart would read back, stay ordered by last touch across an operation if and
   only if it is no touch that cannot open the file while the file has the name below its top.
   */
  lemma OrderedIff(c: Cache, op: Op)
    requires Inv(c) && OrderedForGood(c)
    ensures OrderedForGood(Next(c, op)) <==> KeepsOrder(c, op)
  {
    match op
    case Touch(name, removes, how) => TouchOrderIff(c, name, removes, how);
    case Delete(name, _, _) => RetainKeepsOrder(ListOf(c), name, c.last);
    case Create(name, _, removes, how, _) => TouchOrderIff(c, name, removes, how);
    case LateForget(name, _) => RetainKeepsOrder(ListOf(c), name, c.last);
    case LateRename(_) =>
    case Remove(_) =>
    case Restart =>
  }

  /** So along a run both stay ordered if and only if no operation is such a touch. */
  lemma OrderedThroughoutIff(c: Cache, ops: seq<Op>)
    requires Inv(c) && OrderedForGood(c)
    ensures Throughout(OrderedForGood, c, ops) <==> Each(KeepsOrder, c, ops)
  {
    forall x, op {:trigger Next(x, op)} | Inv(x) && OrderedForGood(x)
      ensures OrderedForGood(Next(x, op)) <==> KeepsOrder(x, op)
    {
      OrderedIff(x, op);
    }
    ThroughoutIffEach(OrderedForGood, KeepsOrder, c, ops);
  }

  /** With every write successful the list is ordered by last touch after any run. */
  lemma {:induction false} SavedRunsStayOrdered(c: Cache, ops: seq<Op>)
    requires Inv(c) && OrderedForGood(c) && AllSave(ops)
    ensures OrderedForGood(After(c, ops))
    decreases |ops|
  {
    if ops != [] {
      assert ops[0] in ops;
      OrderedIff(c, ops[0]);
      StepKeepsInv(c, ops[0]);
      SavedRunsStayOrdered(Next(c, ops[0]), ops[1..]);
    }
  }

  /** a, then b, then a again with a list that cannot be saved, and a restart: a is newest, but b is first. */
  lemma UnsavedTouchBreaksTheOrder(a: string, b: string)
    requires a != b
    ensures var ops := [Touch(a, true, Succeeds), Touch(b, true, Succeeds), Touch(a, true, CannotOpen), Restart];
      var c := After(EMPTY_CACHE, ops);
      ListOf(c) == [b, a] && a in c.last && b in c.last && c.last[a] > c.last[b] && !Ordered(c)
  {
    var ta, tb, ta' := Touch(a, true, Succeeds), Touch(b, true, Succeeds), Touch(a, true, CannotOpen);
    var c1 := Next(EMPTY_CACHE, ta);
    var c2 := Next(c1, tb);
    var c3 := Next(c2, ta');
    assert ListOf(c1) == [a] && [a][1..] == [];
    assert RemoveFirst([a], b) == [a] by {
      assert RemoveFirst([], b) == [];
    }
    assert ListOf(c2) == [b, a] && Parsed(c2.file, []) == [b, a];
    assert [ta, tb, ta', Restart][1..] == [tb, ta', Restart] && [tb, ta', Restart][1..] == [ta', Restart];
    assert [ta', Restart][1..] == [Restart] && [Restart][1..] == [];
    assert After(c1, [tb, ta', Restart]) == After(c2, [ta', Restart]) == After(c3, [Restart]);
    assert After(c3, [Restart]) == After(Next(c3, Restart), []) == Next(c3, Restart);
  }

  // ----- creations that are interrupted -----

  lemma {:induction false} NothingToRemove(l: Names, name: string)
    requires name !in l
    ensures RemoveFirst(l, name) == l
  {
    if l != [] {
      NothingToRemove(l[1..], name);
    }
  }

  function FirstFew(l: Names): Names {
    if |l| <= KEEP_LRU then l else l[..KEEP_LRU]
  }

  function Reversed(l: Names): Names {
    if l == [] then [] else Reversed(l[1..]) + [l[0]]
  }

  /** Touches that succeed. */
  function Touches(names: Names): seq<Op> {
    if names == [] then [] else [Touch(names[0], true, Succeeds)] + Touches(names[1..])
  }

  /** A touch of a new name while no directory exists. */
  lemma TouchOfNewName(c: Cache, name: string)
    requires name !in ListOf(c) && c.dirs == {} && |ListOf(c)| <= KEEP_LRU
    ensures var c' := DoTouch(c, name, true, Succeeds);
      ListOf(c') == FirstFew([name] + ListOf(c)) && c'.dirs == {}
  {
    NothingToRemove(ListOf(c), name);
  }

  lemma FirstFewTwice(a: Names, l: Names)
    ensures FirstFew(a + FirstFew(l)) == FirstFew(a + l)
  {
  }

  lemma ReversedCons(names: Names, l: Names)
    requires names != []
    ensures Reversed(names) + l == Reversed(names[1..]) + ([names[0]] + l)
  {
  }

  lemma {:induction false} TouchesOfNewNames(c: Cache, names: Names)
    requires NoDuplicates(names) && (forall x :: x in names ==> x !in ListOf(c))
    requires c.dirs == {} && |ListOf(c)| <= KEEP_LRU
    ensures var c' := After(c, Touches(names));
      ListOf(c') == FirstFew(Reversed(names) + ListOf(c)) && c'.dirs == {}
    decreases |names|
  {
    if names == [] {
      assert Reversed(names) + ListOf(c) == ListOf(c);
    } else {
      var first, others, l := names[0], names[1..], ListOf(c);
      assert first in names && first !in others;
      TouchOfNewName(c, first);
      var c1 := DoTouch(c, first, true, Succeeds);
      forall x | x in others ensures x !in ListOf(c1) {
        assert x in names;
      }
      TouchesOfNewNames(c1, others);
      assert Touches(names)[0] == Touch(first, true, Succeeds) && Touches(names)[1..] == Touches(others);
      FirstFewTwice(Reversed(others), [first] + l);
      ReversedCons(names, l);
    }
  }

  lemma {:induction false} AfterMore(c: Cache, a: seq<Op>, b: seq<Op>)
    ensures After(c, a + b) == After(After(c, a), b)
    decreases |a|
  {
    if a == [] {
      assert a + b == b;
    } else {
      assert (a + b)[1..] == a[1..] + b;
      AfterMore(Next(c, a[0]), a[1..], b);
    }
  }

  lemma {:induction false} ReversedHas(l: Names, x: string)
    ensures x in Reversed(l) <==> x in l
    ensures |Reversed(l)| == |l|
  {
    if l != [] {
      ReversedHas(l[1..], x);
    }
  }

  /**
   A creation that is interrupted by touches of KEEP_LRU other names is lost: its name is evicted while
   its directory does not exist yet, and then the directory appears without being in the list.
   */
  lemma InterruptedCreationIsLost(name: string, others: Names)
    requires NoDuplicates(others) && |others| == KEEP_LRU && name !in others
    ensures var ops := [Create(name, true, true, Succeeds, false)] + Touches(others) + [LateRename(name)];
      var c := After(EMPTY_CACHE, ops);
      name in c.dirs && name !in ListOf(c)
  {
    var create, rename := [Create(name, true, true, Succeeds, false)], [LateRename(name)];
    assert create[1..] == [] && rename[1..] == [];
    TouchOfNewName(EMPTY_CACHE, name);
    var c1 := DoTouch(EMPTY_CACHE, name, true, Succeeds);
    assert After(EMPTY_CACHE, create) == After(c1, []) == c1;
    assert ListOf(c1) == [name] + [] == [name];
    TouchesOfNewNames(c1, others);
    var c2 := After(c1, Touches(others));
    ReversedHas(others, name);
    assert FirstFew(Reversed(others) + [name]) == Reversed(others);
    AfterMore(EMPTY_CACHE, create, Touches(others));
    AfterMore(EMPTY_CACHE, create + Touches(others), rename);
  }

  // ----- what a touch drops -----

  lemma DroppedIsLast(l: Names, dirs: set<string>, name: string, removes: bool, gone: string)
    requires NoDuplicates(l) && gone in l && gone !in AfterTouch(l, dirs, name, removes).0
    ensures var (l', dirs') := AfterTouch(l, dirs, name, removes);
      && gone != name && gone !in dirs' && |l| >= KEEP_LRU
      && l' != [] && [name] + RemoveFirst(l, name) == l' + [gone]
  {
    RemoveFirstIs(l, name);
    var rest := RemoveFirst(l, name);
    var l' := AfterTouch(l, dirs, name, removes).0;
    var m := [name] + rest;
    assert l' == m || l' == m[..|m| - 1];
    assert gone == name || gone in rest;
    assert l'[0] == name && gone in rest;
    OnlyTheLast(m, l', gone);
  }

  lemma OnlyTheLast(m: Names, l': Names, gone: string)
    requires m != [] && gone in m && gone !in l' && (l' == m || l' == m[..|m| - 1])
    ensures m == l' + [gone]
  {
    var i :| 0 <= i < |m| && m[i] == gone;
    assert forall k :: 0 <= k < |l'| ==> l'[k] in l' && l'[k] == m[k];
    assert i == |m| - 1;
  }

  lemma LastIsOldest(kept: Names, gone: string, last: map<string, nat>, x: string)
    requires NewestFirst(kept + [gone], last) && x in kept
    ensures x in last && gone in last && last[x] > last[gone]
  {
    var i :| 0 <= i < |kept| && kept[i] == x;
    assert (kept + [gone])[i] == x && (kept + [gone])[|kept|] == gone;
  }

  lemma DroppedIsOldest(l: Names, l': Names, name: string, last: map<string, nat>, gone: string, x: string)
    requires NewestFirst(l, last) && l' != [] && [name] + RemoveFirst(l, name) == l' + [gone]
    ensures x in l' <==> x == name || (x in l && x != gone)
    ensures x in l' && x != name ==> x in last && gone in last && last[x] > last[gone]
  {
    OrderedIsDistinct(l, last);
    RemoveFirstIs(l, name);
    RetainKeepsOrder(l, name, last);
    var rest := RemoveFirst(l, name);
    assert l'[0] == ([name] + rest)[0] == name;
    var kept := l'[1..];
    assert rest == ([name] + rest)[1..] == kept + [gone];
    assert l' == [name] + kept;
    if x in kept {
      LastIsOldest(kept, gone, last, x);
    }
    assert x in rest <==> x in kept || x == gone;
    assert name !in rest;
  }

  /** A touch drops at most one name: the least recently touched one, never the one just touched. */
  lemma EvictsLeastRecent(c: Cache, name: string, removes: bool, how: WriteOutcome, gone: string)
    requires Inv(c) && Ordered(c)
    requires gone in ListOf(c) && gone !in ListOf(DoTouch(c, name, removes, how))
    ensures var c' := DoTouch(c, name, removes, how);
      && gone != name && gone !in c'.dirs && |ListOf(c)| >= KEEP_LRU
      && (forall x :: x in ListOf(c') <==> x == name || (x in ListOf(c) && x != gone))
      && (forall x :: x in ListOf(c') ==> x in c'.last && gone in c'.last && c'.last[x] > c'.last[gone])
  {
    var (l', dirs') := AfterTouch(ListOf(c), c.dirs, name, removes);
    var c' := DoTouch(c, name, removes, how);
    assert ListOf(c') == l' && c'.dirs == dirs' && c'.last == c.last[name := c.clock];
    OrderedIsDistinct(ListOf(c), c.last);
    DroppedIsLast(ListOf(c), c.dirs, name, removes, gone);
    forall x
      ensures x in l' <==> x == name || (x in ListOf(c) && x != gone)
      ensures x in l' && x != name ==> x in c.last && gone in c.last && c.last[x] > c.last[gone]
    {
      DroppedIsOldest(ListOf(c), l', name, c.last, gone, x);
    }
  }
}
