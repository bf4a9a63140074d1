/** Depth-first post-order of a dependency graph, as the bundler walks it. */
module PostOrders {
  import opened Wrappers

  datatype Path = Path(name: string)

  type Dependencies = map<Path, seq<Path>>

  function Visit(g: Dependencies, p: Path, visited: set<Path>): (r: (set<Path>, seq<Path>))
    ensures visited <= r.0
    decreases g.Keys - visited, 0
  {
    if p in visited || p !in g then (visited, [])
    else
      var deps := VisitAll(g, g[p], visited + {p});
      (deps.0, deps.1 + [p])
  }

  function VisitAll(g: Dependencies, ps: seq<Path>, visited: set<Path>): (r: (set<Path>, seq<Path>))
    ensures visited <= r.0
    decreases g.Keys - visited, |ps|
  {
    if ps == [] then (visited, [])
    else
      var first := Visit(g, ps[0], visited);
      var rest := VisitAll(g, ps[1..], first.0);
      (rest.0, first.1 + rest.1)
  }

  /** Every dependency is a module of the graph. */
  ghost predicate Whole(g: Dependencies) {
    forall p, d | p in g && d in g[p] :: d in g
  }

  ghost predicate ClosedUnder(g: Dependencies, s: set<Path>) {
    forall p, d | p in s && p in g && d in g[p] :: d in s
  }

  /** order lists what s' has and s has not, each once, and with it all its dependencies. */
  ghost predicate Emits(g: Dependencies, s: set<Path>, s': set<Path>, order: seq<Path>) {
    && NoDuplicates(order)
    && s <= s'
    && (forall x :: x in order <==> x in s' && x !in s)
    && (forall x, d | x in order && x in g && d in g[x] :: d in s')
    && (forall x | x in order :: x in g)
  }

  lemma EmitsAppend(g: Dependencies, s: set<Path>, s1: set<Path>, s2: set<Path>, a: seq<Path>, b: seq<Path>)
    requires Emits(g, s, s1, a) && Emits(g, s1, s2, b)
    ensures Emits(g, s, s2, a + b)
  {
    var c := a + b;
    forall i, j | 0 <= i < j < |c|
      ensures c[i] != c[j]
    {
      if i < |a| && j >= |a| {
        assert c[i] in a && c[j] in b;
      }
    }
  }

  lemma {:induction false} VisitEmits(g: Dependencies, p: Path, visited: set<Path>)
    requires Whole(g) && p in g
    ensures var r := Visit(g, p, visited); Emits(g, visited, r.0, r.1) && p in r.0
    decreases g.Keys - visited, 0
  {
    if p !in visited {
      var deps := VisitAll(g, g[p], visited + {p});
      VisitAllEmits(g, g[p], visited + {p});
      var order := deps.1 + [p];
      forall x
        ensures x in order <==> x in deps.0 && x !in visited
      {
      }
      assert p !in deps.1;
    }
  }

  lemma {:induction false} VisitAllEmits(g: Dependencies, ps: seq<Path>, visited: set<Path>)
    requires Whole(g) && forall q | q in ps :: q in g
    ensures var r := VisitAll(g, ps, visited); Emits(g, visited, r.0, r.1) && forall q | q in ps :: q in r.0
    decreases g.Keys - visited, |ps|
  {
    if ps != [] {
      var first := Visit(g, ps[0], visited);
      VisitEmits(g, ps[0], visited);
      VisitAllEmits(g, ps[1..], first.0);
      var rest := VisitAll(g, ps[1..], first.0);
      EmitsAppend(g, visited, first.0, rest.0, first.1, rest.1);
    }
  }

  /** Nothing outside a closed set is reached from inside it. */
  lemma {:induction false} VisitStaysIn(g: Dependencies, p: Path, visited: set<Path>, s: set<Path>)
    requires ClosedUnder(g, s) && p in s
    ensures forall x | x in Visit(g, p, visited).1 :: x in s
    decreases g.Keys - visited, 0
  {
    if p !in visited && p in g {
      VisitAllStaysIn(g, g[p], visited + {p}, s);
    }
  }

  lemma {:induction false} VisitAllStaysIn(g: Dependencies, ps: seq<Path>, visited: set<Path>, s: set<Path>)
    requires ClosedUnder(g, s) && forall q | q in ps :: q in s
    ensures forall x | x in VisitAll(g, ps, visited).1 :: x in s
    decreases g.Keys - visited, |ps|
  {
    if ps != [] {
      VisitStaysIn(g, ps[0], visited, s);
      VisitAllStaysIn(g, ps[1..], Visit(g, ps[0], visited).0, s);
    }
  }

  /** The order from an entry with nothing visited yet. */
  function Order(g: Dependencies, entry: Path): seq<Path> {
    Visit(g, entry, {}).1
  }

  /**
   The order lists the modules reachable from the entry, each exactly once: it is closed under
   dependencies, and contained in every closed set with the entry.
   */
  lemma OrderIsReachable(g: Dependencies, entry: Path)
    requires Whole(g) && entry in g
    ensures NoDuplicates(Order(g, entry)) && entry in Order(g, entry)
    ensures forall x | x in Order(g, entry) :: x in g && forall d | d in g[x] :: d in Order(g, entry)
    ensures forall s: set<Path> | entry in s && ClosedUnder(g, s) :: forall x | x in Order(g, entry) :: x in s
  {
    VisitEmits(g, entry, {});
    forall s: set<Path> | entry in s && ClosedUnder(g, s)
      ensures forall x | x in Order(g, entry) :: x in s
    {
      VisitStaysIn(g, entry, {}, s);
    }
  }

  // ----- counting -----

  lemma FewerPaths(a: seq<Path>, b: seq<Path>, extra: Path)
    requires NoDuplicates(a) && (forall x | x in a :: x in b) && extra in b && extra !in a
    ensures |a| < |b|
  {
    ElementCount(a);
    ElementCount(b);
    assert Elements(a) + {extra} <= Elements(b);
    SubsetCount(Elements(a) + {extra}, Elements(b));
  }

  // ----- acyclic graphs -----

  ghost predicate DependencyRank(g: Dependencies, rank: Path -> int) {
    forall p, d | p in g && d in g[p] :: rank(d) < rank(p)
  }

  ghost predicate Before(order: seq<Path>, d: Path, k: int) {
    exists i :: 0 <= i < k && i < |order| && order[i] == d
  }

  /** Every dependency of a listed module is done or listed before it. */
  ghost predicate DepsFirst(g: Dependencies, done: set<Path>, order: seq<Path>) {
    forall k, d | 0 <= k < |order| && order[k] in g && d in g[order[k]] :: d in done || Before(order, d, k)
  }

  lemma DepsFirstAppend(g: Dependencies, done: set<Path>, done1: set<Path>, a: seq<Path>, b: seq<Path>)
    requires DepsFirst(g, done, a) && DepsFirst(g, done1, b)
    requires forall x | x in done1 :: x in done || x in a
    ensures DepsFirst(g, done, a + b)
  {
    var c := a + b;
    forall k, d | 0 <= k < |c| && c[k] in g && d in g[c[k]]
      ensures d in done || Before(c, d, k)
    {
      if k < |a| {
        if d !in done {
          var i :| 0 <= i < k && i < |a| && a[i] == d;
          assert c[i] == d;
        }
      } else if d !in done {
        if d in done1 {
          var i :| 0 <= i < |a| && a[i] == d;
          assert c[i] == d;
        } else {
          var i :| 0 <= i < k - |a| && i < |b| && b[i] == d;
          assert c[|a| + i] == d;
        }
      }
    }
  }

  /** Modules being visited, but not done, are higher up: they all have a greater rank. */
  ghost predicate OpenAbove(visited: set<Path>, done: set<Path>, rank: Path -> int, bound: int) {
    done <= visited && forall x | x in visited && x !in done :: rank(x) >= bound
  }

  lemma {:induction false} VisitDepsFirst(g: Dependencies, p: Path, visited: set<Path>, done: set<Path>,
                                          rank: Path -> int)
    requires Whole(g) && p in g && DependencyRank(g, rank) && OpenAbove(visited, done, rank, rank(p) + 1)
    ensures var r := Visit(g, p, visited); DepsFirst(g, done, r.1) && p in done + (r.0 - visited)
    decreases g.Keys - visited, 0
  {
    if p !in visited {
      var deps := VisitAll(g, g[p], visited + {p});
      VisitAllDepsFirst(g, g[p], visited + {p}, done, rank, rank(p));
      VisitAllEmits(g, g[p], visited + {p});
      var order := deps.1 + [p];
      forall k, d | 0 <= k < |order| && order[k] in g && d in g[order[k]]
        ensures d in done || Before(order, d, k)
      {
        if k < |deps.1| {
          if d !in done {
            assert Before(deps.1, d, k);
            var i :| 0 <= i < k && i < |deps.1| && deps.1[i] == d;
            assert order[i] == d;
          }
        } else {
          assert d in g[p];
          if d !in done {
            assert d in deps.1;
            var i :| 0 <= i < |deps.1| && deps.1[i] == d;
            assert order[i] == d;
          }
        }
      }
    }
  }

  lemma {:induction false} VisitAllDepsFirst(g: Dependencies, ps: seq<Path>, visited: set<Path>, done: set<Path>,
                                             rank: Path -> int, bound: int)
    requires Whole(g) && DependencyRank(g, rank) && OpenAbove(visited, done, rank, bound)
    requires forall q | q in ps :: q in g && rank(q) < bound
    ensures var r := VisitAll(g, ps, visited);
      DepsFirst(g, done, r.1) && forall q | q in ps :: q in done + (r.0 - visited)
    decreases g.Keys - visited, |ps|
  {
    if ps != [] {
      var first := Visit(g, ps[0], visited);
      VisitDepsFirst(g, ps[0], visited, done, rank);
      VisitEmits(g, ps[0], visited);
      var done1 := done + (first.0 - visited);
      VisitAllDepsFirst(g, ps[1..], first.0, done1, rank, bound);
      var rest := VisitAll(g, ps[1..], first.0);
      DepsFirstAppend(g, done, done1, first.1, rest.1);
      assert done1 + (rest.0 - first.0) <= done + (rest.0 - visited);
      forall q | q in ps
        ensures q in done1 + (rest.0 - first.0)
      {
        assert q == ps[0] || q in ps[1..];
      }
    }
  }

  /** Without cycles, every module comes after all of its dependencies. */
  lemma OrderIsTopological(g: Dependencies, entry: Path, rank: Path -> int)
    requires Whole(g) && entry in g && DependencyRank(g, rank)
    ensures var order := Order(g, entry);
      forall k, d | 0 <= k < |order| && order[k] in g && d in g[order[k]] :: Before(order, d, k)
  {
    VisitDepsFirst(g, entry, {}, {}, rank);
    VisitEmits(g, entry, {});
  }
}
