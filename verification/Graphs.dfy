/**
 Finite directed graphs as adjacency lists, and the two facts every graph search of the
 project rests on: closed sets trap paths, and a rank excludes cycles.
 */
module Graphs {

  type Graph = map<int, seq<int>>

  ghost predicate Edge(g: Graph, a: int, b: int) {
    a in g && b in g[a]
  }

  /** A walk along edges; only its last vertex may lie outside the domain of the graph. */
  ghost predicate IsWalk(g: Graph, p: seq<int>) {
    |p| > 0 && forall i, j | 0 <= i < j == i + 1 < |p| :: Edge(g, p[i], p[j])
  }

  /** There is a walk of at least one edge from a to b. */
  ghost predicate HasPath(g: Graph, a: int, b: int) {
    exists p :: IsWalk(g, p) && |p| >= 2 && p[0] == a && p[|p| - 1] == b
  }

  ghost predicate Reaches(g: Graph, a: int, b: int) {
    a == b || HasPath(g, a, b)
  }

  ghost predicate Acyclic(g: Graph) {
    forall v :: !HasPath(g, v, v)
  }

  ghost predicate Closed(g: Graph, s: set<int>) {
    forall v, w | v in s && Edge(g, v, w) :: w in s
  }

  /** g' has every edge of g. */
  ghost predicate Extends(g: Graph, g': Graph) {
    forall a, b | Edge(g, a, b) :: Edge(g', a, b)
  }

  lemma EdgeIsPath(g: Graph, a: int, b: int)
    requires Edge(g, a, b)
    ensures HasPath(g, a, b)
  {
    assert IsWalk(g, [a, b]);
  }

  lemma PathThenEdge(g: Graph, a: int, b: int, c: int)
    requires Reaches(g, a, b) && Edge(g, b, c)
    ensures HasPath(g, a, c)
  {
    if a == b {
      EdgeIsPath(g, a, c);
    } else {
      var p :| IsWalk(g, p) && |p| >= 2 && p[0] == a && p[|p| - 1] == b;
      var q := p + [c];
      assert IsWalk(g, q) && q[0] == a && q[|q| - 1] == c;
    }
  }

  lemma EdgeThenPath(g: Graph, a: int, b: int, c: int)
    requires Edge(g, a, b) && Reaches(g, b, c)
    ensures HasPath(g, a, c)
  {
    if b == c {
      EdgeIsPath(g, a, c);
    } else {
      var p :| IsWalk(g, p) && |p| >= 2 && p[0] == b && p[|p| - 1] == c;
      var q := [a] + p;
      assert IsWalk(g, q) && q[0] == a && q[|q| - 1] == c;
    }
  }

  lemma PathMonotone(g: Graph, g': Graph, a: int, b: int)
    requires Extends(g, g') && HasPath(g, a, b)
    ensures HasPath(g', a, b)
  {
    var p :| IsWalk(g, p) && |p| >= 2 && p[0] == a && p[|p| - 1] == b;
    assert IsWalk(g', p);
  }

  /** A walk that starts inside a closed set never leaves it. */
  lemma {:induction false} ClosedTrapsWalk(g: Graph, s: set<int>, p: seq<int>)
    requires Closed(g, s) && IsWalk(g, p) && p[0] in s
    ensures p[|p| - 1] in s
    decreases |p|
  {
    if |p| > 1 {
      var q := p[..|p| - 1];
      assert IsWalk(g, q);
      ClosedTrapsWalk(g, s, q);
      assert Edge(g, p[|p| - 2], p[|p| - 1]);
    }
  }

  lemma ClosedTrapsPaths(g: Graph, s: set<int>, a: int, b: int)
    requires Closed(g, s) && a in s && Reaches(g, a, b)
    ensures b in s
  {
    if a != b {
      var p :| IsWalk(g, p) && |p| >= 2 && p[0] == a && p[|p| - 1] == b;
      ClosedTrapsWalk(g, s, p);
    }
  }

  /** If s holds every defined successor of its members, a walk from s passes through s. */
  lemma {:induction false} WalkStaysSeen(g: Graph, s: set<int>, p: seq<int>)
    requires forall v, w | v in s && Edge(g, v, w) && w in g :: w in s
    requires IsWalk(g, p) && |p| >= 2 && p[0] in s
    ensures p[|p| - 2] in s
    decreases |p|
  {
    if |p| > 2 {
      var q := p[..|p| - 1];
      assert IsWalk(g, q);
      WalkStaysSeen(g, s, q);
      assert Edge(g, p[|p| - 3], p[|p| - 2]) && Edge(g, p[|p| - 2], p[|p| - 1]);
    }
  }

  /** A set of vertices holding its defined successors, none pointing at b, keeps b out of reach. */
  lemma UnseenIsUnreachable(g: Graph, s: set<int>, a: int, b: int)
    requires a in s
    requires forall v, w | v in s && Edge(g, v, w) :: w != b && (w in g ==> w in s)
    ensures !HasPath(g, a, b)
  {
    forall p | IsWalk(g, p) && |p| >= 2 && p[0] == a
      ensures p[|p| - 1] != b
    {
      WalkStaysSeen(g, s, p);
      assert Edge(g, p[|p| - 2], p[|p| - 1]);
    }
  }

  lemma NoPathFromUndefined(g: Graph, a: int, b: int)
    requires a !in g
    ensures !HasPath(g, a, b)
  {
    UnseenIsUnreachable(g, {a}, a, b);
  }

  /** A rank strictly decreases along every edge. */
  ghost predicate Ranks(g: Graph, rank: int -> int) {
    forall v, w | Edge(g, v, w) :: rank(w) < rank(v)
  }

  lemma {:induction false} RankDropsAlongWalk(g: Graph, rank: int -> int, p: seq<int>)
    requires Ranks(g, rank) && IsWalk(g, p) && |p| >= 2
    ensures rank(p[|p| - 1]) < rank(p[0])
    decreases |p|
  {
    var q := p[..|p| - 1];
    assert IsWalk(g, q);
    assert Edge(g, p[|p| - 2], p[|p| - 1]);
    if |p| > 2 {
      RankDropsAlongWalk(g, rank, q);
    }
  }

  lemma RankedIsAcyclic(g: Graph, rank: int -> int)
    requires Ranks(g, rank)
    ensures Acyclic(g)
  {
    forall v
      ensures !HasPath(g, v, v)
    {
      if HasPath(g, v, v) {
        var p :| IsWalk(g, p) && |p| >= 2 && p[0] == v && p[|p| - 1] == v;
        RankDropsAlongWalk(g, rank, p);
      }
    }
  }
}
