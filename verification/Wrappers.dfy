/** Failure-carrying values shared by the modules of this project. */
module Wrappers {

  datatype Option<+T> = None | Some(value: T) {
    function GetOr(default: T): T {
      match this
      case Some(v) => v
      case None => default
    }
  }

  datatype Result<+T, +E> = Ok(value: T) | Err(error: E)

  /** f along xs, until it fails. */
  function FoldOption<S, T>(f: (S, T) -> Option<S>, s: S, xs: seq<T>): Option<S> {
    if xs == [] then Some(s)
    else match f(s, xs[0])
      case None => None
      case Some(next) => FoldOption(f, next, xs[1..])
  }

  lemma {:induction false} FoldAppend<S, T>(f: (S, T) -> Option<S>, s: S, xs: seq<T>, ys: seq<T>)
    ensures FoldOption(f, s, xs + ys)
         == match FoldOption(f, s, xs)
            case None => None
            case Some(next) => FoldOption(f, next, ys)
    decreases |xs|
  {
    if xs == [] {
      assert xs + ys == ys;
    } else {
      assert (xs + ys)[0] == xs[0] && (xs + ys)[1..] == xs[1..] + ys;
      if f(s, xs[0]).Some? {
        FoldAppend(f, f(s, xs[0]).value, xs[1..], ys);
      }
    }
  }

  lemma FoldOne<S, T>(f: (S, T) -> Option<S>, s: S, x: T)
    ensures FoldOption(f, s, [x]) == f(s, x)
  {
    assert [x][1..] == [];
  }

  lemma Reassociate<T>(a: seq<T>, b: seq<T>, c: seq<T>)
    ensures a + (b + c) == a + b + c
  {
  }

  predicate NoDuplicates<T(==)>(s: seq<T>) {
    forall i, j :: 0 <= i < j < |s| ==> s[i] != s[j]
  }

  lemma NoDuplicatesSnoc<T>(s: seq<T>, x: T)
    requires NoDuplicates(s) && x !in s
    ensures NoDuplicates(s + [x])
  {
  }

  function Elements<T>(s: seq<T>): set<T> {
    set x | x in s
  }

  lemma {:induction false} ElementCount<T>(s: seq<T>)
    ensures |Elements(s)| <= |s|
    ensures NoDuplicates(s) ==> |Elements(s)| == |s|
  {
    if s != [] {
      ElementCount(s[1..]);
      assert Elements(s) == Elements(s[1..]) + {s[0]};
    }
  }

  lemma SubsetCount<T>(a: set<T>, b: set<T>)
    requires a <= b
    ensures |a| <= |b|
  {
    assert b == a + (b - a);
  }

  /** Some element of a non-empty set. */
  ghost function PickFrom<T>(s: set<T>): (x: T)
    requires s != {}
    ensures x in s
  {
    var x :| x in s;
    x
  }

  /** Some element of a non-empty multiset. */
  ghost function PickFromBag<T>(s: multiset<T>): (x: T)
    requires |s| > 0
    ensures x in s
  {
    var x :| x in s;
    x
  }
}
