/** Normalising module ids: rewriting of the text, and what the text means as a path. */
module ModuleIds {

  // ----- the patterns -----

  /** "/./" at position i. */
  predicate DotAt(r: string, i: nat) {
    i + 3 <= |r| && r[i] == '/' && r[i + 1] == '.' && r[i + 2] == '/'
  }

  /** The end of the segment that covers position i. */
  function SegmentEnd(r: string, i: nat): (j: nat)
    requires i <= |r|
    ensures i <= j <= |r| && (j < |r| ==> r[j] == '/')
    decreases |r| - i
  {
    if i == |r| || r[i] == '/' then i else SegmentEnd(r, i + 1)
  }

  lemma {:induction false} NoSlashBefore(r: string, i: nat)
    requires i <= |r|
    ensures '/' !in r[i..SegmentEnd(r, i)]
    decreases |r| - i
  {
    if i < |r| && r[i] != '/' {
      NoSlashBefore(r, i + 1);
      assert r[i..SegmentEnd(r, i)] == [r[i]] + r[i + 1..SegmentEnd(r, i)];
    }
  }

  /** A non-empty segment other than ".." at position i, with "/../" behind it. */
  predicate CancelsAt(r: string, i: nat) {
    i <= |r| &&
    var j := SegmentEnd(r, i);
    j > i && r[i..j] != ".." && j + 4 <= |r| && r[j + 1] == '.' && r[j + 2] == '.' && r[j + 3] == '/'
  }

  predicate UpAt(r: string, i: nat) {
    i < |r| && r[i] == '/' && CancelsAt(r, i + 1)
  }

  /** The leftmost match from position i on, or the length of the text. */
  function FirstDot(r: string, i: nat): (k: nat)
    requires i <= |r|
    ensures i <= k <= |r| && (k < |r| ==> DotAt(r, k))
    decreases |r| - i
  {
    if i == |r| || DotAt(r, i) then i else FirstDot(r, i + 1)
  }

  lemma {:induction false} NoDotBefore(r: string, i: nat, m: nat)
    requires i <= |r| && i <= m < FirstDot(r, i)
    ensures !DotAt(r, m)
    decreases |r| - i
  {
    if i < m {
      NoDotBefore(r, i + 1, m);
    }
  }

  function FirstUp(r: string, i: nat): (k: nat)
    requires i <= |r|
    ensures i <= k <= |r| && (k < |r| ==> UpAt(r, k))
    decreases |r| - i
  {
    if i == |r| || UpAt(r, i) then i else FirstUp(r, i + 1)
  }

  lemma {:induction false} NoUpBefore(r: string, i: nat, m: nat)
    requires i <= |r| && i <= m < FirstUp(r, i)
    ensures !UpAt(r, m)
    decreases |r| - i
  {
    if i < m {
      NoUpBefore(r, i + 1, m);
    }
  }

  // ----- the rewriting -----

  /** The leftmost "/./" becomes "/". */
  function ReplaceDot(r: string): (r': string)
    requires FirstDot(r, 0) < |r|
    ensures |r'| < |r|
  {
    var i := FirstDot(r, 0);
    r[..i] + r[i + 2..]
  }

  function RemoveDots(r: string): string
    decreases |r|
  {
    if FirstDot(r, 0) < |r| then RemoveDots(ReplaceDot(r)) else r
  }

  function DropHere(r: string): string {
    if |r| >= 2 && r[0] == '.' && r[1] == '/' then r[2..] else r
  }

  /** The leftmost "/aa/../" becomes "/". */
  function ReplaceUp(r: string): (r': string)
    requires FirstUp(r, 0) < |r|
    ensures |r'| < |r|
  {
    var i := FirstUp(r, 0);
    r[..i] + r[SegmentEnd(r, i + 1) + 3..]
  }

  function RemoveUps(r: string): string
    decreases |r|
  {
    if FirstUp(r, 0) < |r| then RemoveUps(ReplaceUp(r)) else r
  }

  function DropFirstUp(r: string): string {
    if CancelsAt(r, 0) then r[SegmentEnd(r, 0) + 4..] else r
  }

  function NormalizedId(moduleId: string): string {
    DropFirstUp(RemoveUps(DropHere(RemoveDots(moduleId))))
  }

  method NormalizeModuleId(moduleId: string) returns (r: string)
    ensures r == NormalizedId(moduleId)
  {
    r := moduleId;
    while FirstDot(r, 0) < |r|
      invariant RemoveDots(r) == RemoveDots(moduleId)
      decreases |r|
    {
      r := ReplaceDot(r);
    }
    r := DropHere(r);
    ghost var relative := r;
    while FirstUp(r, 0) < |r|
      invariant RemoveUps(r) == RemoveUps(relative)
      decreases |r|
    {
      r := ReplaceUp(r);
    }
    r := DropFirstUp(r);
  }

  // ----- what an id means -----

  function Split(r: string): (s: seq<string>)
    ensures |s| > 0
    decreases |r|
  {
    var j := SegmentEnd(r, 0);
    if j == |r| then [r] else [r[..j]] + Split(r[j + 1..])
  }

  /** How many levels up, and then which names down. */
  datatype Place = Place(ups: nat, names: seq<string>)

  function Go(p: Place, segment: string): Place {
    if segment == "." then p
    else if segment != ".." then p.(names := p.names + [segment])
    else if p.names == [] then p.(ups := p.ups + 1)
    else p.(names := p.names[..|p.names| - 1])
  }

  function Walk(p: Place, segments: seq<string>): Place
    decreases |segments|
  {
    if segments == [] then p else Walk(Go(p, segments[0]), segments[1..])
  }

  function Meaning(r: string): Place {
    Walk(Place(0, []), Split(r))
  }

  lemma {:induction false} WalkOn(p: Place, a: seq<string>, b: seq<string>)
    ensures Walk(p, a + b) == Walk(Walk(p, a), b)
    decreases |a|
  {
    if a == [] {
      assert a + b == b;
    } else {
      assert (a + b)[0] == a[0] && (a + b)[1..] == a[1..] + b;
      WalkOn(Go(p, a[0]), a[1..], b);
    }
  }

  lemma {:induction false} SegmentEndOfSuffix(r: string, k: nat, i: nat)
    requires k + i <= |r|
    ensures SegmentEnd(r, k + i) == k + SegmentEnd(r[k..], i)
    decreases |r| - i
  {
    if k + i < |r| && r[k + i] != '/' {
      SegmentEndOfSuffix(r, k, i + 1);
    }
  }

  lemma {:induction false} SegmentEndIs(r: string, i: nat, j: nat)
    requires i <= j <= |r| && (j < |r| ==> r[j] == '/') && '/' !in r[i..j]
    ensures SegmentEnd(r, i) == j
    decreases j - i
  {
    if i < j {
      assert r[i..j] == [r[i]] + r[i + 1..j];
      SegmentEndIs(r, i + 1, j);
    }
  }

  lemma {:induction false} SplitAtSlash(a: string, b: string)
    ensures Split(a + "/" + b) == Split(a) + Split(b)
    decreases |a|
  {
    var r, j := a + "/" + b, SegmentEnd(a, 0);
    NoSlashBefore(a, 0);
    assert r[..j] == a[..j];
    SegmentEndIs(r, 0, j);
    if j == |a| {
      assert r[..j] == a && r[j + 1..] == b;
    } else {
      assert r[..j] == a[..j] && r[j + 1..] == a[j + 1..] + "/" + b;
      SplitAtSlash(a[j + 1..], b);
      assert [a[..j]] + (Split(a[j + 1..]) + Split(b)) == ([a[..j]] + Split(a[j + 1..])) + Split(b);
    }
  }

  lemma SplitOne(x: string)
    requires '/' !in x
    ensures Split(x) == [x]
  {
    SegmentEndIs(x, 0, |x|);
  }

  // ----- every rewrite keeps the meaning -----

  /**
   Walking along never stops at ".", never goes back up with the last segment, and never goes back up
   from an empty name: the steps that the patterns of the rewriting do not know.
   */
  predicate TameFrom(p: Place, segments: seq<string>)
    decreases |segments|
  {
    segments == [] ||
    var s, last := segments[0], |segments| == 1;
    && (s == "." ==> !last)
    && (s == ".." && p.names != [] ==> !last && p.names[|p.names| - 1] != "")
    && TameFrom(Go(p, s), segments[1..])
  }

  predicate Tame(r: string) {
    TameFrom(Place(0, []), Split(r))
  }

  predicate SameId(r: string, r': string) {
    Meaning(r') == Meaning(r) && (Tame(r) <==> Tame(r'))
  }

  /** Segments that lead nowhere. */
  predicate Detour(mid: seq<string>) {
    mid == ["."] || (|mid| == 2 && mid[0] != "" && mid[0] != "." && mid[0] != ".." && mid[1] == "..")
  }

  lemma DetourKeeps(mid: seq<string>, b: seq<string>, p: Place)
    requires Detour(mid) && b != []
    ensures Walk(p, mid + b) == Walk(p, b)
    ensures TameFrom(p, mid + b) <==> TameFrom(p, b)
  {
    if |mid| == 2 {
      var inside := Go(p, mid[0]);
      var back := [".."] + b;
      assert inside.names[..|inside.names| - 1] == p.names;
      assert (mid + b)[0] == mid[0] && (mid + b)[1..] == back && back[0] == ".." && back[1..] == b;
      assert Go(inside, "..") == p;
    } else {
      assert (mid + b)[0] == "." && (mid + b)[1..] == b;
    }
  }

  lemma {:induction false} RemovingKeeps(a: seq<string>, mid: seq<string>, b: seq<string>, p: Place)
    requires Detour(mid) && b != []
    ensures Walk(p, a + mid + b) == Walk(p, a + b)
    ensures TameFrom(p, a + mid + b) <==> TameFrom(p, a + b)
    decreases |a|
  {
    if a == [] {
      assert a + mid + b == mid + b && a + b == b;
      DetourKeeps(mid, b, p);
    } else {
      assert (a + mid + b)[0] == a[0] && (a + mid + b)[1..] == a[1..] + mid + b;
      assert (a + b)[0] == a[0] && (a + b)[1..] == a[1..] + b;
      RemovingKeeps(a[1..], mid, b, Go(p, a[0]));
    }
  }

  lemma DotIsNothing(a: string, b: string)
    ensures SameId(a + "/./" + b, a + "/" + b)
  {
    assert a + "/./" + b == a + "/" + ("." + "/" + b);
    SplitAtSlash(a, "." + "/" + b);
    SplitAtSlash(".", b);
    SplitOne(".");
    SplitAtSlash(a, b);
    assert Split(a + "/./" + b) == Split(a) + ["."] + Split(b);
    RemovingKeeps(Split(a), ["."], Split(b), Place(0, []));
  }

  lemma HereIsNothing(b: string)
    ensures SameId("./" + b, b)
  {
    assert "./" + b == "." + "/" + b;
    SplitAtSlash(".", b);
    SplitOne(".");
    assert Split("./" + b) == [] + ["."] + Split(b) && [] + Split(b) == Split(b);
    RemovingKeeps([], ["."], Split(b), Place(0, []));
  }

  lemma SplitUp(x: string, b: string)
    requires '/' !in x
    ensures Split(x + "/../" + b) == [x, ".."] + Split(b)
  {
    assert x + "/../" + b == x + "/" + (".." + "/" + b);
    SplitAtSlash(x, ".." + "/" + b);
    SplitAtSlash("..", b);
    SplitOne(x);
    SplitOne("..");
  }

  lemma UpUndoesName(a: string, x: string, b: string)
    requires '/' !in x && x != "" && x != "." && x != ".."
    ensures SameId(a + "/" + x + "/../" + b, a + "/" + b)
  {
    assert a + "/" + x + "/../" + b == a + "/" + (x + "/../" + b);
    SplitAtSlash(a, x + "/../" + b);
    SplitUp(x, b);
    SplitAtSlash(a, b);
    assert Split(a + "/" + x + "/../" + b) == Split(a) + [x, ".."] + Split(b);
    RemovingKeeps(Split(a), [x, ".."], Split(b), Place(0, []));
  }

  lemma UpUndoesFirstName(x: string, b: string)
    requires '/' !in x && x != "" && x != "." && x != ".."
    ensures SameId(x + "/../" + b, b)
  {
    SplitUp(x, b);
    assert Split(x + "/../" + b) == [] + [x, ".."] + Split(b) && [] + Split(b) == Split(b);
    RemovingKeeps([], [x, ".."], Split(b), Place(0, []));
  }

  // ----- the text that comes out -----

  ghost predicate NoDots(r: string) {
    forall i {:trigger DotAt(r, i)} :: 0 <= i < |r| ==> !DotAt(r, i)
  }

  ghost predicate NoUps(r: string) {
    forall i {:trigger UpAt(r, i)} :: 0 <= i < |r| ==> !UpAt(r, i)
  }

  predicate StartsHere(r: string) {
    |r| >= 2 && r[0] == '.' && r[1] == '/'
  }

  /** None of the four patterns is left. */
  ghost predicate Normal(r: string) {
    NoDots(r) && !StartsHere(r) && NoUps(r) && !CancelsAt(r, 0)
  }

  lemma {:induction false} RemoveDotsResult(r: string)
    ensures NoDots(RemoveDots(r)) && SameId(r, RemoveDots(r))
    decreases |r|
  {
    var i := FirstDot(r, 0);
    if i < |r| {
      var a, b := r[..i], r[i + 3..];
      assert r == a + "/./" + b && ReplaceDot(r) == a + "/" + b;
      DotIsNothing(a, b);
      RemoveDotsResult(ReplaceDot(r));
    } else {
      forall k {:trigger DotAt(r, k)} | 0 <= k < |r| ensures !DotAt(r, k) {
        NoDotBefore(r, 0, k);
      }
    }
  }

  lemma DropHereResult(r: string)
    requires NoDots(r)
    ensures NoDots(DropHere(r)) && !StartsHere(DropHere(r)) && SameId(r, DropHere(r))
  {
    if StartsHere(r) {
      var b := r[2..];
      assert r == "./" + b;
      HereIsNothing(b);
      forall k {:trigger DotAt(b, k)} | 0 <= k < |b| ensures !DotAt(b, k) {
        assert !DotAt(r, k + 2);
      }
      assert !DotAt(r, 1);
    }
  }

  /** What a match of the "up" pattern looks like. */
  lemma CancelsShape(r: string, i: nat) returns (x: string, b: string)
    requires CancelsAt(r, i)
    ensures '/' !in x && x != "" && x != ".." && r[i..] == x + "/../" + b
    ensures SegmentEnd(r, i) == i + |x| && b == r[i + |x| + 4..]
  {
    NoSlashBefore(r, i);
    var j := SegmentEnd(r, i);
    x, b := r[i..j], r[j + 4..];
    assert r[j..j + 4] == "/../";
    assert r[i..] == r[i..j] + r[j..j + 4] + r[j + 4..];
  }

  lemma Reassemble(r: string, i: nat, x: string, b: string)
    requires i < |r| && r[i] == '/' && r[i + 1..] == x + "/../" + b
    ensures r == r[..i] + "/" + x + "/../" + b
    ensures r[i + 1 + |x| + 3..] == "/" + b
  {
    assert r == r[..i] + ("/" + r[i + 1..]);
    assert r[i + 1 + |x| + 3..] == r[i + 1..][|x| + 3..];
  }

  lemma UpShape(r: string) returns (a: string, x: string, b: string)
    requires FirstUp(r, 0) < |r|
    ensures '/' !in x && x != "" && x != ".."
    ensures r == a + "/" + x + "/../" + b && ReplaceUp(r) == a + "/" + b
  {
    var i := FirstUp(r, 0);
    a := r[..i];
    x, b := CancelsShape(r, i + 1);
    Reassemble(r, i, x, b);
    assert a + ("/" + b) == a + "/" + b;
  }

  lemma ShorteningKeepsNoDots(a: string, mid: string, b: string)
    requires NoDots(a + "/" + mid + "/" + b) && !StartsHere(a + "/" + mid + "/" + b)
    ensures NoDots(a + "/" + b) && !StartsHere(a + "/" + b)
  {
    var r, r', n := a + "/" + mid + "/" + b, a + "/" + b, |mid| + 1;
    assert r[|a|] == '/' && r'[|a|] == '/';
    assert r'[|a|..] == r[|a| + n..] && r'[..|a| + 1] == r[..|a| + 1];
    forall k {:trigger DotAt(r', k)} | 0 <= k < |r'| ensures !DotAt(r', k) {
      if k >= |a| {
        assert r'[k..] == r[k + n..];
        assert !DotAt(r, k + n);
      } else {
        assert !DotAt(r, k);
      }
    }
  }

  lemma ReplaceUpResult(r: string)
    requires NoDots(r) && !StartsHere(r) && FirstUp(r, 0) < |r|
    ensures NoDots(ReplaceUp(r)) && !StartsHere(ReplaceUp(r)) && SameId(r, ReplaceUp(r))
  {
    var a, x, b := UpShape(r);
    SegmentIsNoDot(r, a, x, b);
    UpUndoesName(a, x, b);
    Regroup(a, x, b);
    ShorteningKeepsNoDots(a, x + "/..", b);
  }

  lemma Regroup(a: string, x: string, b: string)
    ensures a + "/" + (x + "/..") + "/" + b == a + "/" + x + "/../" + b
  {
  }

  lemma SegmentIsNoDot(r: string, a: string, x: string, b: string)
    requires NoDots(r) && r == a + "/" + x + "/../" + b
    ensures x != "."
  {
    assert !DotAt(r, |a|);
  }

  lemma {:induction false} RemoveUpsResult(r: string)
    requires NoDots(r) && !StartsHere(r)
    ensures var r' := RemoveUps(r);
      NoDots(r') && !StartsHere(r') && NoUps(r') && SameId(r, r')
    decreases |r|
  {
    if FirstUp(r, 0) < |r| {
      ReplaceUpResult(r);
      RemoveUpsResult(ReplaceUp(r));
    } else {
      forall k {:trigger UpAt(r, k)} | 0 <= k < |r| ensures !UpAt(r, k) {
        NoUpBefore(r, 0, k);
      }
    }
  }

  lemma UpInSuffix(r: string, n: nat, i: nat)
    requires n + i <= |r|
    ensures CancelsAt(r[n..], i) <==> CancelsAt(r, n + i)
  {
    SegmentEndOfSuffix(r, n, i);
    var j := SegmentEnd(r[n..], i);
    assert r[n..][i..j] == r[n + i..n + j];
  }

  /** What follows a slash is free of patterns when the whole is. */
  lemma SuffixIsNormal(r: string, n: nat)
    requires NoDots(r) && NoUps(r) && 0 < n <= |r| && r[n - 1] == '/'
    ensures Normal(r[n..])
  {
    var b := r[n..];
    assert !DotAt(r, n - 1);
    forall k {:trigger DotAt(b, k)} | 0 <= k < |b| ensures !DotAt(b, k) {
      assert !DotAt(r, n + k);
    }
    forall k {:trigger UpAt(b, k)} | 0 <= k < |b| ensures !UpAt(b, k) {
      assert !UpAt(r, n + k);
      UpInSuffix(r, n, k + 1);
    }
    assert !UpAt(r, n - 1);
    UpInSuffix(r, n, 0);
  }

  lemma DropFirstUpResult(r: string)
    requires NoDots(r) && !StartsHere(r) && NoUps(r)
    ensures Normal(DropFirstUp(r)) && SameId(r, DropFirstUp(r))
  {
    if CancelsAt(r, 0) {
      var x, b := CancelsShape(r, 0);
      assert r == x + "/../" + b;
      assert r[|x| + 3] == '/';
      UpUndoesFirstName(x, b);
      SuffixIsNormal(r, |x| + 4);
    }
  }

  /** An id keeps its meaning, and no pattern is left in it. */
  lemma NormalizedIsNormal(moduleId: string)
    ensures Normal(NormalizedId(moduleId))
    ensures SameId(moduleId, NormalizedId(moduleId))
  {
    var a := RemoveDots(moduleId);
    RemoveDotsResult(moduleId);
    DropHereResult(a);
    RemoveUpsResult(DropHere(a));
    DropFirstUpResult(RemoveUps(DropHere(a)));
  }

  lemma NormalStays(r: string)
    requires Normal(r)
    ensures NormalizedId(r) == r
  {
    assert FirstDot(r, 0) == |r| == FirstUp(r, 0);
  }

  lemma NormalizingIsIdempotent(moduleId: string)
    ensures NormalizedId(NormalizedId(moduleId)) == NormalizedId(moduleId)
  {
    NormalizedIsNormal(moduleId);
    NormalStays(NormalizedId(moduleId));
  }
}
