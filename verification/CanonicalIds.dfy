/** Ids that name a module the same way are normalised to the same text. */
module CanonicalIds {
  import opened ModuleIds

  function Join(s: seq<string>): string {
    if s == [] then "" else if |s| == 1 then s[0] else s[0] + "/" + Join(s[1..])
  }

  function Ups(n: nat): seq<string> {
    if n == 0 then [] else [".."] + Ups(n - 1)
  }

  /** The shortest id with a given meaning. */
  function Render(p: Place): string {
    Join(Ups(p.ups) + p.names)
  }

  lemma {:induction false} JoinSplit(r: string)
    ensures Join(Split(r)) == r
    decreases |r|
  {
    var j := SegmentEnd(r, 0);
    if j < |r| {
      JoinSplit(r[j + 1..]);
      assert Split(r)[1..] == Split(r[j + 1..]);
      assert r == r[..j] + "/" + r[j + 1..];
    }
  }

  lemma {:induction false} JoinConcat(a: seq<string>, b: seq<string>)
    requires a != [] && b != []
    ensures Join(a + b) == Join(a) + "/" + Join(b)
    decreases |a|
  {
    assert (a + b)[1..] == a[1..] + b;
    if |a| == 1 {
      assert (a + b)[1..] == b;
    } else {
      JoinConcat(a[1..], b);
      assert a[0] + "/" + (Join(a[1..]) + "/" + Join(b)) == (a[0] + "/" + Join(a[1..])) + "/" + Join(b);
    }
  }

  lemma {:induction false} SegmentsHaveNoSlash(r: string, k: nat)
    requires k < |Split(r)|
    ensures '/' !in Split(r)[k]
    decreases |r|
  {
    NoSlashBefore(r, 0);
    var j := SegmentEnd(r, 0);
    assert r[0..j] == r[..j];
    if j == |r| {
      assert r[..j] == r;
    } else if k > 0 {
      SegmentsHaveNoSlash(r[j + 1..], k - 1);
    }
  }

  // ----- the segments of a normal id -----

  predicate NormalSegments(s: seq<string>) {
    && (forall k :: 0 <= k < |s| ==> s[k] != ".")
    && (forall k :: 0 < k < |s| && s[k] == ".." ==> s[k - 1] == "..")
  }

  /** The text around a segment that is not the last one. */
  lemma AroundSegment(s: seq<string>, k: nat) returns (i: nat)
    requires k + 1 < |s|
    ensures i <= |Join(s)| && Join(s)[i..] == s[k] + "/" + Join(s[k + 1..])
    ensures if k == 0 then i == 0 else i > 0 && Join(s)[i - 1] == '/'
  {
    var rest := [s[k]] + s[k + 1..];
    JoinConcat([s[k]], s[k + 1..]);
    if k == 0 {
      assert s == rest;
      i := 0;
    } else {
      assert s == s[..k] + rest;
      JoinConcat(s[..k], rest);
      i := |Join(s[..k])| + 1;
    }
  }

  lemma NoDotSegment(r: string, k: nat)
    requires Normal(r) && k + 1 < |Split(r)|
    ensures Split(r)[k] != "."
  {
    JoinSplit(r);
    var i := AroundSegment(Split(r), k);
    if Split(r)[k] == "." {
      var tail := "." + "/" + Join(Split(r)[k + 1..]);
      assert r[i..] == tail && tail[0] == '.' && tail[1] == '/';
      assert r[i] == '.' && r[i + 1] == '/';
      assert k > 0 ==> DotAt(r, i - 1);
    }
  }

  lemma CancelsFrom(r: string, i: nat, x: string, b: string)
    requires i <= |r| && r[i..] == x + "/../" + b && x != "" && x != ".." && '/' !in x
    ensures CancelsAt(r, i)
  {
    var j := i + |x|;
    assert r[i..][..|x|] == x;
    assert r[i..j] == x;
    assert r[j..] == r[i..][|x|..] == "/../" + b;
    assert r[j] == '/' && r[j + 1] == '.' && r[j + 2] == '.' && r[j + 3] == '/';
    SegmentEndIs(r, i, j);
  }

  lemma NameThenUp(s: seq<string>, k: nat) returns (i: nat)
    requires k + 2 < |s| && s[k + 1] == ".."
    ensures i <= |Join(s)| && Join(s)[i..] == s[k] + "/../" + Join(s[k + 2..])
    ensures if k == 0 then i == 0 else i > 0 && Join(s)[i - 1] == '/'
  {
    i := AroundSegment(s, k);
    assert s[k + 1..] == [".."] + s[k + 2..];
    JoinConcat([".."], s[k + 2..]);
    assert s[k] + "/" + (".." + "/" + Join(s[k + 2..])) == s[k] + "/../" + Join(s[k + 2..]);
  }

  lemma NoUpAfterName(r: string, k: nat)
    requires Normal(r) && k + 2 < |Split(r)| && Split(r)[k] != "" && Split(r)[k + 1] == ".."
    ensures Split(r)[k] == ".."
  {
    JoinSplit(r);
    var s := Split(r);
    var i := NameThenUp(s, k);
    if s[k] != ".." {
      SegmentsHaveNoSlash(r, k);
      CancelsFrom(r, i, s[k], Join(s[k + 2..]));
      assert k > 0 ==> UpAt(r, i - 1);
    }
  }

  lemma {:induction false} TameUntil(p: Place, a: seq<string>, b: seq<string>)
    requires TameFrom(p, a + b)
    ensures TameFrom(Walk(p, a), b)
    decreases |a|
  {
    if a == [] {
      assert a + b == b;
    } else {
      assert (a + b)[0] == a[0] && (a + b)[1..] == a[1..] + b;
      TameUntil(Go(p, a[0]), a[1..], b);
    }
  }

  /** A tame walk does not go back up right after a name, except by a name and ".." that are not the end. */
  lemma NameBeforeUp(r: string, k: nat)
    requires Tame(r) && k + 1 < |Split(r)| && Split(r)[k + 1] == ".." && Split(r)[k] != "." && Split(r)[k] != ".."
    ensures Split(r)[k] != "" && k + 2 < |Split(r)|
  {
    var s, start := Split(r), Place(0, []);
    assert s == s[..k + 1] + s[k + 1..] && s[..k + 1] == s[..k] + [s[k]];
    TameUntil(start, s[..k + 1], s[k + 1..]);
    WalkOn(start, s[..k], [s[k]]);
    var p := Walk(start, s[..k]);
    assert [s[k]][1..] == [];
    assert Walk(p, [s[k]]) == Go(p, s[k]);
    assert s[k + 1..][0] == "..";
  }

  lemma NoDotAtEnd(r: string)
    requires Tame(r)
    ensures Split(r)[|Split(r)| - 1] != "."
  {
    var s := Split(r);
    var n := |s| - 1;
    assert s == s[..n] + [s[n]];
    TameUntil(Place(0, []), s[..n], [s[n]]);
  }

  lemma NormalIdSegments(r: string)
    requires Normal(r) && Tame(r)
    ensures NormalSegments(Split(r))
  {
    var s := Split(r);
    NoDotAtEnd(r);
    forall k | 0 <= k < |s| ensures s[k] != "." {
      if k + 1 < |s| {
        NoDotSegment(r, k);
      }
    }
    forall k | 0 < k < |s| && s[k] == ".." ensures s[k - 1] == ".." {
      if s[k - 1] != ".." {
        NameBeforeUp(r, k - 1);
        NoUpAfterName(r, k - 1);
      }
    }
  }

  // ----- walking along them goes up first and then down -----

  lemma {:induction false} WalkNames(p: Place, s: seq<string>)
    requires forall k :: 0 <= k < |s| ==> s[k] != "." && s[k] != ".."
    ensures Walk(p, s) == p.(names := p.names + s)
    decreases |s|
  {
    if s != [] {
      WalkNames(Go(p, s[0]), s[1..]);
      assert (p.names + [s[0]]) + s[1..] == p.names + s;
    } else {
      assert p.names + s == p.names;
    }
  }

  lemma {:induction false} NamesAfterName(s: seq<string>, k: nat)
    requires NormalSegments(s) && s != [] && s[0] != ".." && k < |s|
    ensures s[k] != ".."
    decreases k
  {
    if k > 0 {
      NamesAfterName(s, k - 1);
    }
  }

  lemma {:induction false} UpsSnoc(n: nat)
    ensures Ups(n) + [".."] == Ups(n + 1)
  {
    if n > 0 {
      UpsSnoc(n - 1);
      assert Ups(n) + [".."] == [".."] + (Ups(n - 1) + [".."]);
    }
  }

  lemma {:induction false} WalkNormal(n: nat, s: seq<string>)
    requires NormalSegments(s)
    ensures var p := Walk(Place(n, []), s); Ups(p.ups) + p.names == Ups(n) + s
    decreases |s|
  {
    if s != [] && s[0] == ".." {
      WalkNormal(n + 1, s[1..]);
      UpsSnoc(n);
      assert Ups(n) + s == (Ups(n) + [".."]) + s[1..];
    } else {
      forall k | 0 <= k < |s| ensures s[k] != "." && s[k] != ".." {
        NamesAfterName(s, k);
      }
      WalkNames(Place(n, []), s);
      assert [] + s == s;
    }
  }

  // ----- the shortest text for a place -----

  predicate PlainName(x: string) {
    '/' !in x && x != "." && x != ".."
  }

  lemma {:induction false} WalkedNamesArePlain(p: Place, s: seq<string>)
    requires (forall x :: x in p.names ==> PlainName(x)) && forall k :: 0 <= k < |s| ==> '/' !in s[k]
    ensures forall x :: x in Walk(p, s).names ==> PlainName(x)
    decreases |s|
  {
    if s != [] {
      var p' := Go(p, s[0]);
      forall x | x in p'.names ensures PlainName(x) {
        assert x == s[0] || x in p.names;
      }
      WalkedNamesArePlain(p', s[1..]);
    }
  }

  lemma {:induction false} SplitJoin(s: seq<string>)
    requires s != [] && forall k :: 0 <= k < |s| ==> '/' !in s[k]
    ensures Split(Join(s)) == s
    decreases |s|
  {
    SplitOne(s[0]);
    if |s| > 1 {
      SplitJoin(s[1..]);
      SplitAtSlash(s[0], Join(s[1..]));
    }
  }

  lemma {:induction false} UpsThenNamesAreTame(n: nat, m: nat, names: seq<string>)
    requires forall x :: x in names ==> PlainName(x)
    ensures TameFrom(Place(n, []), Ups(m) + names)
    decreases m
  {
    if m == 0 {
      assert Ups(0) + names == names;
      NamesAreTame(Place(n, []), names);
    } else {
      assert (Ups(m) + names)[0] == ".." && (Ups(m) + names)[1..] == Ups(m - 1) + names;
      UpsThenNamesAreTame(n + 1, m - 1, names);
    }
  }

  lemma {:induction false} NamesAreTame(p: Place, names: seq<string>)
    requires forall x :: x in names ==> PlainName(x)
    ensures TameFrom(p, names)
    decreases |names|
  {
    if names != [] {
      assert names[0] in names;
      NamesAreTame(Go(p, names[0]), names[1..]);
    }
  }

  lemma {:induction false} UpsHaveNoSlash(m: nat, k: nat)
    requires k < |Ups(m)|
    ensures Ups(m)[k] == ".."
    decreases m
  {
    if k > 0 {
      UpsHaveNoSlash(m - 1, k - 1);
    }
  }

  /** The shortest text of a place has a tame walk, unless the place is where one started. */
  lemma RenderIsTame(p: Place)
    requires (forall x :: x in p.names ==> PlainName(x)) && Ups(p.ups) + p.names != []
    ensures Tame(Render(p)) && Split(Render(p)) == Ups(p.ups) + p.names
  {
    var s := Ups(p.ups) + p.names;
    forall k | 0 <= k < |s| ensures '/' !in s[k] {
      if k < |Ups(p.ups)| {
        UpsHaveNoSlash(p.ups, k);
      } else {
        assert s[k] in p.names;
      }
    }
    SplitJoin(s);
    UpsThenNamesAreTame(0, p.ups, p.names);
  }

  lemma MeaningIsPlain(r: string)
    ensures forall x :: x in Meaning(r).names ==> PlainName(x)
  {
    forall k | 0 <= k < |Split(r)| ensures '/' !in Split(r)[k] {
      SegmentsHaveNoSlash(r, k);
    }
    WalkedNamesArePlain(Place(0, []), Split(r));
  }

  lemma EmptyTextIsAName()
    ensures Meaning("") == Place(0, [""])
  {
    SplitOne("");
    assert [""][1..] == [] && Go(Place(0, []), "") == Place(0, [""]);
    assert Walk(Place(0, []), [""]) == Walk(Place(0, [""]), []);
  }

  /**
   An id becomes the shortest text for its place if and only if its walk is tame: "." and a way back up
   are not its last segment, and no ".." removes an empty name.
   */
  lemma NormalizedIsShortestIff(moduleId: string)
    ensures NormalizedId(moduleId) == Render(Meaning(moduleId)) <==> Tame(moduleId)
  {
    var r, p := NormalizedId(moduleId), Meaning(moduleId);
    NormalizedIsNormal(moduleId);
    if Tame(moduleId) {
      NormalIdSegments(r);
      WalkNormal(0, Split(r));
      assert Ups(0) + Split(r) == Split(r);
      JoinSplit(r);
    }
    if r == Render(p) {
      MeaningIsPlain(moduleId);
      EmptyTextIsAName();
      assert Ups(p.ups) + p.names != [];
      RenderIsTame(p);
    }
  }

  /** Two such ids get the same text if and only if they lead to the same place. */
  lemma SameTextIffSamePlace(a: string, b: string)
    requires Tame(a) && Tame(b)
    ensures NormalizedId(a) == NormalizedId(b) <==> Meaning(a) == Meaning(b)
  {
    NormalizedIsShortestIff(a);
    NormalizedIsShortestIff(b);
    NormalizedIsNormal(a);
    NormalizedIsNormal(b);
  }

  // ----- ids seen from a module -----

  /** Up to and including the last slash; nothing if there is none. */
  function FromModulePath(fromModuleId: string): string {
    if fromModuleId == "" || fromModuleId[|fromModuleId| - 1] == '/' then fromModuleId
    else FromModulePath(fromModuleId[..|fromModuleId| - 1])
  }

  predicate StartsWith(s: string, prefix: string) {
    prefix <= s
  }

  predicate IsAbsolutePath(url: string) {
    StartsWith(url, "http://") || StartsWith(url, "https://") || StartsWith(url, "file://") || StartsWith(url, "/")
  }

  predicate IsRelative(moduleId: string) {
    !IsAbsolutePath(moduleId) && (StartsWith(moduleId, "./") || StartsWith(moduleId, "../"))
  }

  function ResolveModule(fromModuleId: string, moduleId: string): string {
    if IsRelative(moduleId) then NormalizedId(FromModulePath(fromModuleId) + moduleId) else moduleId
  }

  lemma {:induction false} DirectoryAndName(from: string) returns (name: string)
    ensures '/' !in name && from == FromModulePath(from) + name
    ensures FromModulePath(from) == "" || FromModulePath(from)[|FromModulePath(from)| - 1] == '/'
    decreases |from|
  {
    if from == "" || from[|from| - 1] == '/' {
      name := "";
    } else {
      name := DirectoryAndName(from[..|from| - 1]);
      name := name + [from[|from| - 1]];
    }
  }

  /** The directory of a module: all its segments but the last. */
  function Directory(fromModuleId: string): seq<string> {
    Split(fromModuleId)[..|Split(fromModuleId)| - 1]
  }

  lemma SplitAfterDirectory(from: string, rest: string)
    ensures Split(FromModulePath(from) + rest) == Directory(from) + Split(rest)
  {
    var name := DirectoryAndName(from);
    var path := FromModulePath(from);
    SplitOne(name);
    if path == "" {
      assert path + rest == rest && path + name == name;
    } else {
      var dir := path[..|path| - 1];
      assert path + rest == dir + "/" + rest && path + name == dir + "/" + name;
      SplitAtSlash(dir, rest);
      SplitAtSlash(dir, name);
    }
  }

  /** A relative id leads where it says, seen from the directory of the module that asks; others stay. */
  lemma ResolvedFromTheDirectory(fromModuleId: string, moduleId: string)
    ensures IsRelative(moduleId) ==>
      Meaning(ResolveModule(fromModuleId, moduleId))
        == Walk(Walk(Place(0, []), Directory(fromModuleId)), Split(moduleId))
    ensures !IsRelative(moduleId) ==> ResolveModule(fromModuleId, moduleId) == moduleId
  {
    NormalizedIsNormal(FromModulePath(fromModuleId) + moduleId);
    SplitAfterDirectory(fromModuleId, moduleId);
    WalkOn(Place(0, []), Directory(fromModuleId), Split(moduleId));
  }

  /** Without a name at the end the text may stay longer than its place needs. */
  lemma TrailingUpStays()
    ensures NormalizedId("a/..") == "a/.." && Meaning("a/..") == Place(0, [])
  {
    var r := "a/..";
    assert r[3] == '.';
    NormalStays(r);
    SplitOne("..");
    SplitOne("a");
    SplitAtSlash("a", "..");
    assert r == "a" + "/" + "..";
    var start, inA := Place(0, []), Place(0, ["a"]);
    assert Split(r) == ["a"] + [".."] && ["a"][1..] == [] && [".."][1..] == [];
    assert Go(start, "a") == inA;
    assert Go(inA, "..") == start;
    WalkOn(start, ["a"], [".."]);
    assert Walk(start, ["a"]) == Walk(inA, []) == inA;
    assert Walk(inA, [".."]) == Walk(start, []) == start;
  }
}
