/** A bundle as a function of its sources, and what it means. */
module Bundles {
  import opened Wrappers
  import opened Vlq
  import opened Mappings
  import opened SourceMaps

  // ----- text, lines, names and meanings of several sources -----

  function AllContent(sources: seq<Source>): seq<int> {
    if sources == [] then [] else sources[0].content + AllContent(sources[1..])
  }

  function AllLines(sources: seq<Source>): int {
    if sources == [] then 0 else sources[0].sourceLines + AllLines(sources[1..])
  }

  function AllNames(sources: seq<Source>): seq<string> {
    if sources == [] then [] else sources[0].sourceMap.sources + AllNames(sources[1..])
  }

  /** What place makes of each file, given the lines of the files before it. */
  ghost function Pile(place: (Source, int) -> seq<Meaning>, sources: seq<Source>, line: int): seq<Meaning> {
    if sources == [] then [] else place(sources[0], line) + Pile(place, sources[1..], line + sources[0].sourceLines)
  }

  ghost function Placement(): (Source, int) -> seq<Meaning> {
    (s: Source, line: int) => DownAll(SourceMeaning(s), line)
  }

  /** The source maps of the files, one after the other, each below the lines of those before it. */
  ghost function AllMeaning(sources: seq<Source>, line: int): seq<Meaning> {
    Pile(Placement(), sources, line)
  }

  /** The source map of a file can be decoded and stays within the file. */
  ghost predicate Fit(s: Source) {
    Decodable(s) && Fits(s)
  }

  ghost predicate AllFit(sources: seq<Source>) {
    forall s {:trigger Fit(s)} | s in sources :: Fit(s)
  }

  predicate AllClean(sources: seq<Source>) {
    forall s {:trigger CleanMappings(s)} | s in sources :: CleanMappings(s)
  }

  lemma {:induction false} CountNLAppend(a: seq<int>, b: seq<int>)
    ensures CountNL(a + b) == CountNL(a) + CountNL(b)
    decreases |b|
  {
    if b == [] {
      assert a + b == a;
    } else {
      assert (a + b)[..|a + b| - 1] == a + b[..|b| - 1];
      CountNLAppend(a, b[..|b| - 1]);
    }
  }

  /** The lines by which a source map is moved down are the lines of text above it. */
  lemma {:induction false} LinesAreThoseOfTheText(sources: seq<Source>)
    requires forall s | s in sources :: WholeLines(s)
    ensures CountNL(AllContent(sources)) == AllLines(sources)
  {
    if sources != [] {
      assert sources[0] in sources;
      CountNLAppend(sources[0].content, AllContent(sources[1..]));
      LinesAreThoseOfTheText(sources[1..]);
    }
  }

  // ----- adding several sources -----

  /** The sources one after the other; None if one of them has a map that cannot be read. */
  function AddedAll(b: Built, sources: seq<Source>): Option<Built> {
    FoldOption(Added, b, sources)
  }

  lemma AllCleanFirst(sources: seq<Source>)
    requires sources != []
    ensures AllClean(sources) <==> CleanMappings(sources[0]) && AllClean(sources[1..])
    ensures AllFit(sources) <==> Fit(sources[0]) && AllFit(sources[1..])
  {
    forall s
      ensures s in sources <==> s == sources[0] || s in sources[1..]
    {
      assert sources == [sources[0]] + sources[1..];
    }
    assert sources[0] in sources;
  }

  /** What one source adds to the text and to the list of names. */
  lemma AddedKeeps(b: Built, s: Source)
    requires CleanMappings(s)
    ensures var b' := Added(b, s).value;
      && Added(b, s).Some? && b'.output == b.output + s.content && b.sources <= b'.sources
      && (NoDuplicates(b.sources) ==> NoDuplicates(b'.sources))
      && (forall v :: v in b'.sources <==> v in b.sources || v in s.sourceMap.sources)
  {
    RemappedLooks(b.sources, s.sourceMap.sources);
  }

  /** b' is b with the text and the names of the sources. */
  ghost predicate Keeps(b: Built, sources: seq<Source>, b': Built) {
    && b'.output == b.output + AllContent(sources) && b.sources <= b'.sources
    && (NoDuplicates(b.sources) ==> NoDuplicates(b'.sources))
    && (forall v :: v in b'.sources <==> v in b.sources || v in AllNames(sources))
  }

  lemma {:induction false} AllAddedKeep(b: Built, sources: seq<Source>)
    ensures AddedAll(b, sources).Some? <==> AllClean(sources)
    ensures AllClean(sources) ==> Keeps(b, sources, AddedAll(b, sources).value)
    decreases |sources|
  {
    if sources != [] {
      AllCleanFirst(sources);
      if CleanMappings(sources[0]) {
        AddedKeeps(b, sources[0]);
        var b1 := Added(b, sources[0]).value;
        AllAddedKeep(b1, sources[1..]);
        Reassociate(b.output, sources[0].content, AllContent(sources[1..]));
      } else {
        AddedMeans(b, sources[0]);
      }
    }
  }

  /** b' is b with the meaning of the sources below it, if b stands at the start of a line and all of them fit. */
  ghost predicate AllGrow(b: Built, sources: seq<Source>, b': Built) {
    Ready(b) && AllFit(sources) && |b'.sources| <= MAX ==>
      && Ready(b') && Decoded(b').line == Decoded(b).line + AllLines(sources)
      && BuiltMeaning(b') == BuiltMeaning(b) + AllMeaning(sources, Decoded(b).line)
  }

  lemma GrowsThenAllGrow(b: Built, b1: Built, sources: seq<Source>, b': Built)
    requires sources != [] && Grows(b, sources[0], b1) && AllGrow(b1, sources[1..], b') && b1.sources <= b'.sources
    ensures AllGrow(b, sources, b')
  {
    AllCleanFirst(sources);
    var line := Decoded(b).line;
    Reassociate(BuiltMeaning(b), DownAll(SourceMeaning(sources[0]), line),
                AllMeaning(sources[1..], line + sources[0].sourceLines));
  }

  lemma {:induction false} AllAddedMean(b: Built, sources: seq<Source>)
    requires AllClean(sources)
    ensures AddedAll(b, sources).Some? && AllGrow(b, sources, AddedAll(b, sources).value)
    decreases |sources|
  {
    AllAddedKeep(b, sources);
    if sources != [] {
      AllCleanFirst(sources);
      AddedMeans(b, sources[0]);
      var b1 := Added(b, sources[0]).value;
      AllAddedKeep(b1, sources[1..]);
      AllAddedMean(b1, sources[1..]);
      GrowsThenAllGrow(b, b1, sources, AddedAll(b, sources).value);
    }
  }

  // ----- the bundle -----

  /** The text of a bundle, and the source map that its last line carries. */
  datatype Bundled = Bundled(content: seq<int>, sourceMap: SourceMap)

  /** The text of the line that carries a source map. */
  type Link = SourceMap -> seq<int>

  /** The bundle of sources, with this source root; None if a map cannot be read. */
  function BundleOf(sourceRoot: Option<string>, sources: seq<Source>, link: Link): Option<Bundled> {
    match AddedAll(NEW_BUILT, sources)
    case None => None
    case Some(b) =>
      var sourceMap := SourceMap(b.sources, b.mappings, sourceRoot);
      Some(Bundled(b.output + link(sourceMap) + [NEWLINE], sourceMap))
  }

  /**
   A bundle exists exactly if every map can be read. It has the contents of the sources in order and the
   line with the map; the map names exactly the sources that the maps of the files name, each once; and if
   the maps of the files can be decoded and stay within their files, the map means what they mean, each
   moved down below the files before it.
   */
  lemma BundleMeans(sourceRoot: Option<string>, sources: seq<Source>, link: Link)
    ensures BundleOf(sourceRoot, sources, link).Some? <==> AllClean(sources)
    ensures AllClean(sources) ==>
      var r := BundleOf(sourceRoot, sources, link).value;
      && r.content == AllContent(sources) + link(r.sourceMap) + [NEWLINE] && r.sourceMap.sourceRoot == sourceRoot
      && NoDuplicates(r.sourceMap.sources) && (forall v :: v in r.sourceMap.sources <==> v in AllNames(sources))
      && (AllFit(sources) && |r.sourceMap.sources| <= MAX ==>
            Decode(r.sourceMap.mappings).Some?
            && MeanAll(Decode(r.sourceMap.mappings).value, r.sourceMap.sources) == AllMeaning(sources, 0))
  {
    AllAddedKeep(NEW_BUILT, sources);
    if AllClean(sources) {
      AllAddedMean(NEW_BUILT, sources);
      NewIsReady();
      assert [] + AllContent(sources) == AllContent(sources) && [] + AllMeaning(sources, 0) == AllMeaning(sources, 0);
      var b := AddedAll(NEW_BUILT, sources).value;
      if Ready(b) {
        ReadyDecodes(b.mappings);
      }
    }
  }

  lemma ReadyDecodes(bytes: seq<int>)
    requires AtLineStart(Run(START, bytes))
    ensures Decode(bytes) == Some(Run(START, bytes).segments)
  {
  }
}
