/** Sources with their source maps, and what adding one of them to a bundle makes of it. */
module SourceMaps {
  import opened Wrappers
  import opened Vlq
  import opened Mappings
  import opened Transcoding
  import opened Transcoder

  const NEWLINE := 10

  function CountNL(bytes: seq<int>): int {
    if bytes == [] then 0 else CountNL(bytes[..|bytes| - 1]) + if bytes[|bytes| - 1] == NEWLINE then 1 else 0
  }

  datatype SourceMap = SourceMap(sources: seq<string>, mappings: seq<int>, sourceRoot: Option<string>)

  const EMPTY_SOURCE_MAP := SourceMap([], [], None)

  /** A file and its source map; the content of a file that is not empty ends its last line. */
  datatype Source = Source(content: seq<int>, sourceMap: SourceMap, sourceLines: int)

  ghost predicate WholeLines(s: Source) {
    && s.sourceLines == CountNL(s.content)
    && (s.content != [] ==> s.content[|s.content| - 1] == NEWLINE)
  }

  method CountNewLines(b: seq<int>) returns (res: int)
    ensures res == CountNL(b)
  {
    res := 0;
    var i := 0;
    while i < |b|
      invariant 0 <= i <= |b|
      invariant res == CountNL(b[..i])
    {
      assert b[..i + 1][..i] == b[..i];
      if b[i] == NEWLINE {
        res := res + 1;
      }
      i := i + 1;
    }
    assert b[..i] == b;
  }

  /** Without a source map a file has no sources and no mappings. */
  method NewSource(content: seq<int>, sourceMap: Option<SourceMap>) returns (s: Source)
    ensures WholeLines(s)
    ensures s.content == content
            || (s.content == content + [NEWLINE] && content != [] && content[|content| - 1] != NEWLINE)
    ensures s.sourceMap == sourceMap.GetOr(EMPTY_SOURCE_MAP)
  {
    var sourceLines := CountNewLines(content);
    var whole := content;
    if |content| > 0 && content[|content| - 1] != NEWLINE {
      sourceLines := sourceLines + 1;
      whole := content + [NEWLINE];
      assert whole[..|whole| - 1] == content;
    }
    s := Source(whole, sourceMap.GetOr(EMPTY_SOURCE_MAP), sourceLines);
  }

  // ----- what a source map means -----

  /** A segment with its source by name. */
  datatype Meaning =
    | Bare(line: int, col: int)
    | At(line: int, col: int, source: string, origLine: int, origCol: int)
    | Dangling

  function Mean(seg: Segment, sources: seq<string>): Meaning {
    match seg
    case Unmapped(line, col) => Bare(line, col)
    case Mapped(line, col, source, origLine, origCol) =>
      if 0 <= source < |sources| then At(line, col, sources[source], origLine, origCol) else Dangling
  }

  function MeanAll(segs: seq<Segment>, sources: seq<string>): (ms: seq<Meaning>)
    ensures |ms| == |segs| && forall j | 0 <= j < |segs| :: ms[j] == Mean(segs[j], sources)
  {
    seq(|segs|, j requires 0 <= j < |segs| => Mean(segs[j], sources))
  }

  function Down(m: Meaning, lines: int): Meaning {
    match m
    case Bare(line, col) => Bare(line + lines, col)
    case At(line, col, source, origLine, origCol) => At(line + lines, col, source, origLine, origCol)
    case Dangling => Dangling
  }

  function DownAll(ms: seq<Meaning>, lines: int): (r: seq<Meaning>)
    ensures |r| == |ms| && forall j | 0 <= j < |ms| :: r[j] == Down(ms[j], lines)
  {
    seq(|ms|, j requires 0 <= j < |ms| => Down(ms[j], lines))
  }

  /** The mappings of s can be decoded, and name sources of s only. */
  ghost predicate Decodable(s: Source) {
    var d := Separate(Run(START, s.sourceMap.mappings));
    && d.ok
    && forall j | 0 <= j < |d.segments| && d.segments[j].Mapped? :: d.segments[j].source < |s.sourceMap.sources|
  }

  /** The mappings of s speak about lines of s only. */
  ghost predicate Fits(s: Source) {
    var d := Separate(Run(START, s.sourceMap.mappings));
    d.line <= s.sourceLines && forall j | 0 <= j < |d.segments| :: d.segments[j].line < s.sourceLines
  }

  ghost function SourceMeaning(s: Source): seq<Meaning> {
    MeanAll(Separate(Run(START, s.sourceMap.mappings)).segments, s.sourceMap.sources)
  }

  /** Neither a separator nor in the table of the decoder. */
  predicate BadChar(b: int) {
    b != SEMICOLON && b != COMMA && CharToInteger(b) == 255
  }

  /** The transcoder knows every character of the mappings. */
  predicate CleanMappings(s: Source) {
    forall j | 0 <= j < |s.sourceMap.mappings| :: !BadChar(s.sourceMap.mappings[j])
  }

  // ----- the position of a source in the list of all sources -----

  /** remap takes the sources of one file to the same names in the list of all. */
  ghost predicate Looks(names: seq<string>, remap: seq<int>, all: seq<string>) {
    |remap| == |names| && forall i | 0 <= i < |names| :: 0 <= remap[i] < |all| && all[remap[i]] == names[i]
  }

  /** pos is the first position of v, or -1 if there is none. */
  predicate FirstAt(all: seq<string>, v: string, pos: int) {
    if pos < 0 then pos == -1 && v !in all else pos < |all| && all[pos] == v && v !in all[..pos]
  }

  method IndexOf(all: seq<string>, v: string) returns (pos: int)
    ensures FirstAt(all, v, pos)
  {
    pos := 0;
    while pos < |all|
      invariant 0 <= pos <= |all|
      invariant v !in all[..pos]
    {
      if all[pos] == v {
        return;
      }
      pos := pos + 1;
    }
    assert all[..pos] == all;
    pos := -1;
  }

  function Position(all: seq<string>, v: string): (pos: int)
    ensures FirstAt(all, v, pos)
  {
    if all == [] then -1
    else
      var rest := Position(all[1..], v);
      if all[0] == v then 0 else if rest < 0 then -1 else rest + 1
  }

  /** There is one first position. */
  lemma FirstIsUnique(all: seq<string>, v: string, pos: int)
    requires FirstAt(all, v, pos)
    ensures pos == Position(all, v)
  {
  }

  /** The list of all sources with one more name in it, and the place of that name. */
  function Placed(all: seq<string>, v: string): (seq<string>, int) {
    var pos := Position(all, v);
    if pos < 0 then (all + [v], |all|) else (all, pos)
  }

  /** The list of all sources with those of one more file, and where they are in it. */
  function Remapped(all: seq<string>, names: seq<string>): (seq<string>, seq<int>) {
    if names == [] then (all, [])
    else
      var before := Remapped(all, names[..|names| - 1]);
      var last := Placed(before.0, names[|names| - 1]);
      (last.0, before.1 + [last.1])
  }

  lemma RemappedSnoc(all: seq<string>, names: seq<string>, v: string)
    ensures var before := Remapped(all, names);
      Remapped(all, names + [v]) == (Placed(before.0, v).0, before.1 + [Placed(before.0, v).1])
  {
    assert (names + [v])[..|names|] == names;
  }

  /** The list grows by names of the file only, keeps its order, and the table leads to the same names. */
  lemma {:induction false} RemappedLooks(all: seq<string>, names: seq<string>)
    ensures var r := Remapped(all, names);
      && all <= r.0 && |r.0| <= |all| + |names| && Looks(names, r.1, r.0)
      && (NoDuplicates(all) ==> NoDuplicates(r.0))
      && (forall v :: v in r.0 <==> v in all || v in names)
    decreases |names|
  {
    if names != [] {
      var before, v := names[..|names| - 1], names[|names| - 1];
      RemappedLooks(all, before);
      var r := Remapped(all, before);
      if NoDuplicates(all) && v !in r.0 {
        NoDuplicatesSnoc(r.0, v);
      }
      assert names == before + [v];
    }
  }

  /** What the moved segments mean is what the segments meant, further down. */
  lemma MoveKeepsMeaning(segs: seq<Segment>, base: int, names: seq<string>, remap: seq<int>, all: seq<string>)
    requires Looks(names, remap, all)
    requires forall j | 0 <= j < |segs| && segs[j].Mapped? :: 0 <= segs[j].source < |names|
    ensures MeanAll(MoveAll(segs, base, remap), all) == DownAll(MeanAll(segs, names), base)
  {
    var l, r := MeanAll(MoveAll(segs, base, remap), all), DownAll(MeanAll(segs, names), base);
    forall j | 0 <= j < |segs|
      ensures l[j] == r[j]
    {
      assert l[j] == Mean(Move(segs[j], base, remap), all);
    }
  }

  lemma MeanAppend(a: seq<Segment>, b: seq<Segment>, sources: seq<string>)
    ensures MeanAll(a + b, sources) == MeanAll(a, sources) + MeanAll(b, sources)
  {
  }

  lemma MeanLonger(segs: seq<Segment>, sources: seq<string>, more: seq<string>)
    requires sources <= more
    requires forall j | 0 <= j < |segs| && segs[j].Mapped? :: 0 <= segs[j].source < |sources|
    ensures MeanAll(segs, more) == MeanAll(segs, sources)
  {
    forall j | 0 <= j < |segs|
      ensures Mean(segs[j], more) == Mean(segs[j], sources)
    {
    }
  }

  ghost predicate Named(segs: seq<Segment>, sources: seq<string>) {
    forall j | 0 <= j < |segs| && segs[j].Mapped? :: 0 <= segs[j].source < |sources|
  }

  /** Adding the moved segments of a source to the segments so far adds their meaning. */
  lemma MeaningGrows(segs: seq<Segment>, sources: seq<string>, more: seq<Segment>, base: int,
                     names: seq<string>, remap: seq<int>, all: seq<string>)
    requires sources <= all && Looks(names, remap, all) && Named(segs, sources) && Named(more, names)
    ensures MeanAll(segs + MoveAll(more, base, remap), all)
         == MeanAll(segs, sources) + DownAll(MeanAll(more, names), base)
    ensures Named(segs + MoveAll(more, base, remap), all)
  {
    MeanAppend(segs, MoveAll(more, base, remap), all);
    MeanLonger(segs, sources, all);
    MoveKeepsMeaning(more, base, names, remap, all);
    var joined := segs + MoveAll(more, base, remap);
    forall j | 0 <= j < |joined| && joined[j].Mapped?
      ensures 0 <= joined[j].source < |all|
    {
      if j >= |segs| {
        assert joined[j] == Move(more[j - |segs|], base, remap);
      } else {
        assert joined[j] == segs[j];
      }
    }
  }

  // ----- decodable source maps -----

  ghost predicate SourcesInRange(segs: seq<Segment>) {
    forall j | 0 <= j < |segs| && segs[j].Mapped? :: InRange(segs[j].source)
  }

  lemma EatInRange(d: Decoder, b: int)
    requires SourcesInRange(d.segments)
    ensures SourcesInRange(Eat(d, b).segments) && SourcesInRange(Separate(d).segments)
  {
  }

  /** The source indices of decoded segments are in range. */
  lemma {:induction false} DecodedInRange(d: Decoder, bs: seq<int>)
    requires SourcesInRange(d.segments)
    ensures SourcesInRange(Run(d, bs).segments)
    decreases |bs|
  {
    if bs != [] {
      EatInRange(d, bs[0]);
      DecodedInRange(Eat(d, bs[0]), bs[1..]);
    }
  }

  /** A decodable source is good input for the table of its sources. */
  lemma DecodableIsGood(s: Source, remap: seq<int>, all: seq<string>)
    requires Decodable(s) && Looks(s.sourceMap.sources, remap, all) && |all| <= MAX
    ensures GoodInput(s.sourceMap.mappings, remap)
    ensures Named(Separate(Run(START, s.sourceMap.mappings)).segments, s.sourceMap.sources)
    ensures Separate(Run(START, s.sourceMap.mappings)) == Commit(Run(START, s.sourceMap.mappings))
    ensures Fits(s) <==> Within(Run(START, s.sourceMap.mappings), s.sourceLines)
  {
    DecodedInRange(START, s.sourceMap.mappings);
    EatInRange(Run(START, s.sourceMap.mappings), COMMA);
  }

  /** The transcoder knows every character a decoder knows. */
  lemma {:induction false} DecodedIsClean(d: Decoder, bs: seq<int>)
    requires Run(d, bs).ok
    ensures forall j | 0 <= j < |bs| :: !BadChar(bs[j])
    decreases |bs|
  {
    if bs != [] {
      RunGrows(Eat(d, bs[0]), bs[1..]);
      EatGrows(d, bs[0]);
      DecodedIsClean(Eat(d, bs[0]), bs[1..]);
      forall j | 0 <= j < |bs|
        ensures !BadChar(bs[j])
      {
        assert j > 0 ==> bs[j] == bs[1..][j - 1];
      }
    }
  }

  lemma DecodableIsClean(s: Source)
    requires Decodable(s)
    ensures CleanMappings(s)
  {
    DecodedIsClean(START, s.sourceMap.mappings);
  }

  // ----- what has been built of a bundle -----

  datatype Built = Built(output: seq<int>, sources: seq<string>, mappings: seq<int>, totals: Totals)

  const NEW_BUILT := Built([], [], [], Totals(Some(0), 0, 0))

  /** One more file and its source map; None if the map has a character the transcoder does not know. */
  function Added(b: Built, s: Source): Option<Built> {
    if !CleanMappings(s) then None
    else
      var remapped := Remapped(b.sources, s.sourceMap.sources);
      var l := Transcoded(b.totals, remapped.1, s.sourceMap.mappings);
      Some(Built(b.output + s.content, remapped.0,
                 b.mappings + Bytes(l.out) + Semicolons(s.sourceLines - l.v.outputLine), l.totals))
  }

  /** One more line of text, without mappings. */
  function WithLine(b: Built, text: seq<int>): Built {
    b.(output := b.output + text + [NEWLINE], mappings := b.mappings + [SEMICOLON])
  }

  /** What a decoder makes of the mappings so far. */
  function Decoded(b: Built): Decoder {
    Run(START, b.mappings)
  }

  ghost function BuiltMeaning(b: Built): seq<Meaning> {
    MeanAll(Decoded(b).segments, b.sources)
  }

  /** The output is at the start of a line and the running totals are those of a decoder. */
  ghost predicate Ready(b: Built) {
    var d := Decoded(b);
    AtLineStart(d) && StateInRange(d) && b.totals == TotalsOf(d) && Named(d.segments, b.sources)
  }

  lemma NewIsReady()
    ensures Ready(NEW_BUILT) && BuiltMeaning(NEW_BUILT) == [] && Decoded(NEW_BUILT).line == 0
  {
  }

  /** A decoder goes on from the mappings so far with what has been written. */
  lemma WrittenIsRead(o0: Decoder, before: seq<int>, e: Decoder, l: Loop, n: int)
    requires o0 == Run(START, before) && o0.digits == [] && Wrote(o0, e, l)
    ensures Run(START, before + Bytes(l.out) + Semicolons(n)) == Run(e, Semicolons(n))
  {
    BytesRead(o0, l.out);
    RunAppend(START, before, Bytes(l.out));
    RunAppend(START, before + Bytes(l.out), Semicolons(n));
  }

  /** What a decoder d makes of the mappings that o0 has read and those of one more file, if it has read i. */
  ghost predicate Extended(o0: Decoder, i: Decoder, d: Decoder, remap: seq<int>, lines: int) {
    && (Within(i, lines) <==> AtLineStart(d) && d.line == o0.line + lines)
    && (Within(i, lines) ==>
          StateInRange(d) && d.segments == o0.segments + MoveAll(Commit(i).segments, o0.line, remap))
  }

  /** So it makes of the mappings before and what the loop l has written, padded. */
  ghost predicate ReadOn(o0: Decoder, i: Decoder, before: seq<int>, remap: seq<int>, l: Loop, lines: int) {
    var d := Run(START, before + Bytes(l.out) + Semicolons(lines - l.v.outputLine));
    l.totals == TotalsOf(d) && Extended(o0, i, d, remap, lines)
  }

  lemma PaddedOutput(o0: Decoder, i: Decoder, o: Decoder, before: seq<int>, remap: seq<int>, l: Loop, lines: int)
    requires o0 == Run(START, before) && AtLineStart(o0) && Carries(o0, i, o, remap)
    requires Commit(i).ok && Covered(Commit(i).segments, remap)
    requires Wrote(o0, Emitted(o, i, remap), l) && l.v.outputLine == i.line
    ensures ReadOn(o0, i, before, remap, l, lines)
  {
    WrittenIsRead(o0, before, Emitted(o, i, remap), l, lines - i.line);
    PaddedIffWithin(o0, i, o, remap, lines);
  }

  /** What a decoder makes of the mappings with those of one more file. */
  lemma TranscodedOutput(o0: Decoder, before: seq<int>, remap: seq<int>, inp: seq<int>, lines: int)
    requires o0 == Run(START, before) && AtLineStart(o0) && StateInRange(o0) && GoodInput(inp, remap)
    ensures ReadOn(o0, Run(START, inp), before, remap, Transcoded(TotalsOf(o0), remap, inp), lines)
  {
    var i, l := Run(START, inp), Transcoded(TotalsOf(o0), remap, inp);
    var o := TranscodedIsRead(o0, remap, inp);
    PaddedOutput(o0, i, o, before, remap, l, lines);
  }

  /** b' is b with the mappings of s, if b stands at the start of a line and the map of s can be decoded. */
  ghost predicate Grows(b: Built, s: Source, b': Built) {
    Ready(b) && Decodable(s) && |b'.sources| <= MAX ==>
      && (Fits(s) <==> Ready(b') && Decoded(b').line == Decoded(b).line + s.sourceLines)
      && (Fits(s) ==> BuiltMeaning(b') == BuiltMeaning(b) + DownAll(SourceMeaning(s), Decoded(b).line))
  }

  lemma ExtendedGrows(b: Built, s: Source, b': Built, remap: seq<int>)
    requires Ready(b) && Decodable(s) && |b'.sources| <= MAX
    requires b.sources <= b'.sources && Looks(s.sourceMap.sources, remap, b'.sources)
    requires b'.totals == TotalsOf(Decoded(b'))
    requires Extended(Decoded(b), Run(START, s.sourceMap.mappings), Decoded(b'), remap, s.sourceLines)
    ensures Grows(b, s, b')
  {
    var segs := Commit(Run(START, s.sourceMap.mappings)).segments;
    DecodableIsGood(s, remap, b'.sources);
    MeaningGrows(Decoded(b).segments, b.sources, segs, Decoded(b).line, s.sourceMap.sources, remap, b'.sources);
  }

  /**
   If the output stands at the start of a line and the map of a file can be decoded, then the file can be
   added, and the output stands at the start of the line after the file if and only if the map stays
   within the lines of the file; and then the output means what it meant, followed by what the map of
   the file means, that many lines further down.
   */
  lemma AddedMeans(b: Built, s: Source)
    ensures Added(b, s).Some? <==> CleanMappings(s)
    ensures Decodable(s) ==> CleanMappings(s)
    ensures CleanMappings(s) ==> Grows(b, s, Added(b, s).value)
  {
    if Decodable(s) {
      DecodableIsClean(s);
    }
    if CleanMappings(s) {
      var b', r := Added(b, s).value, Remapped(b.sources, s.sourceMap.sources);
      if Ready(b) && Decodable(s) && |b'.sources| <= MAX {
        RemappedLooks(b.sources, s.sourceMap.sources);
        DecodableIsGood(s, r.1, r.0);
        TranscodedOutput(Decoded(b), b.mappings, r.1, s.sourceMap.mappings, s.sourceLines);
        ExtendedGrows(b, s, b', r.1);
      }
    }
  }

  /** A line without mappings means nothing. */
  lemma LineMeans(b: Built, text: seq<int>)
    requires Ready(b)
    ensures var b' := WithLine(b, text);
      Ready(b') && Decoded(b').line == Decoded(b).line + 1 && BuiltMeaning(b') == BuiltMeaning(b)
  {
    RunSnoc(START, b.mappings, SEMICOLON);
  }
}
