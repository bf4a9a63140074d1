/** The relation between the mappings a source map builder reads and those it writes. */
module Transcoding {
  import opened Mappings

  predicate StateInRange(d: Decoder) {
    InRange(d.col) && InRange(d.source) && InRange(d.origLine) && InRange(d.origCol)
  }

  /** The decoder o after the pending segment of i has been written for it. */
  function Emitted(o: Decoder, i: Decoder, remap: seq<int>): Decoder {
    if i.field == 0 then o
    else if i.field == 1 then o.(col := i.col, field := 1)
    else if 0 <= i.source < |remap| then
      o.(col := i.col, source := remap[i.source], origLine := i.origLine, origCol := i.origCol, field := 4)
    else o
  }

  /** A segment moved down by base lines, its source looked up in remap. */
  function Move(seg: Segment, base: int, remap: seq<int>): Segment {
    match seg
    case Unmapped(line, col) => Unmapped(line + base, col)
    case Mapped(line, col, source, origLine, origCol) =>
      Mapped(line + base, col, if 0 <= source < |remap| then remap[source] else 0, origLine, origCol)
  }

  function MoveAll(segs: seq<Segment>, base: int, remap: seq<int>): (moved: seq<Segment>)
    ensures |moved| == |segs| && forall j | 0 <= j < |segs| :: moved[j] == Move(segs[j], base, remap)
  {
    seq(|segs|, j requires 0 <= j < |segs| => Move(segs[j], base, remap))
  }

  /** Every source a segment names has an entry in remap. */
  ghost predicate Covered(segs: seq<Segment>, remap: seq<int>) {
    && (forall j | 0 <= j < |segs| && segs[j].Mapped? :: 0 <= segs[j].source < |remap|)
    && (forall j | 0 <= j < |remap| :: InRange(remap[j]))
  }

  ghost predicate HasSegmentOn(segs: seq<Segment>, line: int) {
    exists j :: 0 <= j < |segs| && segs[j].line == line
  }

  /** o has read, on top of o0, exactly what has been committed of what i has read. */
  ghost predicate Carries(o0: Decoder, i: Decoder, o: Decoder, remap: seq<int>) {
    && i.ok && 0 <= i.line && 0 <= i.field
    && o.ok && o.digits == [] && o.field == 0 && StateInRange(o)
    && o.line == o0.line + i.line
    && o.segments == o0.segments + MoveAll(i.segments, o0.line, remap)
    && (forall j | 0 <= j < |i.segments| :: i.segments[j].line <= i.line)
    && (o.col != 0 ==> HasSegmentOn(i.segments, i.line))
  }

  lemma CarriesStart(o0: Decoder, remap: seq<int>)
    requires AtLineStart(o0) && StateInRange(o0)
    ensures Carries(o0, START, o0, remap)
  {
  }

  lemma MoveSnoc(segs: seq<Segment>, seg: Segment, base: int, remap: seq<int>)
    ensures MoveAll(segs + [seg], base, remap) == MoveAll(segs, base, remap) + [Move(seg, base, remap)]
  {
  }

  /** A commit on both sides keeps them together. */
  lemma CarriesCommit(o0: Decoder, i: Decoder, o: Decoder, remap: seq<int>)
    requires Carries(o0, i, o, remap) && Commit(i).ok && Covered(Commit(i).segments, remap)
    ensures Carries(o0, Commit(i), Commit(Emitted(o, i, remap)), remap)
    ensures i.field >= 2 ==> 0 <= i.source < |remap| && InRange(remap[i.source])
  {
    if i.field != 0 {
      var segs := Commit(i).segments;
      var seg := segs[|segs| - 1];
      assert segs == i.segments + [seg];
      MoveSnoc(i.segments, seg, o0.line, remap);
      assert HasSegmentOn(segs, i.line) by {
        assert segs[|segs| - 1].line == i.line;
      }
    }
  }

  lemma CarriesNewLine(o0: Decoder, i: Decoder, o: Decoder, remap: seq<int>)
    requires Carries(o0, i, o, remap)
    ensures Carries(o0, NewLine(i), NewLine(o), remap)
    ensures NewLine(o).col == 0 && forall j | 0 <= j < |i.segments| :: i.segments[j].line < NewLine(i).line
  {
  }

  /** A separator, written after the commit of the pending segment. */
  lemma CarriesSeparator(o0: Decoder, i: Decoder, o: Decoder, remap: seq<int>, b: int)
    requires b == SEMICOLON || b == COMMA
    requires Carries(o0, i, o, remap) && Eat(i, b).ok && Covered(Eat(i, b).segments, remap)
    ensures Carries(o0, Eat(i, b), Eat(Emitted(o, i, remap), b), remap)
    ensures i.field >= 2 ==> 0 <= i.source < |remap| && InRange(remap[i.source])
    ensures Commit(i).ok && i.digits == []
  {
    CarriesCommit(o0, i, o, remap);
    if b == SEMICOLON {
      CarriesNewLine(o0, Commit(i), Commit(Emitted(o, i, remap)), remap);
    }
  }

  /** A digit changes nothing that has been committed. */
  lemma CarriesDigit(o0: Decoder, i: Decoder, o: Decoder, remap: seq<int>, b: int)
    requires b != SEMICOLON && b != COMMA
    requires Carries(o0, i, o, remap) && Eat(i, b).ok
    ensures Carries(o0, Eat(i, b), o, remap)
  {
  }

  // ----- the end of a source -----

  function Semicolons(n: int): seq<int> {
    if n <= 0 then [] else [SEMICOLON] + Semicolons(n - 1)
  }

  /** Empty lines change nothing but the line. */
  lemma {:induction false} BlankLines(d: Decoder, n: int)
    requires d.ok && d.digits == [] && d.field == 0 && d.col == 0 && n >= 0
    ensures Run(d, Semicolons(n)) == d.(line := d.line + n)
    decreases n
  {
    if n > 0 {
      assert Semicolons(n)[1..] == Semicolons(n - 1);
      BlankLines(d.(line := d.line + 1), n - 1);
    }
  }

  /** The first of the padding lines also ends the pending segment. */
  lemma PaddingEnds(d: Decoder, n: int)
    requires d.ok && d.digits == [] && Commit(d).ok && n > 0
    ensures Run(d, Semicolons(n)) == Commit(d).(line := d.line + n, col := 0)
  {
    var d1 := Eat(d, SEMICOLON);
    assert d1 == NewLine(Commit(d)) && d1.ok && d1.field == 0 && d1.digits == [];
    FirstOfMany(d, n);
    BlankLines(d1, n - 1);
  }

  lemma FirstOfMany(d: Decoder, n: int)
    requires n > 0
    ensures Run(d, Semicolons(n)) == Run(Eat(d, SEMICOLON), Semicolons(n - 1))
  {
    assert Semicolons(n)[0] == SEMICOLON && Semicolons(n)[1..] == Semicolons(n - 1);
  }

  /** What i has read, with the pending segment, lies on the first lines only. */
  ghost predicate Within(i: Decoder, lines: int) {
    i.line <= lines && forall j | 0 <= j < |Commit(i).segments| :: Commit(i).segments[j].line < lines
  }

  /**
   The output, padded to the number of lines of the source, is at the start of the line after the
   source exactly if the mappings of the source stayed within its lines; and then it holds them all.
   */
  lemma PaddedIffWithin(o0: Decoder, i: Decoder, o: Decoder, remap: seq<int>, lines: int)
    requires AtLineStart(o0) && Carries(o0, i, o, remap) && Commit(i).ok && Covered(Commit(i).segments, remap)
    ensures var e := Emitted(o, i, remap);
      var r := Run(e, Semicolons(lines - i.line));
      && (Within(i, lines) <==> AtLineStart(r) && r.line == o0.line + lines)
      && r.source == e.source && r.origLine == e.origLine && r.origCol == e.origCol
      && (Within(i, lines) ==>
            StateInRange(r) && r.segments == o0.segments + MoveAll(Commit(i).segments, o0.line, remap))
  {
    var e := Emitted(o, i, remap);
    var n := lines - i.line;
    CarriesCommit(o0, i, o, remap);
    var moved := MoveAll(Commit(i).segments, o0.line, remap);
    if n > 0 {
      PaddingEnds(e, n);
      var r := Run(e, Semicolons(n));
      forall j | 0 <= j < |r.segments|
        ensures r.segments[j].line < r.line
      {
        if j >= |o0.segments| {
          assert r.segments[j] == moved[j - |o0.segments|];
        }
      }
    } else {
      NotPadded(o0, i, o, remap, lines);
    }
  }

  lemma NotPadded(o0: Decoder, i: Decoder, o: Decoder, remap: seq<int>, lines: int)
    requires AtLineStart(o0) && Carries(o0, i, o, remap) && Commit(i).ok && Covered(Commit(i).segments, remap)
    requires lines <= i.line
    ensures var e := Emitted(o, i, remap);
      && (Within(i, lines) <==> AtLineStart(e) && e.line == o0.line + lines)
      && (Within(i, lines) ==> e == o)
  {
    var e := Emitted(o, i, remap);
    var segs := Commit(i).segments;
    assert i.field != 0 ==> |segs| > 0 && segs[|segs| - 1].line == i.line;
    if Within(i, lines) {
      forall j | 0 <= j < |e.segments|
        ensures e.segments[j].line < e.line
      {
        if j >= |o0.segments| {
          assert e.segments[j] == Move(segs[j - |o0.segments|], o0.line, remap);
        }
      }
    }
    if AtLineStart(e) && e.line == o0.line + lines {
      CarriesCommit(o0, i, o, remap);
      assert i.field == 0;
      forall j | 0 <= j < |segs|
        ensures segs[j].line < lines
      {
        assert e.segments[|o0.segments| + j] == Move(segs[j], o0.line, remap);
      }
    }
  }
}
