/** The builder of a bundle: text and mappings are appended to buffers as files come in. */
module SourceMapBuilders {
  import opened Wrappers
  import opened Vlq
  import opened DynamicBuffers
  import opened Mappings
  import opened Transcoding
  import opened Transcoder
  import opened SourceMaps

  lemma NumberBytes(bytes: seq<int>, out: seq<Token>, n: int)
    ensures bytes + Bytes(out + [Number(n)]) == bytes + Bytes(out) + Encode(n)
  {
    BytesSnoc(out, Number(n));
  }

  lemma NothingWritten(bytes: seq<int>)
    ensures bytes == bytes + Bytes([])
  {
  }

  lemma OriginBytes(bytes: seq<int>, l: Loop, index: Option<int>)
    ensures bytes + Bytes(Pointed(l, index).out)
         == bytes + Bytes(l.out) + Encode(Minus(index, l.totals.index))
            + Encode(l.v.inSourceLine - l.totals.line) + Encode(l.v.inSourceCol - l.totals.col)
  {
    var a, b, c := Minus(index, l.totals.index), l.v.inSourceLine - l.totals.line, l.v.inSourceCol - l.totals.col;
    NumberBytes(bytes, l.out, a);
    NumberBytes(bytes, l.out + [Number(a)], b);
    NumberBytes(bytes, l.out + [Number(a)] + [Number(b)], c);
  }

  /** The first n bytes are all separators or in the table. */
  predicate Known(inp: seq<int>, n: nat)
    requires n <= |inp|
  {
    n == 0 || (Known(inp, n - 1) && !BadChar(inp[n - 1]))
  }

  lemma {:induction false} KnownIff(inp: seq<int>, n: nat)
    requires n <= |inp|
    ensures Known(inp, n) <==> forall j | 0 <= j < n :: !BadChar(inp[j])
  {
    if n > 0 {
      KnownIff(inp, n - 1);
    }
  }

  lemma {:induction false} KnownShrinks(inp: seq<int>, k: nat, n: nat)
    requires k <= n <= |inp| && Known(inp, n)
    ensures Known(inp, k)
  {
    if k < n {
      KnownShrinks(inp, k, n - 1);
    }
  }

  class SourceMapBuilder {
    const outputBuffer: DynamicBuffer
    const mappings: DynamicBuffer
    var sources: seq<string>
    var lastSourceIndex: Option<int>
    var lastSourceLine: int
    var lastSourceCol: int

    ghost predicate Valid()
      reads this, outputBuffer, outputBuffer.buffer, mappings, mappings.buffer
    {
      && outputBuffer != mappings && outputBuffer.Valid() && mappings.Valid()
      && outputBuffer.buffer != mappings.buffer
      && NoDuplicates(sources)
    }

    ghost function LastTotals(): Totals
      reads `lastSourceIndex, `lastSourceLine, `lastSourceCol
    {
      Totals(lastSourceIndex, lastSourceLine, lastSourceCol)
    }

    /** What has been built so far. */
    ghost function Now(): Built
      requires Valid()
      reads this, outputBuffer, outputBuffer.buffer, mappings, mappings.buffer
    {
      Built(outputBuffer.contents, sources, mappings.contents, LastTotals())
    }

    constructor ()
      ensures Valid() && Now() == NEW_BUILT
      ensures fresh(outputBuffer) && fresh(mappings) && fresh(outputBuffer.buffer) && fresh(mappings.buffer)
    {
      outputBuffer := new DynamicBuffer();
      mappings := new DynamicBuffer();
      sources := [];
      lastSourceIndex := Some(0);
      lastSourceLine := 0;
      lastSourceCol := 0;
    }

    /** After bytes, the loop l has written what it should, and the running totals are its totals. */
    ghost predicate Holds(bytes: seq<int>, l: Loop)
      reads `lastSourceIndex, `lastSourceLine, `lastSourceCol, mappings, mappings.buffer
    {
      mappings.Valid() && mappings.contents == bytes + Bytes(l.out) && LastTotals() == l.totals
    }

    /** The three fields that say where a segment comes from, each relative to the last one of its kind. */
    method WriteOrigin(source: Option<int>, line: int, col: int)
      requires mappings.Valid()
      modifies `lastSourceIndex, `lastSourceLine, `lastSourceCol, mappings, mappings.buffer
      ensures mappings.Valid()
      ensures mappings.buffer == old(mappings.buffer) || fresh(mappings.buffer)
      ensures mappings.contents == old(mappings.contents) + Encode(Minus(source, old(lastSourceIndex)))
                                   + Encode(line - old(lastSourceLine)) + Encode(col - old(lastSourceCol))
      ensures LastTotals() == Totals(source, line, col)
    {
      mappings.AddVLQ(Minus(source, lastSourceIndex));
      lastSourceIndex := source;
      mappings.AddVLQ(line - lastSourceLine);
      lastSourceLine := line;
      mappings.AddVLQ(col - lastSourceCol);
      lastSourceCol := col;
    }

    method CommitOrigin(v: Locals, sourceRemap: seq<int>, ghost bytes: seq<int>, ghost l: Loop)
      requires Holds(bytes, l) && v == l.v
      modifies `lastSourceIndex, `lastSourceLine, `lastSourceCol, mappings, mappings.buffer
      ensures mappings.buffer == old(mappings.buffer) || fresh(mappings.buffer)
      ensures Holds(bytes, Pointed(l, Lookup(sourceRemap, v.inSourceIndex)))
    {
      OriginBytes(bytes, l, Lookup(sourceRemap, v.inSourceIndex));
      WriteOrigin(Lookup(sourceRemap, v.inSourceIndex), v.inSourceLine, v.inSourceCol);
    }

    /** The end of a segment of the input: write how far each of its fields moves. */
    method Commit(v: Locals, sourceRemap: seq<int>, ghost bytes: seq<int>, ghost l: Loop) returns (v': Locals)
      requires Holds(bytes, l) && v == l.v
      modifies `lastSourceIndex, `lastSourceLine, `lastSourceCol, mappings, mappings.buffer
      ensures mappings.buffer == old(mappings.buffer) || fresh(mappings.buffer)
      ensures Holds(bytes, Committed(l, sourceRemap)) && v' == Committed(l, sourceRemap).v
    {
      if v.valpos == 0 {
        return v;
      }
      mappings.AddVLQ(v.inOutputCol - v.lastOutputCol);
      NumberBytes(bytes, l.out, v.inOutputCol - v.lastOutputCol);
      v' := v.(lastOutputCol := v.inOutputCol, valpos := 0);
      if v.valpos == 1 {
        return;
      }
      CommitOrigin(v', sourceRemap, bytes, WithColumn(l));
    }

    /** A commit and a separator, after which the loop goes on in the same line or in the next one. */
    method WriteSeparator(v: Locals, b: int, sourceRemap: seq<int>, ghost bytes: seq<int>, ghost l: Loop)
      returns (v': Locals)
      requires Holds(bytes, l) && v == l.v && (b == SEMICOLON || b == COMMA)
      modifies `lastSourceIndex, `lastSourceLine, `lastSourceCol, mappings, mappings.buffer
      ensures mappings.buffer == old(mappings.buffer) || fresh(mappings.buffer)
      ensures Holds(bytes, WithByte(l, sourceRemap, b)) && v' == WithByte(l, sourceRemap, b).v
    {
      v' := Commit(v, sourceRemap, bytes, l);
      BytesSnoc(Committed(l, sourceRemap).out, Separator(b));
      mappings.AddByte(b);
      if b == SEMICOLON {
        v' := v'.(inOutputCol := 0, lastOutputCol := 0, outputLine := v'.outputLine + 1);
      }
    }

    /** One byte: a separator, a digit, or a character outside the table. */
    method TakeByte(v: Locals, b: int, sourceRemap: seq<int>, ghost bytes: seq<int>, ghost l: Loop)
      returns (ok: bool, v': Locals)
      requires Holds(bytes, l) && v == l.v
      modifies `lastSourceIndex, `lastSourceLine, `lastSourceCol, mappings, mappings.buffer
      ensures mappings.Valid()
      ensures mappings.buffer == old(mappings.buffer) || fresh(mappings.buffer)
      ensures ok <==> !BadChar(b)
      ensures ok ==> Holds(bytes, WithByte(l, sourceRemap, b)) && v' == WithByte(l, sourceRemap, b).v
    {
      if b == SEMICOLON || b == COMMA {
        v' := WriteSeparator(v, b, sourceRemap, bytes, l);
      } else {
        var digit := CharToInteger(b);
        if digit == 255 {
          return false, v;
        }
        v' := WithDigit(v, digit);
      }
      ok := true;
    }

    /** The first n bytes of the input are known, and the loop is where they lead. */
    ghost predicate Reached(inp: seq<int>, n: nat, remap: seq<int>, bytes: seq<int>, start: Loop, v: Locals)
      requires n <= |inp|
      reads `lastSourceIndex, `lastSourceLine, `lastSourceCol, mappings, mappings.buffer
    {
      && Known(inp, n)
      && Holds(bytes, WithBytes(start, remap, inp, n)) && v == WithBytes(start, remap, inp, n).v
    }

    /** The next byte, with the loop in step before and afterwards. */
    method TakeNext(v: Locals, inp: seq<int>, ip: nat, remap: seq<int>, ghost bytes: seq<int>, ghost start: Loop)
      returns (ok: bool, v': Locals)
      requires ip < |inp| && Reached(inp, ip, remap, bytes, start, v)
      modifies `lastSourceIndex, `lastSourceLine, `lastSourceCol, mappings, mappings.buffer
      ensures mappings.Valid()
      ensures mappings.buffer == old(mappings.buffer) || fresh(mappings.buffer)
      ensures ok <==> Known(inp, ip + 1)
      ensures ok ==> Reached(inp, ip + 1, remap, bytes, start, v')
    {
      ok, v' := TakeByte(v, inp[ip], remap, bytes, WithBytes(start, remap, inp, ip));
    }

    /** The loop over the bytes of the mappings of one source; it fails at a character outside the table. */
    method TranscodeBytes(inp: seq<int>, sourceRemap: seq<int>, ghost start: Loop) returns (ok: bool, v: Locals)
      requires mappings.Valid() && start == LoopStart(LastTotals())
      modifies `lastSourceIndex, `lastSourceLine, `lastSourceCol, mappings, mappings.buffer
      ensures mappings.Valid()
      ensures mappings.buffer == old(mappings.buffer) || fresh(mappings.buffer)
      ensures ok <==> Known(inp, |inp|)
      ensures ok ==> Reached(inp, |inp|, sourceRemap, old(mappings.contents), start, v)
    {
      var ip := 0;
      v := NEW_LOCALS;
      ghost var bytes := mappings.contents;
      NothingWritten(bytes);
      while ip < |inp|
        modifies `lastSourceIndex, `lastSourceLine, `lastSourceCol, mappings, mappings.buffer
        invariant 0 <= ip <= |inp|
        invariant mappings.buffer == old(mappings.buffer) || fresh(mappings.buffer)
        invariant Reached(inp, ip, sourceRemap, bytes, start, v)
      {
        ok, v := TakeNext(v, inp, ip, sourceRemap, bytes, start);
        if !ok {
          if Known(inp, |inp|) {
            KnownShrinks(inp, ip + 1, |inp|);
          }
          return;
        }
        ip := ip + 1;
      }
      ok := true;
    }

    /** Rewrite the mappings of one source against the running totals of the output. */
    method Transcode(inp: seq<int>, sourceRemap: seq<int>) returns (ok: bool, outputLine: int)
      requires mappings.Valid()
      modifies `lastSourceIndex, `lastSourceLine, `lastSourceCol, mappings, mappings.buffer
      ensures mappings.Valid()
      ensures mappings.buffer == old(mappings.buffer) || fresh(mappings.buffer)
      ensures ok <==> forall j | 0 <= j < |inp| :: !BadChar(inp[j])
      ensures ok ==>
        var l := Transcoded(old(LastTotals()), sourceRemap, inp);
        Holds(old(mappings.contents), l) && outputLine == l.v.outputLine
    {
      ghost var bytes, start := mappings.contents, LoopStart(LastTotals());
      var v;
      ok, v := TranscodeBytes(inp, sourceRemap, start);
      KnownIff(inp, |inp|);
      outputLine := 0;
      if ok {
        v := Commit(v, sourceRemap, bytes, WithBytes(start, sourceRemap, inp, |inp|));
        outputLine := v.outputLine;
      }
    }

    /** Give every source of a file its place in the list of all sources. */
    method RemapSources(names: seq<string>) returns (sourceRemap: seq<int>)
      requires NoDuplicates(sources)
      modifies `sources
      ensures (sources, sourceRemap) == Remapped(old(sources), names) && NoDuplicates(sources)
      ensures Looks(names, sourceRemap, sources) && old(sources) <= sources
      ensures forall v :: v in sources <==> v in old(sources) || v in names
    {
      sourceRemap := [];
      var i := 0;
      while i < |names|
        modifies `sources
        invariant 0 <= i <= |names|
        invariant (sources, sourceRemap) == Remapped(old(sources), names[..i])
      {
        RemappedSnoc(old(sources), names[..i], names[i]);
        assert names[..i + 1] == names[..i] + [names[i]];
        var pos := IndexOf(sources, names[i]);
        FirstIsUnique(sources, names[i], pos);
        if pos < 0 {
          pos := |sources|;
          sources := sources + [names[i]];
        }
        sourceRemap := sourceRemap + [pos];
        i := i + 1;
      }
      assert names[..i] == names;
      RemappedLooks(old(sources), names);
    }

    /** Empty lines up to the number of lines of the source. */
    method Pad(outputLine: int, sourceLines: int)
      requires mappings.Valid()
      modifies mappings, mappings.buffer
      ensures mappings.Valid()
      ensures mappings.buffer == old(mappings.buffer) || fresh(mappings.buffer)
      ensures mappings.contents == old(mappings.contents) + Semicolons(sourceLines - outputLine)
    {
      var line := outputLine;
      while line < sourceLines
        modifies mappings, mappings.buffer
        invariant mappings.Valid() && (mappings.buffer == old(mappings.buffer) || fresh(mappings.buffer))
        invariant mappings.contents + Semicolons(sourceLines - line)
               == old(mappings.contents) + Semicolons(sourceLines - outputLine)
      {
        mappings.AddByte(SEMICOLON);
        line := line + 1;
      }
    }

    /** Rewrite the mappings of a source and pad them to its number of lines. */
    method AddMappings(source: Source, sourceRemap: seq<int>) returns (ok: bool)
      requires mappings.Valid()
      modifies `lastSourceIndex, `lastSourceLine, `lastSourceCol, mappings, mappings.buffer
      ensures mappings.Valid()
      ensures mappings.buffer == old(mappings.buffer) || fresh(mappings.buffer)
      ensures ok <==> CleanMappings(source)
      ensures ok ==>
        var l := Transcoded(old(LastTotals()), sourceRemap, source.sourceMap.mappings);
        && mappings.contents == old(mappings.contents) + Bytes(l.out) + Semicolons(source.sourceLines - l.v.outputLine)
        && LastTotals() == l.totals
    {
      var outputLine;
      ok, outputLine := Transcode(source.sourceMap.mappings, sourceRemap);
      if ok {
        Pad(outputLine, source.sourceLines);
      }
    }

    /**
     Append a file and its source map: the builder becomes what Added says, or fails exactly where Added
     does. AddedMeans tells what that means to a decoder.
     */
    method AddSource(source: Source) returns (ok: bool)
      requires Valid()
      modifies this, outputBuffer, outputBuffer.buffer, mappings, mappings.buffer
      ensures Valid()
      ensures outputBuffer.buffer == old(outputBuffer.buffer) || fresh(outputBuffer.buffer)
      ensures mappings.buffer == old(mappings.buffer) || fresh(mappings.buffer)
      ensures ok <==> Added(old(Now()), source).Some?
      ensures ok ==> Now() == Added(old(Now()), source).value
    {
      ghost var b := Now();
      outputBuffer.AddBuffer(source.content);
      var sourceRemap := RemapSources(source.sourceMap.sources);
      ok := AddMappings(source, sourceRemap);
    }

    /** One line of text without mappings. */
    method AddLine(text: seq<int>)
      requires Valid()
      modifies this, outputBuffer, outputBuffer.buffer, mappings, mappings.buffer
      ensures Valid() && Now() == WithLine(old(Now()), text)
    {
      outputBuffer.AddBuffer(text);
      outputBuffer.AddByte(NEWLINE);
      mappings.AddByte(SEMICOLON);
    }

    method ToContent() returns (content: seq<int>)
      requires Valid()
      ensures content == Now().output
    {
      content := outputBuffer.ToBuffer();
    }

    method ToSourceMap(sourceRoot: Option<string>) returns (r: SourceMap)
      requires Valid()
      ensures r == SourceMap(Now().sources, Now().mappings, sourceRoot)
    {
      var bytes := mappings.ToBuffer();
      r := SourceMap(sources, bytes, sourceRoot);
    }
  }
}
