/**
 The transcoding loop of a source map builder as a function: what it writes for the mappings of one
 source, given where the sources before it have ended.
 */
module Transcoder {
  import opened Wrappers
  import opened Vlq
  import opened Mappings
  import opened Transcoding

  // ----- what is written: numbers and separators -----

  datatype Token = Number(n: int) | Separator(b: int)

  function BytesOf(t: Token): seq<int> {
    match t
    case Number(n) => Encode(n)
    case Separator(b) => [b]
  }

  function Bytes(ts: seq<Token>): seq<int> {
    if ts == [] then [] else Bytes(ts[..|ts| - 1]) + BytesOf(ts[|ts| - 1])
  }

  lemma BytesSnoc(ts: seq<Token>, t: Token)
    ensures Bytes(ts + [t]) == Bytes(ts) + BytesOf(t)
  {
    assert (ts + [t])[..|ts|] == ts;
  }

  /** A decoder that is given numbers instead of their digits. */
  function Feed(d: Decoder, t: Token): Decoder {
    match t
    case Number(n) => if d.ok then MoveField(d, n) else d
    case Separator(b) => Eat(d, b)
  }

  function FeedAll(d: Decoder, ts: seq<Token>): Decoder {
    if ts == [] then d else Feed(FeedAll(d, ts[..|ts| - 1]), ts[|ts| - 1])
  }

  lemma FeedSnoc(d: Decoder, ts: seq<Token>, t: Token)
    ensures FeedAll(d, ts + [t]) == Feed(FeedAll(d, ts), t)
  {
    assert (ts + [t])[..|ts|] == ts;
  }

  /** A number in the range of the encoder, or a separator. */
  predicate Short(t: Token) {
    match t
    case Number(n) => -MAX < n < MAX
    case Separator(b) => b == SEMICOLON || b == COMMA
  }

  predicate AllShort(ts: seq<Token>) {
    forall t :: t in ts ==> Short(t)
  }

  /** A decoder of the bytes sees the numbers. */
  lemma {:induction false} BytesRead(d: Decoder, ts: seq<Token>)
    requires d.digits == [] && AllShort(ts)
    ensures Run(d, Bytes(ts)) == FeedAll(d, ts) && FeedAll(d, ts).digits == []
    decreases |ts|
  {
    if ts != [] {
      var before, t := ts[..|ts| - 1], ts[|ts| - 1];
      assert t in ts && forall x :: x in before ==> x in ts;
      BytesRead(d, before);
      RunAppend(d, Bytes(before), BytesOf(t));
      TokenRead(FeedAll(d, before), t);
    }
  }

  lemma TokenRead(d: Decoder, t: Token)
    requires d.digits == [] && Short(t)
    ensures Run(d, BytesOf(t)) == Feed(d, t) && Feed(d, t).digits == []
  {
    match t
    case Separator(b) =>
      assert [b][1..] == [];
    case Number(n) =>
      if d.ok {
        EncodeReadsAs(n);
      } else {
        RunStops(d, Encode(n));
      }
  }

  lemma {:induction false} RunStops(d: Decoder, bs: seq<int>)
    requires !d.ok
    ensures Run(d, bs) == d
    decreases |bs|
  {
    if bs != [] {
      RunStops(d, bs[1..]);
    }
  }

  // ----- the loop -----

  /** Where the last segment with a source has pointed to; an undefined index is None. */
  datatype Totals = Totals(index: Option<int>, line: int, col: int)

  /** The variables of the loop. */
  datatype Locals = Locals(lastOutputCol: int, outputLine: int, inOutputCol: int, inSourceIndex: int,
                           inSourceLine: int, inSourceCol: int, shift: int, value: int, valpos: int)

  const NEW_LOCALS := Locals(0, 0, 0, 0, 0, 0, 0, 0, 0)

  /** The loop with what it has written and the totals of the output. */
  datatype Loop = Loop(out: seq<Token>, totals: Totals, v: Locals)

  function LoopStart(totals: Totals): Loop {
    Loop([], totals, NEW_LOCALS)
  }

  /** a - b, where an undefined operand gives NaN, which addVLQ writes like zero. */
  function Minus(a: Option<int>, b: Option<int>): int {
    if a.Some? && b.Some? then a.value - b.value else 0
  }

  function Lookup(remap: seq<int>, i: int): Option<int> {
    if 0 <= i < |remap| then Some(remap[i]) else None
  }

  /** The end of a segment. */
  function Committed(l: Loop, remap: seq<int>): Loop {
    if l.v.valpos == 0 then l
    else if l.v.valpos == 1 then WithColumn(l)
    else Pointed(WithColumn(l), Lookup(remap, l.v.inSourceIndex))
  }

  /** The field that says where in the output a segment starts. */
  function WithColumn(l: Loop): Loop {
    Loop(l.out + [Number(l.v.inOutputCol - l.v.lastOutputCol)], l.totals,
         l.v.(lastOutputCol := l.v.inOutputCol, valpos := 0))
  }

  /** The three fields that say where a segment comes from. */
  function Pointed(l: Loop, index: Option<int>): Loop {
    Loop(l.out + [Number(Minus(index, l.totals.index))] + [Number(l.v.inSourceLine - l.totals.line)]
           + [Number(l.v.inSourceCol - l.totals.col)],
         Totals(index, l.v.inSourceLine, l.v.inSourceCol), l.v)
  }

  function Separated(l: Loop, remap: seq<int>, b: int): Loop {
    WithSeparator(Committed(l, remap), b)
  }

  function WithSeparator(c: Loop, b: int): Loop {
    Loop(c.out + [Separator(b)], c.totals, AtSeparator(c.v, b))
  }

  function AtSeparator(v: Locals, b: int): Locals {
    if b == SEMICOLON then v.(inOutputCol := 0, lastOutputCol := 0, outputLine := v.outputLine + 1) else v
  }

  /** One base64 digit: more of a field, or the end of it. */
  function WithDigit(v: Locals, digit: int): Locals {
    var value := Accumulate(v.value, digit, v.shift);
    if (digit / 32) % 2 == 1 then v.(value := value, shift := v.shift + 5)
    else WithField(v.(value := 0, shift := 0, valpos := v.valpos + 1), v.valpos, Negate(value))
  }

  /** A field moves the variable it belongs to. */
  function WithField(v: Locals, valpos: int, n: int): Locals {
    match valpos
    case 0 => v.(inOutputCol := v.inOutputCol + n)
    case 1 => v.(inSourceIndex := v.inSourceIndex + n)
    case 2 => v.(inSourceLine := v.inSourceLine + n)
    case 3 => v.(inSourceCol := v.inSourceCol + n)
    case _ => v
  }

  function WithByte(l: Loop, remap: seq<int>, b: int): Loop {
    if b == SEMICOLON || b == COMMA then Separated(l, remap, b) else l.(v := WithDigit(l.v, CharToInteger(b)))
  }

  /** The first n bytes of the mappings. */
  function WithBytes(l: Loop, remap: seq<int>, inp: seq<int>, n: nat): Loop
    requires n <= |inp|
  {
    if n == 0 then l else WithByte(WithBytes(l, remap, inp, n - 1), remap, inp[n - 1])
  }

  /** All of the mappings of one source. */
  function Transcoded(totals: Totals, remap: seq<int>, inp: seq<int>): Loop {
    Committed(WithBytes(LoopStart(totals), remap, inp, |inp|), remap)
  }

  lemma ZeroIsOneDigit()
    ensures Encode(0) == [65]
  {
    ZigzagInRange(0);
    assert Digits(0) == [IntegerToChar(0)];
  }

  /** A segment whose source the file does not have is written as if it had not moved to another source. */
  lemma NoSourceWritesZero(l: Loop, remap: seq<int>)
    requires l.v.valpos >= 2 && !(0 <= l.v.inSourceIndex < |remap|)
    ensures var c := Committed(l, remap);
      && |c.out| == |l.out| + 4 && BytesOf(c.out[|l.out| + 1]) == [65] && c.totals.index == None
  {
    ZeroIsOneDigit();
    assert Committed(l, remap).out[|l.out| + 1] == Number(0);
  }

  // ----- the loop against a decoder of its input -----

  /** The variables of the loop hold the state of a decoder of the input. */
  ghost predicate Follows(i: Decoder, v: Locals) {
    && PlainDigits(i.digits)
    && i.line == v.outputLine && i.col == v.inOutputCol && i.source == v.inSourceIndex
    && i.origLine == v.inSourceLine && i.origCol == v.inSourceCol && i.field == v.valpos && 0 <= v.valpos
    && v.shift == 5 * |i.digits|
    && (v.valpos < 4 || i.digits == [] ==> v.value == Raw(i.digits))
  }

  lemma EatMore(i: Decoder, b: int)
    requires i.ok && Eat(i, b).ok && b != SEMICOLON && b != COMMA && (CharToInteger(b) / 32) % 2 == 1
    ensures var r := CharToInteger(b) % 32;
      && Eat(i, b) == i.(digits := i.digits + [r]) && 0 <= r < 32
      && (i.field < 4 ==> Raw(i.digits + [r]) < 2 * MAX)
  {
  }

  /** A digit with the continuation bit. */
  lemma FollowsMore(i: Decoder, v: Locals, b: int)
    requires i.ok && Eat(i, b).ok && b != SEMICOLON && b != COMMA && (CharToInteger(b) / 32) % 2 == 1
    requires Follows(i, v)
    ensures Follows(Eat(i, b), WithDigit(v, CharToInteger(b)))
  {
    var digit := CharToInteger(b);
    EatMore(i, b);
    if v.valpos < 4 {
      RawNonNegative(i.digits);
      AccumulateExact(i.digits, digit, digit % 32);
    }
  }

  /** The last digit of a field. */
  lemma FollowsLast(i: Decoder, v: Locals, b: int)
    requires i.ok && Eat(i, b).ok && b != SEMICOLON && b != COMMA && (CharToInteger(b) / 32) % 2 == 0
    requires Follows(i, v)
    ensures Follows(Eat(i, b), WithDigit(v, CharToInteger(b)))
  {
    var digit := CharToInteger(b);
    if v.valpos < 4 {
      RawNonNegative(i.digits);
      AccumulateExact(i.digits, digit, digit % 32);
      NegateExact(Raw(i.digits + [digit]));
    }
  }

  // ----- the output against a decoder of it -----

  function TotalsOf(d: Decoder): Totals {
    Totals(Some(d.source), d.origLine, d.origCol)
  }

  /** A decoder o of what has been written, started in o0, has read what i has committed of the input. */
  ghost predicate InStep(o0: Decoder, i: Decoder, remap: seq<int>, l: Loop) {
    var o := FeedAll(o0, l.out);
    Carries(o0, i, o, remap) && Wrote(o0, o, l) && Follows(i, l.v)
  }

  lemma StartsInStep(o0: Decoder, remap: seq<int>)
    requires AtLineStart(o0) && StateInRange(o0)
    ensures InStep(o0, START, remap, LoopStart(TotalsOf(o0)))
  {
    CarriesStart(o0, remap);
  }

  /** Everything but what has been read of the pending segment. */
  ghost predicate Wrote(o0: Decoder, e: Decoder, l: Loop) {
    AllShort(l.out) && FeedAll(o0, l.out) == e && TotalsOf(e) == l.totals && e.col == l.v.lastOutputCol
  }

  lemma OneMore(o0: Decoder, ts: seq<Token>, t: Token)
    requires AllShort(ts) && Short(t)
    ensures AllShort(ts + [t]) && FeedAll(o0, ts + [t]) == Feed(FeedAll(o0, ts), t)
  {
    FeedSnoc(o0, ts, t);
  }

  /** A decoder between two segments, in which everything that has been written has been read. */
  ghost predicate BetweenSegments(o0: Decoder, o: Decoder, l: Loop) {
    Wrote(o0, o, l) && o.ok && o.digits == [] && o.field == 0 && StateInRange(o)
  }

  /** The column of a segment is read as such. */
  lemma ColumnIsRead(o0: Decoder, o: Decoder, l: Loop)
    requires BetweenSegments(o0, o, l) && InRange(l.v.inOutputCol)
    ensures Wrote(o0, o.(col := l.v.inOutputCol, field := 1), WithColumn(l))
  {
    OneMore(o0, l.out, Number(l.v.inOutputCol - l.v.lastOutputCol));
  }

  /** The three fields with the source are read as such. */
  lemma PointedIsRead(o0: Decoder, o: Decoder, l: Loop, index: int)
    requires Wrote(o0, o, l) && o.ok && o.field == 1 && StateInRange(o) && o.digits == []
    requires InRange(index) && InRange(l.v.inSourceLine) && InRange(l.v.inSourceCol)
    ensures Wrote(o0, o.(source := index, origLine := l.v.inSourceLine, origCol := l.v.inSourceCol, field := 4),
                  Pointed(l, Some(index)))
  {
    var a, b, c := Number(Minus(Some(index), l.totals.index)), Number(l.v.inSourceLine - l.totals.line),
      Number(l.v.inSourceCol - l.totals.col);
    OneMore(o0, l.out, a);
    assert Feed(o, a) == o.(source := index, field := 2);
    OneMore(o0, l.out + [a], b);
    assert Feed(Feed(o, a), b) == o.(source := index, origLine := l.v.inSourceLine, field := 3);
    OneMore(o0, l.out + [a] + [b], c);
  }

  /** A commit is read as the pending segment of the input. */
  lemma CommitIsRead(o0: Decoder, i: Decoder, o: Decoder, remap: seq<int>, l: Loop)
    requires BetweenSegments(o0, o, l) && Follows(i, l.v) && i.ok && Commit(i).ok
    requires i.field >= 2 ==> 0 <= i.source < |remap| && InRange(remap[i.source])
    ensures Wrote(o0, Emitted(o, i, remap), Committed(l, remap))
  {
    if l.v.valpos != 0 {
      ColumnIsRead(o0, o, l);
      if l.v.valpos != 1 {
        PointedIsRead(o0, o.(col := l.v.inOutputCol, field := 1), WithColumn(l), remap[i.source]);
      }
    }
  }

  lemma SeparatorIsRead(o0: Decoder, e: Decoder, c: Loop, b: int)
    requires b == SEMICOLON || b == COMMA
    requires Wrote(o0, e, c) && Eat(e, b).ok
    ensures Wrote(o0, Eat(e, b), WithSeparator(c, b))
  {
    OneMore(o0, c.out, Separator(b));
  }

  lemma SeparatorFollows(i: Decoder, remap: seq<int>, l: Loop, b: int)
    requires b == SEMICOLON || b == COMMA
    requires Follows(i, l.v) && i.ok && i.digits == [] && Eat(i, b).ok
    ensures Follows(Eat(i, b), Separated(l, remap, b).v)
  {
  }

  lemma SeparatorInStep(o0: Decoder, i: Decoder, remap: seq<int>, l: Loop, b: int)
    requires b == SEMICOLON || b == COMMA
    requires InStep(o0, i, remap, l) && Eat(i, b).ok && Covered(Eat(i, b).segments, remap)
    ensures InStep(o0, Eat(i, b), remap, Separated(l, remap, b))
  {
    var o := FeedAll(o0, l.out);
    CarriesSeparator(o0, i, o, remap, b);
    CommitIsRead(o0, i, o, remap, l);
    SeparatorIsRead(o0, Emitted(o, i, remap), Committed(l, remap), b);
    SeparatorFollows(i, remap, l, b);
  }

  lemma DigitInStep(o0: Decoder, i: Decoder, remap: seq<int>, l: Loop, b: int)
    requires b != SEMICOLON && b != COMMA && InStep(o0, i, remap, l) && Eat(i, b).ok
    ensures InStep(o0, Eat(i, b), remap, l.(v := WithDigit(l.v, CharToInteger(b))))
  {
    CarriesDigit(o0, i, FeedAll(o0, l.out), remap, b);
    if (CharToInteger(b) / 32) % 2 == 1 {
      FollowsMore(i, l.v, b);
    } else {
      FollowsLast(i, l.v, b);
    }
  }

  // ----- the whole input -----

  /** inp is decodable, and names only sources in remap. */
  ghost predicate GoodInput(inp: seq<int>, remap: seq<int>) {
    Separate(Run(START, inp)).ok && Covered(Separate(Run(START, inp)).segments, remap)
  }

  lemma CoveredPrefix(a: seq<Segment>, b: seq<Segment>, remap: seq<int>)
    requires a <= b && Covered(b, remap)
    ensures Covered(a, remap)
  {
    forall j | 0 <= j < |a| && a[j].Mapped?
      ensures 0 <= a[j].source < |remap|
    {
      assert a[j] == b[j];
    }
  }

  /** Every prefix of good input is good so far. */
  lemma GoodPrefix(inp: seq<int>, remap: seq<int>, ip: int)
    requires GoodInput(inp, remap) && 0 <= ip < |inp|
    ensures var i := Run(START, inp[..ip]);
      i.ok && Eat(i, inp[ip]).ok && Run(START, inp[..ip + 1]) == Eat(i, inp[ip])
      && Covered(Eat(i, inp[ip]).segments, remap)
  {
    var i := Run(START, inp[..ip]);
    assert inp[..ip + 1] == inp[..ip] + [inp[ip]] && inp == inp[..ip + 1] + inp[ip + 1..];
    RunSnoc(START, inp[..ip], inp[ip]);
    RunAppend(START, inp[..ip + 1], inp[ip + 1..]);
    RunGrows(Eat(i, inp[ip]), inp[ip + 1..]);
    EatGrows(i, inp[ip]);
    CoveredPrefix(Eat(i, inp[ip]).segments, Separate(Run(START, inp)).segments, remap);
  }

  lemma {:induction false} PrefixInStep(o0: Decoder, remap: seq<int>, inp: seq<int>, ip: int)
    requires AtLineStart(o0) && StateInRange(o0) && GoodInput(inp, remap) && 0 <= ip <= |inp|
    ensures InStep(o0, Run(START, inp[..ip]), remap, WithBytes(LoopStart(TotalsOf(o0)), remap, inp, ip))
    decreases ip
  {
    if ip == 0 {
      StartsInStep(o0, remap);
    } else {
      var b, i := inp[ip - 1], Run(START, inp[..ip - 1]);
      var l := WithBytes(LoopStart(TotalsOf(o0)), remap, inp, ip - 1);
      PrefixInStep(o0, remap, inp, ip - 1);
      GoodPrefix(inp, remap, ip - 1);
      if b == SEMICOLON || b == COMMA {
        SeparatorInStep(o0, i, remap, l, b);
      } else {
        DigitInStep(o0, i, remap, l, b);
      }
    }
  }

  /** A decoder of the output has read what a decoder of the input has, moved and looked up. */
  lemma TranscodedIsRead(o0: Decoder, remap: seq<int>, inp: seq<int>) returns (o: Decoder)
    requires AtLineStart(o0) && StateInRange(o0) && GoodInput(inp, remap)
    ensures var i, l := Run(START, inp), Transcoded(TotalsOf(o0), remap, inp);
      && Carries(o0, i, o, remap) && Wrote(o0, Emitted(o, i, remap), l) && l.v.outputLine == i.line
      && Commit(i).ok && Covered(Commit(i).segments, remap)
  {
    assert inp[..|inp|] == inp;
    PrefixInStep(o0, remap, inp, |inp|);
    var i, l := Run(START, inp), WithBytes(LoopStart(TotalsOf(o0)), remap, inp, |inp|);
    o := FeedAll(o0, l.out);
    assert Commit(i) == Separate(i);
    CarriesCommit(o0, i, o, remap);
    CommitIsRead(o0, i, o, remap, l);
  }
}
