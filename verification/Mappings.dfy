/**
 The mappings field of a source map (ECMA-426, sections "Mappings structure" and "Base64 VLQ"),
 read by a plain decoder: lines end with ';', segments with ',', and every field of a segment is a
 base64 VLQ relative to the one before it. Fields must stay in [0, 2^30).
 */
module Mappings {
  import opened Wrappers
  import opened Vlq

  datatype Segment =
    | Unmapped(line: int, col: int)
    | Mapped(line: int, col: int, source: int, origLine: int, origCol: int)

  datatype Decoder = Decoder(
    ok: bool, digits: seq<int>, field: int,
    line: int, col: int, source: int, origLine: int, origCol: int, segments: seq<Segment>)

  const SEMICOLON := 59
  const COMMA := 44

  const START := Decoder(true, [], 0, 0, 0, 0, 0, 0, [])

  predicate InRange(x: int) {
    0 <= x < MAX
  }

  /** The end of a segment: one, four or five fields make one, none make none. */
  function Commit(d: Decoder): Decoder {
    if d.field == 0 then d
    else if d.field == 1 && InRange(d.col) then
      d.(field := 0, segments := d.segments + [Unmapped(d.line, d.col)])
    else if (d.field == 4 || d.field == 5)
            && InRange(d.col) && InRange(d.source) && InRange(d.origLine) && InRange(d.origCol) then
      d.(field := 0, segments := d.segments + [Mapped(d.line, d.col, d.source, d.origLine, d.origCol)])
    else d.(ok := false)
  }

  /** A complete quantity; the fifth field names an identifier and is skipped. */
  function TakeField(d: Decoder, raw: int): Decoder {
    if d.field >= 5 || (d.field < 4 && !(0 <= raw < 2 * MAX)) then d.(ok := false, digits := [])
    else
      var e := d.(field := d.field + 1, digits := []);
      match d.field
      case 0 => e.(col := d.col + Signed(raw))
      case 1 => e.(source := d.source + Signed(raw))
      case 2 => e.(origLine := d.origLine + Signed(raw))
      case 3 => e.(origCol := d.origCol + Signed(raw))
      case _ => e
  }

  function TakeDigit(d: Decoder, digit: int): Decoder {
    if digit < 32 then TakeField(d, Raw(d.digits + [digit]))
    else if d.field < 4 && Raw(d.digits + [digit - 32]) >= 2 * MAX then d.(ok := false, digits := [])
    else d.(digits := d.digits + [digit - 32])
  }

  function Separate(d: Decoder): Decoder {
    if d.digits != [] then d.(ok := false) else Commit(d)
  }

  function NewLine(d: Decoder): Decoder {
    if d.ok then d.(line := d.line + 1, col := 0) else d
  }

  /** One character. */
  function Eat(d: Decoder, b: int): Decoder {
    if !d.ok then d
    else if b == SEMICOLON then NewLine(Separate(d))
    else if b == COMMA then Separate(d)
    else match Base64Value(b)
      case Some(digit) => TakeDigit(d, digit)
      case None => d.(ok := false)
  }

  function Run(d: Decoder, bs: seq<int>): Decoder
    decreases |bs|
  {
    if bs == [] then d else Run(Eat(d, bs[0]), bs[1..])
  }

  /** All segments of a mappings string, or None if it is not one. */
  function Decode(bs: seq<int>): Option<seq<Segment>> {
    var d := Separate(Run(START, bs));
    if d.ok then Some(d.segments) else None
  }

  // ----- facts about the decoder -----

  lemma {:induction false} RunAppend(d: Decoder, a: seq<int>, b: seq<int>)
    ensures Run(d, a + b) == Run(Run(d, a), b)
    decreases |a|
  {
    if a == [] {
      assert a + b == b;
    } else {
      assert (a + b)[0] == a[0] && (a + b)[1..] == a[1..] + b;
      RunAppend(Eat(d, a[0]), a[1..], b);
    }
  }

  lemma RunSnoc(d: Decoder, a: seq<int>, b: int)
    ensures Run(d, a + [b]) == Eat(Run(d, a), b)
  {
    RunAppend(d, a, [b]);
    assert [b][1..] == [];
  }

  lemma EatGrows(d: Decoder, b: int)
    ensures d.segments <= Eat(d, b).segments
    ensures Eat(d, b).ok ==> d.ok
  {
  }

  /** Decoding goes on from what was decoded, and an error is final. */
  lemma {:induction false} RunGrows(d: Decoder, bs: seq<int>)
    ensures d.segments <= Run(d, bs).segments
    ensures Run(d, bs).ok ==> d.ok
    decreases |bs|
  {
    if bs != [] {
      EatGrows(d, bs[0]);
      RunGrows(Eat(d, bs[0]), bs[1..]);
    }
  }

  /** The state of a decoder that is about to start a line. */
  ghost predicate AtLineStart(d: Decoder) {
    && d.ok && d.digits == [] && d.field == 0 && d.col == 0
    && forall i | 0 <= i < |d.segments| :: d.segments[i].line < d.line
  }

  predicate PlainDigits(ds: seq<int>) {
    forall d | d in ds :: 0 <= d < 32
  }

  lemma EatDigit(d: Decoder, digit: int)
    requires d.ok && 0 <= digit < 64
    ensures Eat(d, IntegerToChar(digit)) == TakeDigit(d, digit)
  {
    AlphabetInverse(digit);
    assert IntegerToChar(digit) != SEMICOLON && IntegerToChar(digit) != COMMA;
  }

  lemma RunCons(d: Decoder, digit: int, rest: seq<int>)
    requires d.ok && 0 <= digit < 64
    ensures Run(d, [IntegerToChar(digit)] + rest) == Run(TakeDigit(d, digit), rest)
  {
    EatDigit(d, digit);
    var bs := [IntegerToChar(digit)] + rest;
    assert bs[1..] == rest;
  }

  /** The decoder reads the digits of m as the number they stand for. */
  lemma {:induction false} RunDigits(d: Decoder, m: int, number: int)
    requires d.ok && PlainDigits(d.digits) && m >= 0
    requires number == Raw(d.digits) + m * Pow32(|d.digits|) < 2 * MAX
    ensures Run(d, Digits(m)) == TakeField(d, number)
    decreases m
  {
    var r, q := m % 32, m / 32;
    DigitMoves(d.digits, m);
    if q > 0 {
      RunCons(d, r + 32, Digits(q));
      RunDigits(d.(digits := d.digits + [r]), q, number);
    } else {
      RunCons(d, r, []);
      assert number == Raw(d.digits + [r]);
    }
  }

  /** The next field of the segment moves by n. */
  function MoveField(d: Decoder, n: int): Decoder {
    if d.field >= 5 then d.(ok := false, digits := [])
    else
      var e := d.(field := d.field + 1, digits := []);
      match d.field
      case 0 => e.(col := d.col + n)
      case 1 => e.(source := d.source + n)
      case 2 => e.(origLine := d.origLine + n)
      case 3 => e.(origCol := d.origCol + n)
      case _ => e
  }

  /** Every decoder between two fields reads bs as one field that moves by n. */
  ghost predicate ReadsAs(bs: seq<int>, n: int) {
    forall d: Decoder {:trigger Run(d, bs)} | d.ok && d.digits == [] :: Run(d, bs) == MoveField(d, n)
  }

  lemma RunEncode(d: Decoder, n: int)
    requires d.ok && d.digits == [] && -MAX < n < MAX
    ensures Run(d, Encode(n)) == MoveField(d, n)
  {
    ZigzagInRange(n);
    assert Pow32(0) == 1 && Raw([]) == 0;
    RunDigits(d, Zigzag(n), Zigzag(n));
  }

  /** What addVLQ writes for n is read as a field that moves by n. */
  lemma EncodeReadsAs(n: int)
    requires -MAX < n < MAX
    ensures ReadsAs(Encode(n), n)
  {
    forall d: Decoder | d.ok && d.digits == []
      ensures Run(d, Encode(n)) == MoveField(d, n)
    {
      RunEncode(d, n);
    }
  }
}
