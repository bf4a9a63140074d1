/**
 The formats of MessagePack, written out from its specification (sections "Formats" and "Serialization"),
 and the reader against them: what it reads is exactly what can be written.
 */
module MsgPackFormats {
  import opened MsgPack

  datatype Width = W1 | W2 | W4 | W8

  function Octets(w: Width): nat {
    match w
    case W1 => 1
    case W2 => 2
    case W4 => 4
    case W8 => 8
  }

  /** Where the length of a string, an array and so on is written: in the first byte, or in so many bytes after it. */
  datatype Length = InFirst | In(w: Width)

  /** A value with the format that has been chosen for it and for its parts. */
  datatype Packed =
    | PNil
    | PBool(b: bool)
    | PFixint(n: int)
    | PUint(w: Width, n: int)
    | PInt(w: Width, n: int)
    | PFloat(bits: seq<Byte>)
    | PStr(l: Length, utf8: seq<Byte>)
    | PBin(l: Length, bytes: seq<Byte>)
    | PExt(l: Length, kind: Byte, data: seq<Byte>)
    | PArr(l: Length, items: seq<Packed>)
    | PMap(l: Length, keysAndValues: seq<Packed>)

  function Power(w: nat): nat {
    if w == 0 then 1 else 256 * Power(w - 1)
  }

  predicate Below(n: int, w: Width) {
    0 <= n < Power(Octets(w))
  }

  /** Lengths that fit; a length is written in one, two or four bytes. */
  predicate Fits(n: nat, l: Length, inFirst: nat) {
    match l
    case InFirst => n < inFirst
    case In(w) => w != W8 && Below(n, w)
  }

  predicate Legal(p: Packed)
    decreases p
  {
    match p
    case PNil => true
    case PBool(_) => true
    case PFixint(n) => -32 <= n < 128
    case PUint(w, n) => Below(n, w)
    case PInt(w, n) => 0 <= 2 * n + Power(Octets(w)) && 2 * n < Power(Octets(w))
    case PFloat(bits) => |bits| == 4 || |bits| == 8
    case PStr(l, utf8) => Fits(|utf8|, l, 32)
    case PBin(l, bytes) => Fits(|bytes|, l, 0)
    case PExt(l, _, data) =>
      if l.InFirst? then |data| == 1 || |data| == 2 || |data| == 4 || |data| == 8 || |data| == 16
      else Fits(|data|, l, 0)
    case PArr(l, items) => Fits(|items|, l, 16) && l != In(W1) && AllLegal(items)
    case PMap(l, keysAndValues) =>
      |keysAndValues| % 2 == 0 && Fits(|keysAndValues| / 2, l, 16) && l != In(W1) && AllLegal(keysAndValues)
  }

  predicate AllLegal(ps: seq<Packed>)
    decreases ps
  {
    ps == [] || (Legal(ps[0]) && AllLegal(ps[1..]))
  }

  /** n in w bytes, most significant first. */
  function Written(n: nat, w: nat): seq<Byte> {
    if w == 0 then [] else Written(n / 256, w - 1) + [n % 256]
  }

  /** The formats of a family come in the order of their widths. */
  function Step(w: Width): nat {
    match w
    case W1 => 0
    case W2 => 1
    case W4 => 2
    case W8 => 3
  }

  /** The two's complement of a number in w bytes. */
  function Wrapped(n: int, w: nat): nat
    requires 0 <= 2 * n + Power(w)
  {
    if n < 0 then n + Power(w) else n
  }

  /** The bytes of a value in the chosen format. */
  function BytesOf(p: Packed): seq<Byte>
    requires Legal(p)
    decreases p
  {
    match p
    case PNil => [0xc0]
    case PBool(b) => [if b then 0xc3 else 0xc2]
    case PFixint(n) => [if n < 0 then 256 + n else n]
    case PUint(w, n) => [0xcc + Step(w)] + Written(n, Octets(w))
    case PInt(w, n) => [0xd0 + Step(w)] + Written(Wrapped(n, Octets(w)), Octets(w))
    case PFloat(bits) => [if |bits| == 4 then 0xca else 0xcb] + bits
    case PStr(InFirst, utf8) => [0xa0 + |utf8|] + utf8
    case PStr(In(w), utf8) => [0xd9 + Step(w)] + Written(|utf8|, Octets(w)) + utf8
    case PBin(In(w), bytes) => [0xc4 + Step(w)] + Written(|bytes|, Octets(w)) + bytes
    case PExt(InFirst, kind, data) =>
      [if |data| == 1 then 0xd4 else if |data| == 2 then 0xd5 else if |data| == 4 then 0xd6
       else if |data| == 8 then 0xd7 else 0xd8] + [kind] + data
    case PExt(In(w), kind, data) => [0xc7 + Step(w)] + Written(|data|, Octets(w)) + [kind] + data
    case PArr(InFirst, items) => [0x90 + |items|] + AllBytes(items)
    case PArr(In(w), items) => [if w == W2 then 0xdc else 0xdd] + Written(|items|, Octets(w)) + AllBytes(items)
    case PMap(InFirst, kvs) => [0x80 + |kvs| / 2] + AllBytes(kvs)
    case PMap(In(w), kvs) => [if w == W2 then 0xde else 0xdf] + Written(|kvs| / 2, Octets(w)) + AllBytes(kvs)
  }

  function AllBytes(ps: seq<Packed>): seq<Byte>
    requires AllLegal(ps)
    decreases ps
  {
    if ps == [] then [] else BytesOf(ps[0]) + AllBytes(ps[1..])
  }

  function ValueOf(p: Packed): Value
    decreases p
  {
    match p
    case PNil => Nil
    case PBool(b) => Bool(b)
    case PFixint(n) => Int(n)
    case PUint(_, n) => Int(n)
    case PInt(_, n) => Int(n)
    case PFloat(bits) => Float(bits)
    case PStr(_, utf8) => Str(utf8)
    case PBin(_, bytes) => Bin(bytes)
    case PExt(_, kind, data) => Ext([kind] + data)
    case PArr(_, items) => Arr(AllValues(items))
    case PMap(_, kvs) => Map(AllValues(kvs))
  }

  function AllValues(ps: seq<Packed>): seq<Value>
    decreases ps
  {
    if ps == [] then [] else [ValueOf(ps[0])] + AllValues(ps[1..])
  }

  // ----- numbers -----

  lemma {:induction false} SamePower(w: nat)
    ensures Power(w) == Pow256(w) && Power(w) >= 1
  {
    if w > 0 {
      SamePower(w - 1);
    }
  }

  lemma {:induction false} WrittenIsRead(n: nat, w: nat)
    requires n < Power(w)
    ensures |Written(n, w)| == w && BigEndian(Written(n, w)) == n
  {
    if w > 0 {
      WrittenIsRead(n / 256, w - 1);
      assert Written(n, w)[..w - 1] == Written(n / 256, w - 1);
    }
  }

  lemma {:induction false} ReadIsWritten(s: seq<Byte>)
    ensures BigEndian(s) < Power(|s|) && Written(BigEndian(s), |s|) == s
  {
    if s != [] {
      ReadIsWritten(s[..|s| - 1]);
      assert s == s[..|s| - 1] + [s[|s| - 1]];
    }
  }

  lemma Halves(n: nat, p: nat)
    requires p % 2 == 0
    ensures 2 * (n / 256) >= p <==> 2 * n >= 256 * p
  {
  }

  /** The highest bit of the first byte tells whether a number is in the upper half. */
  lemma {:induction false} HighestBit(n: nat, w: nat)
    requires 0 < w && n < Power(w)
    ensures |Written(n, w)| == w && (Written(n, w)[0] >= 0x80 <==> 2 * n >= Power(w))
  {
    WrittenIsRead(n, w);
    if w == 1 {
      assert Power(1) == 256 * Power(0) && Written(n, 1) == [] + [n % 256];
    } else {
      var p := Power(w - 1);
      assert p == 256 * Power(w - 2) && Power(w) == 256 * p;
      Halves(n, p);
      WrittenIsRead(n / 256, w - 1);
      HighestBit(n / 256, w - 1);
      assert Written(n, w)[0] == Written(n / 256, w - 1)[0];
    }
  }

  lemma SignedIsRead(n: int, w: nat)
    requires 0 < w && 0 <= 2 * n + Power(w) && 2 * n < Power(w)
    ensures var m := Wrapped(n, w); m < Power(w) && |Written(m, w)| == w && TwosComplement(Written(m, w)) == n
  {
    SamePower(w);
    WrittenIsRead(Wrapped(n, w), w);
    HighestBit(Wrapped(n, w), w);
  }

  lemma FirstOfNumber(s: seq<Byte>)
    requires s != []
    ensures BigEndian(s) < Power(|s|) && (s[0] >= 0x80 <==> 2 * BigEndian(s) >= Power(|s|))
  {
    ReadIsWritten(s);
    HighestBit(BigEndian(s), |s|);
  }

  lemma SignedIsWritten(s: seq<Byte>)
    requires s != []
    ensures var n := TwosComplement(s);
      && 0 <= 2 * n + Power(|s|) && 2 * n < Power(|s|) && Wrapped(n, |s|) == BigEndian(s)
  {
    SamePower(|s|);
    FirstOfNumber(s);
  }

  // ----- what is written is read -----

  /** The parts of a buffer made of a marker, a length, a body and whatever follows. */
  lemma PartsOf(m: Byte, head: seq<Byte>, body: seq<Byte>, rest: seq<Byte>)
    ensures var buf := [m] + head + body + rest;
      && buf[0] == m && buf[1..1 + |head|] == head && buf[1 + |head|..] == body + rest
      && buf[1 + |head|..1 + |head| + |body|] == body
  {
  }

  lemma BodyOf(m: Byte, body: seq<Byte>, rest: seq<Byte>)
    ensures var buf := [m] + body + rest;
      buf[0] == m && buf[1..] == body + rest && buf[1..1 + |body|] == body
  {
  }

  /** The bytes are read as the value, and no byte more. */
  ghost predicate ReadsAs(bytes: seq<Byte>, v: Value, rest: seq<Byte>) {
    One(bytes + rest) == Got(v, |bytes|)
  }

  lemma SizedIsRead(m: Byte, payload: seq<Byte>, k: Scalar, rest: seq<Byte>)
    requires HeadOf(m) == Sized(|payload|, k)
    ensures ReadsAs([m] + payload, MakeScalar(k, payload), rest)
  {
    BodyOf(m, payload, rest);
  }

  lemma MeasuredIsRead(m: Byte, n: nat, w: nat, payload: seq<Byte>, k: Scalar, rest: seq<Byte>)
    requires HeadOf(m) == Measured(w, k) && n < Power(w) && |payload| == n + if k.AsExt? then 1 else 0
    ensures ReadsAs([m] + Written(n, w) + payload, MakeScalar(k, payload), rest)
  {
    WrittenIsRead(n, w);
    PartsOf(m, Written(n, w), payload, rest);
  }

  lemma ItemsAreRead(m: Byte, n: nat, g: Group, parts: seq<Byte>, vs: seq<Value>, rest: seq<Byte>)
    requires HeadOf(m) == Items(n, g) && Many(parts + rest, n) == Got(vs, |parts|)
    ensures ReadsAs([m] + parts, MakeGroup(g, vs), rest)
  {
    var buf := [m] + parts + rest;
    BodyOf(m, parts, rest);
    assert One(buf) == Gather(buf, 1, n, g);
  }

  lemma CountedAreRead(m: Byte, n: nat, w: nat, g: Group, parts: seq<Byte>, vs: seq<Value>, rest: seq<Byte>)
    requires HeadOf(m) == Counted(w, g) && n < Power(w)
    requires Many(parts + rest, n * if g.AsMap? then 2 else 1) == Got(vs, |parts|)
    ensures ReadsAs([m] + Written(n, w) + parts, MakeGroup(g, vs), rest)
  {
    WrittenIsRead(n, w);
    PartsOf(m, Written(n, w), parts, rest);
  }

  ghost predicate Reads(p: Packed, rest: seq<Byte>)
    requires Legal(p)
  {
    ReadsAs(BytesOf(p), ValueOf(p), rest)
  }

  /** What the reader makes of the markers that come in several widths. */
  lemma NumberMarkers(w: Width)
    ensures HeadOf(0xcc + Step(w)) == Sized(Octets(w), AsUint) && HeadOf(0xd0 + Step(w)) == Sized(Octets(w), AsInt)
  {
  }

  lemma BlobMarkers(w: Width)
    requires w != W8
    ensures HeadOf(0xd9 + Step(w)) == Measured(Octets(w), AsStr)
    ensures HeadOf(0xc4 + Step(w)) == Measured(Octets(w), AsBin)
    ensures HeadOf(0xc7 + Step(w)) == Measured(Octets(w), AsExt)
  {
  }

  lemma GroupMarkers(w: Width)
    requires w == W2 || w == W4
    ensures HeadOf(if w == W2 then 0xdc else 0xdd) == Counted(Octets(w), AsArr)
    ensures HeadOf(if w == W2 then 0xde else 0xdf) == Counted(Octets(w), AsMap)
  {
  }

  lemma UintIsRead(w: Width, n: int, rest: seq<Byte>)
    requires Below(n, w)
    ensures Reads(PUint(w, n), rest)
  {
    NumberMarkers(w);
    WrittenIsRead(n, Octets(w));
    SizedIsRead(0xcc + Step(w), Written(n, Octets(w)), AsUint, rest);
  }

  lemma IntIsRead(w: Width, n: int, rest: seq<Byte>)
    requires Legal(PInt(w, n))
    ensures Reads(PInt(w, n), rest)
  {
    NumberMarkers(w);
    SignedIsRead(n, Octets(w));
    SizedIsRead(0xd0 + Step(w), Written(Wrapped(n, Octets(w)), Octets(w)), AsInt, rest);
  }

  lemma ShortStrIsRead(utf8: seq<Byte>, rest: seq<Byte>)
    requires Legal(PStr(InFirst, utf8))
    ensures Reads(PStr(InFirst, utf8), rest)
  {
    SizedIsRead(0xa0 + |utf8|, utf8, AsStr, rest);
  }

  lemma StrIsRead(w: Width, utf8: seq<Byte>, rest: seq<Byte>)
    requires Legal(PStr(In(w), utf8))
    ensures Reads(PStr(In(w), utf8), rest)
  {
    BlobMarkers(w);
    MeasuredIsRead(0xd9 + Step(w), |utf8|, Octets(w), utf8, AsStr, rest);
  }

  lemma BinIsRead(w: Width, bytes: seq<Byte>, rest: seq<Byte>)
    requires Legal(PBin(In(w), bytes))
    ensures Reads(PBin(In(w), bytes), rest)
  {
    BlobMarkers(w);
    MeasuredIsRead(0xc4 + Step(w), |bytes|, Octets(w), bytes, AsBin, rest);
  }

  lemma ExtBytes(p: Packed, m: Byte, written: seq<Byte>)
    requires Legal(p) && p.PExt? && BytesOf(p) == [m] + written + [p.kind] + p.data
    ensures BytesOf(p) == [m] + written + ([p.kind] + p.data)
  {
  }

  lemma ShortExtIsRead(kind: Byte, data: seq<Byte>, rest: seq<Byte>)
    requires Legal(PExt(InFirst, kind, data))
    ensures Reads(PExt(InFirst, kind, data), rest)
  {
    var m := BytesOf(PExt(InFirst, kind, data))[0];
    SizedIsRead(m, [kind] + data, AsExt, rest);
    assert [m] + ([kind] + data) == [m] + [kind] + data;
  }

  lemma ExtIsRead(w: Width, kind: Byte, data: seq<Byte>, rest: seq<Byte>)
    requires Legal(PExt(In(w), kind, data))
    ensures Reads(PExt(In(w), kind, data), rest)
  {
    BlobMarkers(w);
    ExtBytes(PExt(In(w), kind, data), 0xc7 + Step(w), Written(|data|, Octets(w)));
    MeasuredIsRead(0xc7 + Step(w), |data|, Octets(w), [kind] + data, AsExt, rest);
  }

  ghost predicate PartsRead(ps: seq<Packed>, rest: seq<Byte>)
    requires AllLegal(ps)
  {
    Many(AllBytes(ps) + rest, |ps|) == Got(AllValues(ps), |AllBytes(ps)|)
  }

  lemma ShortArrIsRead(ps: seq<Packed>, rest: seq<Byte>)
    requires Legal(PArr(InFirst, ps)) && PartsRead(ps, rest)
    ensures Reads(PArr(InFirst, ps), rest)
  {
    ItemsAreRead(0x90 + |ps|, |ps|, AsArr, AllBytes(ps), AllValues(ps), rest);
  }

  lemma ShortMapIsRead(ps: seq<Packed>, rest: seq<Byte>)
    requires Legal(PMap(InFirst, ps)) && PartsRead(ps, rest)
    ensures Reads(PMap(InFirst, ps), rest)
  {
    ItemsAreRead(0x80 + |ps| / 2, |ps|, AsMap, AllBytes(ps), AllValues(ps), rest);
  }

  lemma ArrIsRead(w: Width, ps: seq<Packed>, rest: seq<Byte>)
    requires Legal(PArr(In(w), ps)) && PartsRead(ps, rest)
    ensures Reads(PArr(In(w), ps), rest)
  {
    GroupMarkers(w);
    CountedAreRead(if w == W2 then 0xdc else 0xdd, |ps|, Octets(w), AsArr, AllBytes(ps), AllValues(ps), rest);
  }

  lemma MapIsRead(w: Width, ps: seq<Packed>, rest: seq<Byte>)
    requires Legal(PMap(In(w), ps)) && PartsRead(ps, rest)
    ensures Reads(PMap(In(w), ps), rest)
  {
    GroupMarkers(w);
    CountedAreRead(if w == W2 then 0xde else 0xdf, |ps| / 2, Octets(w), AsMap, AllBytes(ps), AllValues(ps), rest);
  }

  lemma AtomIsRead(p: Packed, rest: seq<Byte>)
    requires Legal(p) && (p.PNil? || p.PBool? || p.PFixint?)
    ensures Reads(p, rest)
  {
    assert (BytesOf(p) + rest)[0] == BytesOf(p)[0];
  }

  lemma FloatIsRead(bits: seq<Byte>, rest: seq<Byte>)
    requires Legal(PFloat(bits))
    ensures Reads(PFloat(bits), rest)
  {
    SizedIsRead(BytesOf(PFloat(bits))[0], bits, AsFloat, rest);
  }

  /** Every value, in every format it may be written in, is read back, and no byte more. */
  lemma {:induction false} EncodedIsRead(p: Packed, rest: seq<Byte>)
    requires Legal(p)
    ensures Reads(p, rest)
    decreases p
  {
    match p
    case PUint(w, n) => UintIsRead(w, n, rest);
    case PInt(w, n) => IntIsRead(w, n, rest);
    case PFloat(bits) => FloatIsRead(bits, rest);
    case PStr(InFirst, utf8) => ShortStrIsRead(utf8, rest);
    case PStr(In(w), utf8) => StrIsRead(w, utf8, rest);
    case PBin(In(w), bytes) => BinIsRead(w, bytes, rest);
    case PExt(InFirst, kind, data) => ShortExtIsRead(kind, data, rest);
    case PExt(In(w), kind, data) => ExtIsRead(w, kind, data, rest);
    case PArr(l, ps) =>
      AllAreRead(ps, rest);
      if l.InFirst? {
        ShortArrIsRead(ps, rest);
      } else {
        ArrIsRead(l.w, ps, rest);
      }
    case PMap(l, ps) =>
      AllAreRead(ps, rest);
      if l.InFirst? {
        ShortMapIsRead(ps, rest);
      } else {
        MapIsRead(l.w, ps, rest);
      }
    case _ => AtomIsRead(p, rest);
  }

  lemma {:induction false} AllAreRead(ps: seq<Packed>, rest: seq<Byte>)
    requires AllLegal(ps)
    ensures Many(AllBytes(ps) + rest, |ps|) == Got(AllValues(ps), |AllBytes(ps)|)
    decreases ps
  {
    if ps != [] {
      var first, others := BytesOf(ps[0]), AllBytes(ps[1..]);
      EncodedIsRead(ps[0], others + rest);
      AllAreRead(ps[1..], rest);
      assert AllBytes(ps) + rest == first + (others + rest);
      OneMoreIsRead(first, others + rest, ValueOf(ps[0]), |ps| - 1);
    }
  }

  lemma OneMoreIsRead(first: seq<Byte>, rest: seq<Byte>, v: Value, n: nat)
    requires One(first + rest) == Got(v, |first|) && Many(rest, n).Got?
    ensures Many(first + rest, n + 1) == Got([v] + Many(rest, n).value, |first| + Many(rest, n).len)
  {
    assert (first + rest)[|first|..] == rest;
  }

  // ----- what is read has been written -----

  function WidthOf(n: nat): Width {
    if n == 1 then W1 else if n == 2 then W2 else if n == 4 then W4 else W8
  }

  /** What each kind of head tells about the first byte. */
  lemma NumberHeads(m: Byte, n: nat)
    ensures HeadOf(m) == Sized(n, AsUint) ==> m == 0xcc + Step(WidthOf(n)) && n == Octets(WidthOf(n))
    ensures HeadOf(m) == Sized(n, AsInt) ==> m == 0xd0 + Step(WidthOf(n)) && n == Octets(WidthOf(n))
    ensures HeadOf(m) == Sized(n, AsFloat) ==> (n == 4 && m == 0xca) || (n == 8 && m == 0xcb)
  {
  }

  lemma BlobHeads(m: Byte, n: nat)
    ensures HeadOf(m) == Sized(n, AsStr) ==> n < 32 && m == 0xa0 + n
    ensures HeadOf(m) == Sized(n, AsExt) ==>
      n >= 2 && Legal(PExt(InFirst, 0, seq(n - 1, i => 0))) && m == 0xd4 + Step5(n - 1)
    ensures HeadOf(m) != Sized(n, AsBin)
  {
  }

  function Step5(n: nat): nat {
    if n == 1 then 0 else if n == 2 then 1 else if n == 4 then 2 else if n == 8 then 3 else 4
  }

  lemma MeasuredHeads(m: Byte, w: nat)
    ensures HeadOf(m) == Measured(w, AsStr) ==> m == 0xd9 + Step(WidthOf(w)) && Octets(WidthOf(w)) == w && w != 8
    ensures HeadOf(m) == Measured(w, AsBin) ==> m == 0xc4 + Step(WidthOf(w)) && Octets(WidthOf(w)) == w && w != 8
    ensures HeadOf(m) == Measured(w, AsExt) ==> m == 0xc7 + Step(WidthOf(w)) && Octets(WidthOf(w)) == w && w != 8
    ensures HeadOf(m).Measured? ==> HeadOf(m).scalar.AsStr? || HeadOf(m).scalar.AsBin? || HeadOf(m).scalar.AsExt?
  {
  }

  lemma GroupHeads(m: Byte, n: nat)
    ensures HeadOf(m) == Items(n, AsArr) ==> n < 16 && m == 0x90 + n
    ensures HeadOf(m) == Items(n, AsMap) ==> n % 2 == 0 && n / 2 < 16 && m == 0x80 + n / 2
    ensures HeadOf(m) == Counted(n, AsArr) ==> (n == 2 && m == 0xdc) || (n == 4 && m == 0xdd)
    ensures HeadOf(m) == Counted(n, AsMap) ==> (n == 2 && m == 0xde) || (n == 4 && m == 0xdf)
  {
  }

  /** The buffer begins with the encoding of p. */
  ghost predicate StandsAt(p: Packed, buf: seq<Byte>) {
    Legal(p) && BytesOf(p) <= buf
  }

  lemma StandsIsRead(p: Packed, buf: seq<Byte>)
    requires StandsAt(p, buf)
    ensures One(buf) == Got(ValueOf(p), |BytesOf(p)|)
  {
    EncodedIsRead(p, buf[|BytesOf(p)|..]);
    assert BytesOf(p) + buf[|BytesOf(p)|..] == buf;
  }

  lemma WholeWasWritten(buf: seq<Byte>) returns (p: Packed)
    requires buf != [] && HeadOf(buf[0]).Whole?
    ensures StandsAt(p, buf)
  {
    var m: int := buf[0];
    p := if m == 0xc0 then PNil else if m == 0xc2 then PBool(false) else if m == 0xc3 then PBool(true)
         else PFixint(if m < 0x80 then m else m - 0x100);
  }

  lemma NumberWasWritten(buf: seq<Byte>, n: nat, k: Scalar) returns (p: Packed)
    requires buf != [] && HeadOf(buf[0]) == Sized(n, k) && 1 + n <= |buf| && (k.AsUint? || k.AsInt? || k.AsFloat?)
    ensures StandsAt(p, buf)
  {
    var payload := buf[1..1 + n];
    assert [buf[0]] + payload <= buf;
    NumberHeads(buf[0], n);
    ReadIsWritten(payload);
    match k
    case AsUint =>
      p := PUint(WidthOf(n), BigEndian(payload));
    case AsInt =>
      SignedIsWritten(payload);
      p := PInt(WidthOf(n), TwosComplement(payload));
    case AsFloat =>
      p := PFloat(payload);
  }

  lemma BlobWasWritten(buf: seq<Byte>, n: nat, k: Scalar) returns (p: Packed)
    requires buf != [] && HeadOf(buf[0]) == Sized(n, k) && 1 + n <= |buf| && (k.AsStr? || k.AsExt?)
    ensures StandsAt(p, buf)
  {
    var payload := buf[1..1 + n];
    assert [buf[0]] + payload <= buf;
    BlobHeads(buf[0], n);
    if k.AsStr? {
      p := PStr(InFirst, payload);
    } else {
      p := PExt(InFirst, payload[0], payload[1..]);
      assert [buf[0]] + [payload[0]] + payload[1..] == [buf[0]] + payload;
    }
  }

  lemma FrontOf(buf: seq<Byte>, w: nat, s: seq<Byte>)
    requires 1 + w <= |buf| && s <= buf[1 + w..]
    ensures [buf[0]] + buf[1..1 + w] + s <= buf
  {
    assert [buf[0]] + buf[1..1 + w] == buf[..1 + w];
    assert buf == buf[..1 + w] + buf[1 + w..];
  }

  lemma StringWasWritten(buf: seq<Byte>, w: nat, k: Scalar, payload: seq<Byte>) returns (p: Packed)
    requires buf != [] && HeadOf(buf[0]) == Measured(w, k) && 1 + w <= |buf| && !k.AsExt?
    requires |payload| == BigEndian(buf[1..1 + w]) && [buf[0]] + buf[1..1 + w] + payload <= buf
    ensures StandsAt(p, buf)
  {
    MeasuredHeads(buf[0], w);
    ReadIsWritten(buf[1..1 + w]);
    p := if k.AsStr? then PStr(In(WidthOf(w)), payload) else PBin(In(WidthOf(w)), payload);
  }

  lemma ExtWasWritten(buf: seq<Byte>, w: nat, kind: Byte, data: seq<Byte>) returns (p: Packed)
    requires buf != [] && HeadOf(buf[0]) == Measured(w, AsExt) && 1 + w <= |buf|
    requires |data| == BigEndian(buf[1..1 + w]) && [buf[0]] + buf[1..1 + w] + [kind] + data <= buf
    ensures StandsAt(p, buf)
  {
    MeasuredHeads(buf[0], w);
    ReadIsWritten(buf[1..1 + w]);
    p := PExt(In(WidthOf(w)), kind, data);
  }

  lemma MeasuredWasWritten(buf: seq<Byte>, w: nat, k: Scalar) returns (p: Packed)
    requires buf != [] && HeadOf(buf[0]) == Measured(w, k) && 1 + w <= |buf|
    requires 1 + w + BigEndian(buf[1..1 + w]) + (if k.AsExt? then 1 else 0) <= |buf|
    ensures StandsAt(p, buf)
  {
    var written := buf[1..1 + w];
    var n := BigEndian(written);
    if k.AsExt? {
      var kind, data := buf[1 + w], buf[2 + w..2 + w + n];
      FrontOf(buf, w, [kind] + data);
      assert [buf[0]] + written + ([kind] + data) == [buf[0]] + written + [kind] + data;
      p := ExtWasWritten(buf, w, kind, data);
    } else {
      var payload := buf[1 + w..1 + w + n];
      FrontOf(buf, w, payload);
      p := StringWasWritten(buf, w, k, payload);
    }
  }

  lemma ItemsWereWritten(buf: seq<Byte>, n: nat, g: Group, ps: seq<Packed>) returns (p: Packed)
    requires buf != [] && HeadOf(buf[0]) == Items(n, g)
    requires AllLegal(ps) && |ps| == n && AllBytes(ps) <= buf[1..]
    ensures StandsAt(p, buf)
  {
    GroupHeads(buf[0], n);
    assert [buf[0]] + AllBytes(ps) <= buf;
    p := if g.AsArr? then PArr(InFirst, ps) else PMap(InFirst, ps);
  }

  lemma CountedWereWritten(buf: seq<Byte>, w: nat, g: Group, ps: seq<Packed>) returns (p: Packed)
    requires buf != [] && HeadOf(buf[0]) == Counted(w, g) && 1 + w <= |buf|
    requires AllLegal(ps) && |ps| == BigEndian(buf[1..1 + w]) * (if g.AsMap? then 2 else 1)
    requires AllBytes(ps) <= buf[1 + w..]
    ensures StandsAt(p, buf)
  {
    FrontOf(buf, w, AllBytes(ps));
    if g.AsArr? {
      p := ArrWasWritten(buf, w, ps);
    } else {
      p := MapWasWritten(buf, w, ps);
    }
  }

  lemma ArrWasWritten(buf: seq<Byte>, w: nat, ps: seq<Packed>) returns (p: Packed)
    requires buf != [] && HeadOf(buf[0]) == Counted(w, AsArr) && 1 + w <= |buf|
    requires AllLegal(ps) && |ps| == BigEndian(buf[1..1 + w])
    requires [buf[0]] + buf[1..1 + w] + AllBytes(ps) <= buf
    ensures StandsAt(p, buf)
  {
    GroupHeads(buf[0], w);
    ReadIsWritten(buf[1..1 + w]);
    p := PArr(In(WidthOf(w)), ps);
  }

  lemma MapWasWritten(buf: seq<Byte>, w: nat, ps: seq<Packed>) returns (p: Packed)
    requires buf != [] && HeadOf(buf[0]) == Counted(w, AsMap) && 1 + w <= |buf|
    requires AllLegal(ps) && |ps| == BigEndian(buf[1..1 + w]) * 2
    requires [buf[0]] + buf[1..1 + w] + AllBytes(ps) <= buf
    ensures StandsAt(p, buf)
  {
    GroupHeads(buf[0], w);
    ReadIsWritten(buf[1..1 + w]);
    p := PMap(In(WidthOf(w)), ps);
  }

  /** What is read off the front of a buffer is some value in some format that stands there. */
  lemma {:induction false} ReadIsEncoded(buf: seq<Byte>) returns (p: Packed)
    requires One(buf).Got?
    ensures StandsAt(p, buf)
    decreases |buf|, 1
  {
    match HeadOf(buf[0])
    case Whole(_) =>
      p := WholeWasWritten(buf);
    case Sized(n, k) =>
      BlobHeads(buf[0], n);
      if k.AsStr? || k.AsExt? {
        p := BlobWasWritten(buf, n, k);
      } else {
        p := NumberWasWritten(buf, n, k);
      }
    case Measured(w, k) =>
      p := MeasuredWasWritten(buf, w, k);
    case Items(n, g) =>
      var ps := AllWereEncoded(buf[1..], n);
      p := ItemsWereWritten(buf, n, g, ps);
    case Counted(w, g) =>
      var ps := AllWereEncoded(buf[1 + w..], BigEndian(buf[1..1 + w]) * if g.AsMap? then 2 else 1);
      p := CountedWereWritten(buf, w, g, ps);
  }

  lemma {:induction false} AllWereEncoded(buf: seq<Byte>, n: nat) returns (ps: seq<Packed>)
    requires Many(buf, n).Got?
    ensures AllLegal(ps) && |ps| == n && AllBytes(ps) <= buf
    decreases |buf|, 2, n
  {
    if n == 0 {
      return [];
    }
    var p := ReadIsEncoded(buf);
    var len := |BytesOf(p)|;
    StandsIsRead(p, buf);
    var others := AllWereEncoded(buf[len..], n - 1);
    assert buf == BytesOf(p) + buf[len..];
    ps := [p] + others;
    assert ps[1..] == others && AllBytes(ps) == BytesOf(p) + AllBytes(others);
  }

  // ----- when more bytes are asked for, some would do -----

  ghost predicate Completed(buf: seq<Byte>) {
    One(buf).Got? && One(buf).len == |buf|
  }

  ghost predicate AllCompleted(buf: seq<Byte>, n: nat) {
    Many(buf, n).Got? && Many(buf, n).len == |buf|
  }

  function Zeros(n: nat): seq<Byte> {
    seq(n, i => 0)
  }

  lemma {:induction false} NilsAreRead(n: nat) returns (nils: seq<Byte>)
    ensures AllCompleted(nils, n)
  {
    if n == 0 {
      return [];
    }
    var others := NilsAreRead(n - 1);
    nils := [0xc0] + others;
    assert nils[1..] == others;
  }

  lemma SizedCompletes(buf: seq<Byte>) returns (more: seq<Byte>)
    requires One(buf).More? && buf != [] && (HeadOf(buf[0]).Sized? || HeadOf(buf[0]).Measured?)
    ensures Completed(buf + more)
  {
    match HeadOf(buf[0])
    case Sized(n, k) =>
      more := Zeros(1 + n - |buf|);
    case Measured(w, k) =>
      var head := if 1 + w > |buf| then Zeros(1 + w - |buf|) else [];
      assert head == [] ==> buf + head == buf;
      var n := BigEndian((buf + head)[1..1 + w]) + if k.AsExt? then 1 else 0;
      more := head + Zeros(1 + w + n - |buf + head|);
      assert (buf + more)[1..1 + w] == (buf + head)[1..1 + w];
  }

  lemma {:induction false} Completes(buf: seq<Byte>) returns (more: seq<Byte>)
    requires One(buf).More?
    ensures Completed(buf + more)
    decreases |buf|, 1
  {
    if buf == [] {
      return [0xc0];
    }
    match HeadOf(buf[0])
    case Sized(_, _) =>
      more := SizedCompletes(buf);
    case Measured(_, _) =>
      more := SizedCompletes(buf);
    case Items(n, g) =>
      more := AllComplete(buf[1..], n);
      assert (buf + more)[1..] == buf[1..] + more;
    case Counted(w, g) =>
      more := CountedCompletes(buf);
  }

  lemma {:induction false} CountedCompletes(buf: seq<Byte>) returns (more: seq<Byte>)
    requires One(buf).More? && buf != [] && HeadOf(buf[0]).Counted?
    ensures Completed(buf + more)
    decreases |buf|, 0
  {
    var w, times := HeadOf(buf[0]).width, if HeadOf(buf[0]).group.AsMap? then 2 else 1;
    if 1 + w > |buf| {
      var head := Zeros(1 + w - |buf|);
      more := NilsAreRead(BigEndian((buf + head)[1..1 + w]) * times);
      more := head + more;
      assert (buf + more)[1..1 + w] == (buf + head)[1..1 + w];
      assert (buf + more)[1 + w..] == more[|head|..];
    } else {
      more := AllComplete(buf[1 + w..], BigEndian(buf[1..1 + w]) * times);
      assert (buf + more)[1..1 + w] == buf[1..1 + w] && (buf + more)[1 + w..] == buf[1 + w..] + more;
    }
  }

  lemma {:induction false} AllComplete(buf: seq<Byte>, n: nat) returns (more: seq<Byte>)
    requires Many(buf, n).More?
    ensures AllCompleted(buf + more, n)
    decreases |buf|, 2, n
  {
    if One(buf).Got? {
      var len := One(buf).len;
      more := AllComplete(buf[len..], n - 1);
      OneIsStable(buf, more);
      assert (buf + more)[len..] == buf[len..] + more;
    } else {
      var first := Completes(buf);
      var others := NilsAreRead(n - 1);
      more := first + others;
      OneIsStable(buf + first, others);
      assert buf + more == buf + first + others;
      assert (buf + more)[|buf + first|..] == others;
    }
  }

  /**
   The three answers of the reader: a value is at the front if and only if an encoding of one stands there;
   more bytes are asked for if and only if none does yet but bytes could follow that make one; and the bytes
   are bad if and only if no bytes could.
   */
  lemma AnswersAreExact(buf: seq<Byte>)
    ensures One(buf).Got? <==> exists p :: StandsAt(p, buf)
    ensures forall p | StandsAt(p, buf) :: One(buf) == Got(ValueOf(p), |BytesOf(p)|)
    ensures One(buf).More? <==>
      !(exists p :: StandsAt(p, buf)) && exists p, more: seq<Byte> :: StandsAt(p, buf + more)
    ensures One(buf).Invalid? <==> forall p, more: seq<Byte> :: !StandsAt(p, buf + more)
  {
    forall p | StandsAt(p, buf)
      ensures One(buf) == Got(ValueOf(p), |BytesOf(p)|)
    {
      StandsIsRead(p, buf);
    }
    match One(buf)
    case Got(_, _) =>
      var p := ReadIsEncoded(buf);
      assert StandsAt(p, buf + []) by {
        assert buf + [] == buf;
      }
    case More =>
      var more := Completes(buf);
      var p := ReadIsEncoded(buf + more);
    case Invalid =>
      forall p, more: seq<Byte>
        ensures !StandsAt(p, buf + more)
      {
        OneIsStable(buf, more);
        if StandsAt(p, buf + more) {
          StandsIsRead(p, buf + more);
        }
      }
  }
}
