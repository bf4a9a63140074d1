/** A reader for MessagePack values, as the stream decoder needs it: done, not enough bytes yet, or bad. */
module MsgPack {
  type Byte = n: int | 0 <= n < 256

  datatype Value =
    | Nil
    | Bool(b: bool)
    | Int(n: int)
    | Float(bits: seq<Byte>)
    | Str(utf8: seq<Byte>)
    | Bin(bytes: seq<Byte>)
    | Ext(data: seq<Byte>)
    | Arr(items: seq<Value>)
    | Map(keysAndValues: seq<Value>)

  datatype Outcome<+T> = Got(value: T, len: nat) | More | Invalid

  datatype Scalar = AsUint | AsInt | AsFloat | AsStr | AsBin | AsExt
  datatype Group = AsArr | AsMap

  /** What a marker byte announces. */
  datatype Head =
    | Whole(v: Value)
    | Sized(n: nat, scalar: Scalar)
    | Measured(width: nat, scalar: Scalar)
    | Items(n: nat, group: Group)
    | Counted(width: nat, group: Group)
    | Reserved

  function HeadOf(m: Byte): Head {
    if m < 0x80 then Whole(Int(m))
    else if m < 0x90 then Items(2 * (m - 0x80), AsMap)
    else if m < 0xa0 then Items(m - 0x90, AsArr)
    else if m < 0xc0 then Sized(m - 0xa0, AsStr)
    else if m >= 0xe0 then Whole(Int(m - 0x100))
    else match m
      case 0xc0 => Whole(Nil)
      case 0xc2 => Whole(Bool(false))
      case 0xc3 => Whole(Bool(true))
      case 0xc4 => Measured(1, AsBin)
      case 0xc5 => Measured(2, AsBin)
      case 0xc6 => Measured(4, AsBin)
      case 0xc7 => Measured(1, AsExt)
      case 0xc8 => Measured(2, AsExt)
      case 0xc9 => Measured(4, AsExt)
      case 0xca => Sized(4, AsFloat)
      case 0xcb => Sized(8, AsFloat)
      case 0xcc => Sized(1, AsUint)
      case 0xcd => Sized(2, AsUint)
      case 0xce => Sized(4, AsUint)
      case 0xcf => Sized(8, AsUint)
      case 0xd0 => Sized(1, AsInt)
      case 0xd1 => Sized(2, AsInt)
      case 0xd2 => Sized(4, AsInt)
      case 0xd3 => Sized(8, AsInt)
      case 0xd4 => Sized(2, AsExt)
      case 0xd5 => Sized(3, AsExt)
      case 0xd6 => Sized(5, AsExt)
      case 0xd7 => Sized(9, AsExt)
      case 0xd8 => Sized(17, AsExt)
      case 0xd9 => Measured(1, AsStr)
      case 0xda => Measured(2, AsStr)
      case 0xdb => Measured(4, AsStr)
      case 0xdc => Counted(2, AsArr)
      case 0xdd => Counted(4, AsArr)
      case 0xde => Counted(2, AsMap)
      case 0xdf => Counted(4, AsMap)
      case _ => Reserved
  }

  function Pow256(n: nat): nat {
    if n == 0 then 1 else 256 * Pow256(n - 1)
  }

  function BigEndian(s: seq<Byte>): nat {
    if s == [] then 0 else 256 * BigEndian(s[..|s| - 1]) + s[|s| - 1]
  }

  function TwosComplement(s: seq<Byte>): int {
    if s != [] && s[0] >= 0x80 then BigEndian(s) - Pow256(|s|) else BigEndian(s)
  }

  function MakeScalar(k: Scalar, s: seq<Byte>): Value {
    match k
    case AsUint => Int(BigEndian(s))
    case AsInt => Int(TwosComplement(s))
    case AsFloat => Float(s)
    case AsStr => Str(s)
    case AsBin => Bin(s)
    case AsExt => Ext(s)
  }

  function MakeGroup(g: Group, vs: seq<Value>): Value {
    match g
    case AsArr => Arr(vs)
    case AsMap => Map(vs)
  }

  /** n bytes from position at of a buffer. */
  function Take(buf: seq<Byte>, at: nat, n: nat, k: Scalar): (r: Outcome<Value>)
    requires 0 < at
    ensures r.Got? ==> 0 < r.len <= |buf|
  {
    if at + n <= |buf| then Got(MakeScalar(k, buf[at..at + n]), at + n) else More
  }

  function Gather(buf: seq<Byte>, at: nat, n: nat, g: Group): (r: Outcome<Value>)
    requires 0 < at
    ensures r.Got? ==> 0 < r.len <= |buf|
    decreases |buf|, 1
  {
    if at > |buf| then More
    else
      match Many(buf[at..], n)
      case Got(vs, len) => Got(MakeGroup(g, vs), at + len)
      case More => More
      case Invalid => Invalid
  }

  /** The value at the front of a buffer, and how many bytes it takes. */
  function One(buf: seq<Byte>): (r: Outcome<Value>)
    ensures r.Got? ==> 0 < r.len <= |buf|
    decreases |buf|, 2
  {
    if buf == [] then More
    else
      match HeadOf(buf[0])
      case Whole(v) => Got(v, 1)
      case Sized(n, k) => Take(buf, 1, n, k)
      case Measured(w, k) =>
        if 1 + w > |buf| then More
        else Take(buf, 1 + w, BigEndian(buf[1..1 + w]) + (if k.AsExt? then 1 else 0), k)
      case Items(n, g) => Gather(buf, 1, n, g)
      case Counted(w, g) =>
        if 1 + w > |buf| then More
        else Gather(buf, 1 + w, BigEndian(buf[1..1 + w]) * (if g.AsMap? then 2 else 1), g)
      case Reserved => Invalid
  }

  function Many(buf: seq<Byte>, n: nat): (r: Outcome<seq<Value>>)
    ensures r.Got? ==> r.len <= |buf|
    decreases |buf|, 3
  {
    if n == 0 then Got([], 0)
    else
      match One(buf)
      case Got(v, len) => (
        match Many(buf[len..], n - 1)
        case Got(vs, rest) => Got([v] + vs, len + rest)
        case More => More
        case Invalid => Invalid)
      case More => More
      case Invalid => Invalid
  }

  // ----- an answer, once given, does not depend on the bytes that follow -----

  lemma {:induction false} OneIsStable(a: seq<Byte>, b: seq<Byte>)
    ensures One(a).Got? || One(a).Invalid? ==> One(a + b) == One(a)
    decreases |a|, 2
  {
    if a != [] {
      assert (a + b)[0] == a[0];
      match HeadOf(a[0])
      case Whole(_) =>
      case Reserved =>
      case Sized(n, k) => TakeIsStable(a, b, 1, n, k);
      case Measured(w, k) =>
        if 1 + w <= |a| {
          assert (a + b)[1..1 + w] == a[1..1 + w];
          TakeIsStable(a, b, 1 + w, BigEndian(a[1..1 + w]) + (if k.AsExt? then 1 else 0), k);
        }
      case Items(n, g) => GatherIsStable(a, b, 1, n, g);
      case Counted(w, g) =>
        if 1 + w <= |a| {
          assert (a + b)[1..1 + w] == a[1..1 + w];
          GatherIsStable(a, b, 1 + w, BigEndian(a[1..1 + w]) * (if g.AsMap? then 2 else 1), g);
        }
    }
  }

  lemma TakeIsStable(a: seq<Byte>, b: seq<Byte>, at: nat, n: nat, k: Scalar)
    requires 0 < at
    ensures Take(a, at, n, k).Got? ==> Take(a + b, at, n, k) == Take(a, at, n, k)
  {
    if at + n <= |a| {
      assert (a + b)[at..at + n] == a[at..at + n];
    }
  }

  lemma {:induction false} GatherIsStable(a: seq<Byte>, b: seq<Byte>, at: nat, n: nat, g: Group)
    requires 0 < at
    ensures Gather(a, at, n, g) != More ==> Gather(a + b, at, n, g) == Gather(a, at, n, g)
    decreases |a|, 1
  {
    if at <= |a| {
      assert (a + b)[at..] == a[at..] + b;
      ManyIsStable(a[at..], b, n);
    }
  }

  lemma {:induction false} ManyIsStable(a: seq<Byte>, b: seq<Byte>, n: nat)
    ensures Many(a, n) != More ==> Many(a + b, n) == Many(a, n)
    decreases |a|, 3
  {
    if n > 0 {
      OneIsStable(a, b);
      if One(a).Got? {
        var len := One(a).len;
        assert (a + b)[len..] == a[len..] + b;
        ManyIsStable(a[len..], b, n - 1);
      }
    }
  }

  // ----- an answer does not look past the value's own bytes -----

  lemma {:induction false} OneLooksNoFurther(buf: seq<Byte>, k: nat)
    requires One(buf).Got? && One(buf).len <= k <= |buf|
    ensures One(buf[..k]) == One(buf)
    decreases |buf|, 2
  {
    match HeadOf(buf[0])
    case Whole(_) =>
    case Sized(n, kind) => TakeLooksNoFurther(buf, k, 1, n, kind);
    case Measured(w, kind) =>
      assert buf[..k][1..1 + w] == buf[1..1 + w];
      TakeLooksNoFurther(buf, k, 1 + w, BigEndian(buf[1..1 + w]) + (if kind.AsExt? then 1 else 0), kind);
    case Items(n, g) => GatherLooksNoFurther(buf, k, 1, n, g);
    case Counted(w, g) =>
      assert buf[..k][1..1 + w] == buf[1..1 + w];
      GatherLooksNoFurther(buf, k, 1 + w, BigEndian(buf[1..1 + w]) * (if g.AsMap? then 2 else 1), g);
  }

  lemma TakeLooksNoFurther(buf: seq<Byte>, k: nat, at: nat, n: nat, kind: Scalar)
    requires 0 < at && at + n <= k <= |buf|
    ensures Take(buf[..k], at, n, kind) == Take(buf, at, n, kind)
  {
    assert buf[..k][at..at + n] == buf[at..at + n];
  }

  lemma {:induction false} GatherLooksNoFurther(buf: seq<Byte>, k: nat, at: nat, n: nat, g: Group)
    requires 0 < at && Gather(buf, at, n, g).Got? && Gather(buf, at, n, g).len <= k <= |buf|
    ensures Gather(buf[..k], at, n, g) == Gather(buf, at, n, g)
    decreases |buf|, 1
  {
    assert buf[..k][at..] == buf[at..][..k - at];
    ManyLookNoFurther(buf[at..], k - at, n);
  }

  lemma {:induction false} ManyLookNoFurther(buf: seq<Byte>, k: nat, n: nat)
    requires Many(buf, n).Got? && Many(buf, n).len <= k <= |buf|
    ensures Many(buf[..k], n) == Many(buf, n)
    decreases |buf|, 3
  {
    if n > 0 {
      var len := One(buf).len;
      OneLooksNoFurther(buf, k);
      assert buf[..k][len..] == buf[len..][..k - len];
      ManyLookNoFurther(buf[len..], k - len, n - 1);
    }
  }

  /** A value is asked for again until its last byte is there, and not once more. */
  lemma WaitsExactly(buf: seq<Byte>, k: nat)
    requires One(buf).Got? && k <= |buf|
    ensures One(buf[..k]) == More <==> k < One(buf).len
    ensures k >= One(buf).len ==> One(buf[..k]) == One(buf)
  {
    assert buf == buf[..k] + buf[k..];
    OneIsStable(buf[..k], buf[k..]);
    if k >= One(buf).len {
      OneLooksNoFurther(buf, k);
    }
  }
}
