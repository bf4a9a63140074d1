/** Base64 variable-length quantities: the encoder and decoder of the bundler, with JavaScript's 32-bit operators. */
module Vlq {
  import opened Wrappers

  const MAX := 0x4000_0000  // 2^30

  // ----- JavaScript's bitwise operators on integers -----

  function ToInt32(x: int): int {
    (x + 0x8000_0000) % 0x1_0000_0000 - 0x8000_0000
  }

  function Pow2(n: int): int {
    if n <= 0 then 1 else 2 * Pow2(n - 1)
  }

  lemma Int32Exact(x: int)
    requires -0x8000_0000 <= x < 0x8000_0000
    ensures ToInt32(x) == x
  {
  }

  /** x << 1. */
  function Double(x: int): int {
    ToInt32(2 * ToInt32(x))
  }

  function Doubled(x: int, k: int): int {
    if k <= 0 then ToInt32(x) else Double(Doubled(x, k - 1))
  }

  /** x << n; only the low five bits of n count. */
  function Shl(x: int, n: int): int {
    Doubled(x, n % 32)
  }

  /** As long as it fits into 31 bits, a shift is a product. */
  lemma {:induction false} DoubledExact(x: int, k: int)
    requires 0 <= x && 0 <= k && x * Pow2(k) < 2 * MAX
    ensures Doubled(x, k) == x * Pow2(k)
    decreases k
  {
    if k == 0 {
      Int32Exact(x);
    } else {
      var half := x * Pow2(k - 1);
      Pow2Positive(k - 1);
      TwiceTheProduct(x, Pow2(k - 1));
      DoubledExact(x, k - 1);
      Int32Exact(half);
      Int32Exact(2 * half);
    }
  }

  lemma TwiceTheProduct(x: int, p: int)
    requires 0 <= x
    ensures x * (2 * p) == 2 * (x * p)
    ensures 0 <= p ==> 0 <= x * p
  {
  }

  /** x >> n for a constant power of two d = 2^n. */
  function Shr(x: int, d: int): int
    requires d > 0
  {
    ToInt32(x) / d
  }

  // ----- the base64 alphabet -----

  /** The table charToInteger; 255 stands for no entry. The character '=' has an entry too. */
  function CharToInteger(b: int): int {
    if 65 <= b <= 90 then b - 65
    else if 97 <= b <= 122 then b - 97 + 26
    else if 48 <= b <= 57 then b - 48 + 52
    else if b == 43 then 62
    else if b == 47 then 63
    else if b == 61 then 64
    else 255
  }

  /** The table integerToChar. */
  function IntegerToChar(i: int): int {
    if i < 26 then i + 65
    else if i < 52 then i - 26 + 97
    else if i < 62 then i - 52 + 48
    else if i == 62 then 43
    else 47
  }

  /** The value of a character by Table 1 of RFC 4648; None for '=', which only pads, and any other. */
  function Base64Value(b: int): Option<int> {
    if 'A' as int <= b <= 'Z' as int then Some(b - 'A' as int)
    else if 'a' as int <= b <= 'z' as int then Some(26 + b - 'a' as int)
    else if '0' as int <= b <= '9' as int then Some(52 + b - '0' as int)
    else if b == '+' as int then Some(62)
    else if b == '/' as int then Some(63)
    else None
  }

  /** The string from which both tables are filled, position by position. */
  const ALPHABET: string := UPPER + LOWER + DECIMAL + SIGNS
  const UPPER: string := "ABCDEFGHIJKLMNOPQRSTUVWXYZ"
  const LOWER: string := "abcdefghijklmnopqrstuvwxyz"
  const DECIMAL: string := "0123456789"
  const SIGNS: string := "+/="

  lemma UpperAt(i: int)
    ensures |UPPER| == 26 && (0 <= i < 26 ==> UPPER[i] as int == 65 + i)
  {
  }

  lemma LowerAt(i: int)
    ensures |LOWER| == 26 && (0 <= i < 26 ==> LOWER[i] as int == 97 + i)
  {
  }

  lemma DecimalAt(i: int)
    ensures |DECIMAL| == 10 && (0 <= i < 10 ==> DECIMAL[i] as int == 48 + i)
  {
  }

  lemma AlphabetAt(i: int)
    ensures |ALPHABET| == 65
    ensures 0 <= i < 65 ==>
      ALPHABET[i] as int == if i < 26 then 65 + i else if i < 52 then 71 + i else if i < 62 then i - 4
                            else if i == 62 then 43 else if i == 63 then 47 else 61
  {
    UpperAt(i);
    LowerAt(i - 26);
    DecimalAt(i - 52);
    assert |SIGNS| == 3;
  }

  /** Each table has exactly the entries the string gives it. */
  lemma TablesFollowTheString(b: int, i: int)
    requires 0 <= i < 65
    ensures |ALPHABET| == 65 && CharToInteger(ALPHABET[i] as int) == i
    ensures i < 64 ==> IntegerToChar(i) == ALPHABET[i] as int
    ensures CharToInteger(b) == 255 <==> forall j | 0 <= j < |ALPHABET| :: ALPHABET[j] as int != b
  {
    AlphabetAt(i);
    if CharToInteger(b) == 255 {
      forall j | 0 <= j < |ALPHABET|
        ensures ALPHABET[j] as int != b
      {
        AlphabetAt(j);
      }
    } else {
      AlphabetAt(CharToInteger(b));
    }
  }

  /** The tables agree with the standard alphabet, and beyond it only '=' has an entry. */
  lemma TablesAreStandard(b: int, i: int)
    ensures 0 <= i < 64 ==> Base64Value(IntegerToChar(i)) == Some(i)
    ensures match Base64Value(b)
            case Some(v) => 0 <= v < 64 && CharToInteger(b) == v && IntegerToChar(v) == b
            case None => CharToInteger(b) == if b == '=' as int then 64 else 255
  {
  }

  lemma AlphabetInverse(i: int)
    requires 0 <= i < 64
    ensures CharToInteger(IntegerToChar(i)) == i && Base64Value(IntegerToChar(i)) == Some(i)
  {
  }

  // ----- encoding -----

  /** The non-negative number whose base 32 digits are written out. */
  function Zigzag(n: int): int {
    if n < 0 then Double(-n) + 1 else Double(n)
  }

  /** The digits of m, least significant first, as characters; all but the last carry the continuation bit. */
  function Digits(m: int): seq<int>
    decreases if m < 0 then 0 else m
  {
    if m / 32 > 0 then [IntegerToChar(m % 32 + 32)] + Digits(m / 32) else [IntegerToChar(m % 32)]
  }

  function Encode(n: int): seq<int> {
    Digits(Zigzag(n))
  }

  // ----- decoding, by the book -----

  function Pow32(k: int): int {
    if k <= 0 then 1 else 32 * Pow32(k - 1)
  }

  /** The number with the given base 32 digits, least significant first. */
  function Raw(ds: seq<int>): int {
    if ds == [] then 0 else ds[0] + 32 * Raw(ds[1..])
  }

  function Signed(raw: int): int {
    if raw % 2 == 1 then -(raw / 2) else raw / 2
  }

  lemma Rotate(d: int, p: int)
    ensures d * (32 * p) == 32 * (d * p)
  {
  }

  lemma {:induction false} RawSnoc(ds: seq<int>, d: int)
    ensures Raw(ds + [d]) == Raw(ds) + d * Pow32(|ds|)
  {
    if ds == [] {
      assert [d][1..] == [];
      assert Pow32(0) == 1;
    } else {
      assert (ds + [d])[1..] == ds[1..] + [d];
      RawSnoc(ds[1..], d);
      Rotate(d, Pow32(|ds| - 1));
    }
  }

  lemma {:induction false} Pow32Positive(k: int)
    ensures Pow32(k) >= 1
    decreases k
  {
    if k > 0 {
      Pow32Positive(k - 1);
    }
  }

  lemma {:induction false} RawNonNegative(ds: seq<int>)
    requires forall d | d in ds :: 0 <= d
    ensures Raw(ds) >= 0
  {
    if ds != [] {
      assert ds[0] in ds && forall d | d in ds[1..] :: d in ds;
      RawNonNegative(ds[1..]);
    }
  }

  lemma ZigzagInRange(n: int)
    requires -MAX < n < MAX
    ensures Zigzag(n) == (if n < 0 then -2 * n + 1 else 2 * n)
    ensures 0 <= Zigzag(n) < 2 * MAX && Signed(Zigzag(n)) == n
  {
  }

  lemma ZigzagBound(n: int)
    ensures -2 * MAX <= Zigzag(n) < 2 * MAX
  {
    var y := ToInt32(-n);
    assert (2 * y + 0x8000_0000) % 0x1_0000_0000 == 2 * ((y + 0x4000_0000) % 0x8000_0000);
  }

  // ----- decoding, as the loop of the bundler does it -----

  /** value += (b & 31) << shift */
  function Accumulate(value: int, d: int, shift: int): int {
    value + Shl(d % 32, shift)
  }

  /** The sign bit is split off with 32-bit operators. */
  function Negate(value: int): int {
    if value % 2 == 1 then -Shr(value, 2) else Shr(value, 2)
  }

  /** The number read from the front of bs, and how many characters that took. */
  function JsDecode(bs: seq<int>, value: int, shift: int): Option<(int, int)> {
    if bs == [] then None
    else
      var d := CharToInteger(bs[0]);
      if d == 255 then None
      else if (d / 32) % 2 == 1 then
        match JsDecode(bs[1..], Accumulate(value, d, shift), shift + 5)
        case Some((n, k)) => Some((n, k + 1))
        case None => None
      else Some((Negate(Accumulate(value, d, shift)), 1))
  }

  lemma {:induction false} Pow2Of5(k: int)
    requires 0 <= k
    ensures Pow2(5 * k) == Pow32(k)
    decreases k
  {
    if k > 0 {
      Pow2Of5(k - 1);
      var m := 5 * (k - 1);
      assert Pow2(m + 5) == 2 * Pow2(m + 4) == 4 * Pow2(m + 3) == 8 * Pow2(m + 2) == 16 * Pow2(m + 1) == 32 * Pow2(m);
    }
  }

  lemma Pow32Of7()
    ensures Pow32(7) == 0x8_0000_0000 && Pow32(6) == 0x4000_0000
  {
    assert Pow32(0) == 1 && Pow32(1) == 32 && Pow32(2) == 1024 && Pow32(3) == 32768;
    assert Pow32(4) == 1048576 && Pow32(5) == 33554432;
  }

  lemma {:induction false} Pow32Monotone(j: int, k: int)
    requires 0 <= j <= k
    ensures Pow32(j) <= Pow32(k)
    decreases k
  {
    if j < k {
      Pow32Monotone(j, k - 1);
      Pow32Positive(k - 1);
    }
  }

  lemma {:induction false} Pow2Positive(k: int)
    ensures Pow2(k) >= 1
    decreases k
  {
    if k > 0 {
      Pow2Positive(k - 1);
    }
  }

  lemma SmallPower(k: int)
    requires 0 <= k && Pow32(k) < 2 * MAX
    ensures k < 7
  {
    Pow32Of7();
    if k >= 7 {
      Pow32Monotone(7, k);
    }
  }

  lemma FewDigits(d: int, k: int, p: int)
    requires 0 < d && 0 <= k && p == Pow32(k) && d * p < 2 * MAX
    ensures k < 7
  {
    Pow32Positive(k);
    MulNonNegative(p, d);
    SmallPower(k);
  }

  lemma {:induction false} DoubledZero(k: int)
    ensures Doubled(0, k) == 0
    decreases k
  {
    if k > 0 {
      DoubledZero(k - 1);
    }
  }

  lemma ShiftZero(n: int, p: int)
    ensures Shl(0, n) == 0 * p
  {
    DoubledZero(n % 32);
  }

  /** A digit that fits into 31 bits is shifted exactly, whatever the shift distance wraps to. */
  lemma ShiftExact(d: int, k: int, p: int)
    requires 0 <= d < 32 && 0 <= k && p == Pow32(k) && d * p < 2 * MAX
    ensures Shl(d, 5 * k) == d * p
  {
    if d == 0 {
      ShiftZero(5 * k, p);
    } else {
      FewDigits(d, k, p);
      Pow2Of5(k);
      ShortShift(d, 5 * k, p);
    }
  }

  lemma ShortShift(d: int, n: int, p: int)
    requires 0 <= d && 0 <= n < 32 && p == Pow2(n) && d * p < 2 * MAX
    ensures Shl(d, n) == d * p
  {
    DoubledExact(d, n);
  }

  /** One more digit, with the digits so far accumulated exactly. */
  lemma AccumulateExact(ds: seq<int>, d: int, r: int)
    requires r == d % 32 && Raw(ds + [r]) < 2 * MAX && Raw(ds) >= 0
    ensures Accumulate(Raw(ds), d, 5 * |ds|) == Raw(ds + [r])
  {
    RawSnoc(ds, r);
    ShiftExact(r, |ds|, Pow32(|ds|));
  }

  lemma NegateExact(raw: int)
    requires 0 <= raw < 2 * MAX
    ensures Negate(raw) == Signed(raw)
  {
  }

  /** Moving one digit of m over to ds does not change the number they stand for. */
  lemma DigitMoves(ds: seq<int>, m: int)
    requires (forall d | d in ds :: 0 <= d < 32) && 0 <= m
    ensures Raw(ds + [m % 32]) + (m / 32) * Pow32(|ds| + 1) == Raw(ds) + m * Pow32(|ds|)
    ensures Raw(ds) >= 0 && Raw(ds + [m % 32]) >= 0 && (m / 32) * Pow32(|ds| + 1) >= 0
  {
    DigitStep(m, |ds|);
    RawNonNegative(ds);
    RawSnoc(ds, m % 32);
    RawNonNegative(ds + [m % 32]);
    Pow32Positive(|ds| + 1);
    MulNonNegative(m / 32, Pow32(|ds| + 1));
  }

  lemma MulNonNegative(x: int, y: int)
    requires 0 <= x && 1 <= y
    ensures x <= x * y
  {
  }

  lemma MoreDigit(bs: seq<int>, d: int, value: int, shift: int)
    requires bs != [] && d + 32 == CharToInteger(bs[0]) && 0 <= d < 32
    ensures JsDecode(bs, value, shift) ==
            match JsDecode(bs[1..], Accumulate(value, d + 32, shift), shift + 5)
            case Some((n, k)) => Some((n, k + 1))
            case None => None
  {
    assert ((d + 32) / 32) % 2 == 1;
  }

  /** The decoder at a digit with a continuation bit. */
  lemma ContinueExact(ds: seq<int>, d: int, rest: seq<int>)
    requires 0 <= d < 32 && Raw(ds) >= 0 && Raw(ds + [d]) < 2 * MAX
    ensures JsDecode([IntegerToChar(d + 32)] + rest, Raw(ds), 5 * |ds|) ==
            match JsDecode(rest, Raw(ds + [d]), 5 * |ds + [d]|)
            case Some((n, k)) => Some((n, k + 1))
            case None => None
  {
    var bs := [IntegerToChar(d + 32)] + rest;
    AlphabetInverse(d + 32);
    AccumulateExact(ds, d + 32, d);
    MoreDigit(bs, d, Raw(ds), 5 * |ds|);
    assert bs[1..] == rest;
  }

  /** The decoder at the last digit. */
  lemma LastExact(ds: seq<int>, d: int)
    requires 0 <= d < 32 && Raw(ds) >= 0 && 0 <= Raw(ds + [d]) < 2 * MAX
    ensures JsDecode([IntegerToChar(d)], Raw(ds), 5 * |ds|) == Some((Signed(Raw(ds + [d])), 1))
  {
    var bs, value, raw := [IntegerToChar(d)], Raw(ds), Raw(ds + [d]);
    AlphabetInverse(d);
    assert d == d % 32;
    AccumulateExact(ds, d, d);
    LastDigit(bs, d, value, 5 * |ds|, raw);
  }

  lemma LastDigit(bs: seq<int>, d: int, value: int, shift: int, raw: int)
    requires bs != [] && d == CharToInteger(bs[0]) && d < 32
    requires raw == Accumulate(value, d, shift) && 0 <= raw < 2 * MAX
    ensures JsDecode(bs, value, shift) == Some((Signed(raw), 1))
  {
    assert d >= 0 && d / 32 == 0;
    NegateExact(raw);
  }

  /** Decoding the digits of m on top of the digits ds. */
  lemma {:induction false} JsDecodesDigits(ds: seq<int>, m: int)
    requires (forall d | d in ds :: 0 <= d < 32) && 0 <= m && Raw(ds) + m * Pow32(|ds|) < 2 * MAX
    ensures JsDecode(Digits(m), Raw(ds), 5 * |ds|) == Some((Signed(Raw(ds) + m * Pow32(|ds|)), |Digits(m)|))
    decreases m
  {
    var d, q := m % 32, m / 32;
    DigitMoves(ds, m);
    if q > 0 {
      JsDecodesDigits(ds + [d], q);
      DecodesOneMore(ds, m, Signed(Raw(ds) + m * Pow32(|ds|)));
    } else {
      LastExact(ds, d);
    }
  }

  lemma DecodesOneMore(ds: seq<int>, m: int, total: int)
    requires 32 <= m && Raw(ds) >= 0 && Raw(ds + [m % 32]) < 2 * MAX
    requires JsDecode(Digits(m / 32), Raw(ds + [m % 32]), 5 * |ds + [m % 32]|) == Some((total, |Digits(m / 32)|))
    ensures JsDecode(Digits(m), Raw(ds), 5 * |ds|) == Some((total, |Digits(m)|))
  {
    ContinueExact(ds, m % 32, Digits(m / 32));
  }

  lemma DigitStep(m: int, k: int)
    requires 0 <= k
    ensures m * Pow32(k) == (m % 32) * Pow32(k) + (m / 32) * Pow32(k + 1)
  {
    var p := Pow32(k);
    assert Pow32(k + 1) == 32 * p;
    assert (m / 32) * (32 * p) == (32 * (m / 32)) * p;
    assert m == m % 32 + 32 * (m / 32);
    assert m * p == (m % 32) * p + (32 * (m / 32)) * p;
  }

  lemma OneDigit(d: int)
    requires 0 <= d < 32
    ensures JsDecode([IntegerToChar(d)], 0, 0) == Some((Signed(d), 1))
  {
    AlphabetInverse(d);
    Int32Exact(d);
    assert d % 32 == d && Accumulate(0, d, 0) == d;
    LastDigit([IntegerToChar(d)], d, 0, 0, d);
  }

  /** What the encoder writes is read back as the same number exactly if it is smaller than 2^30 in size. */
  lemma RoundTripIff(n: int)
    ensures JsDecode(Encode(n), 0, 0) == Some((n, |Encode(n)|)) <==> -MAX < n < MAX
  {
    var m := Zigzag(n);
    assert Pow32(0) == 1 && Raw([]) == 0;
    if -MAX < n < MAX {
      ZigzagInRange(n);
      JsDecodesDigits([], m);
    } else if m >= 0 {
      ZigzagBound(n);
      JsDecodesDigits([], m);
    } else {
      OneDigit(m % 32);
    }
  }
}
