/**
  Printing and reading numbers (src/xprintf.c): the numeric conversions of xvprintf with their padding,
  and xatoi, which reads them back. Text is a sequence of character codes; past its end a
  reader sees the terminating zero.
 */
module NumberText {
  import opened Bytes
  import opened Powers

  const SPACE: byte := 32
  const MINUS: byte := 45
  const ZERO: byte := 48
  const LETTER_B: byte := 98
  const LETTER_X: byte := 120

  // ---------------------------------------------------------------- digits

  // The character of a digit: after 9 come the letters, in upper or lower case.
  function DigitChar(d: nat, lower: bool): byte
    requires d < 16
  {
    (d + (if d > 9 then (if lower then 0x27 else 0x07) else 0) + 48) as byte
  }

  // What xatoi makes of a character, on unsigned char; no value if it gives up at once.
  datatype Value = Digit(d: nat) | Invalid

  function DigitValue(c: byte): Value {
    var upper := if c >= 97 then c as int - 0x20 else c as int;
    var d := (upper - 48) % 256;
    if d >= 17 then (if d - 7 <= 9 then Invalid else Digit(d - 7)) else Digit(d)
  }

  lemma {:induction false} DigitRoundTrip(d: nat, lower: bool)
    requires d < 16
    ensures DigitValue(DigitChar(d, lower)) == Digit(d) && DigitChar(d, lower) > SPACE
  {
  }

  predicate IsRadix(r: nat) {
    r == 2 || r == 8 || r == 10 || r == 16
  }

  // v / r and v % r
  function Quotient(v: nat, r: nat): nat
    requires IsRadix(r)
  {
    if r == 2 then v / 2 else if r == 8 then v / 8 else if r == 10 then v / 10 else v / 16
  }

  function Remainder(v: nat, r: nat): (d: nat)
    requires IsRadix(r)
    ensures d < r
  {
    if r == 2 then v % 2 else if r == 8 then v % 8 else if r == 10 then v % 10 else v % 16
  }

  lemma {:induction false} QuotientShrinks(v: nat, r: nat)
    requires IsRadix(r) && Quotient(v, r) > 0
    ensures Quotient(v, r) < v
  {
  }

  // The digits of v in radix r, most significant first; zero has one digit.
  function Numeral(v: nat, r: nat, lower: bool): (s: seq<byte>)
    requires IsRadix(r)
    ensures |s| > 0
    decreases v
  {
    var last := [DigitChar(Remainder(v, r), lower)];
    if Quotient(v, r) == 0 then last else
    QuotientShrinks(v, r);
    Numeral(Quotient(v, r), r, lower) + last
  }

  // What fits into s[16].
  function Low16(s: seq<byte>): (t: seq<byte>)
    ensures |t| == if |s| <= 16 then |s| else 16
  {
    if |s| <= 16 then s else s[|s| - 16..]
  }

  function Power(r: nat, n: nat): nat {
    if n == 0 then 1 else r * Power(r, n - 1)
  }

  lemma {:induction false} QuotientBelow(v: nat, r: nat, p: nat)
    requires IsRadix(r) && v < r * p
    ensures Quotient(v, r) < p
  {
  }

  // ---------------------------------------------------------------- reading

  function Head(t: seq<byte>): byte {
    if t == [] then 0 else t[0]
  }

  // `rest` is where *str points after the call, and res what *res holds.
  datatype Parsed = Parsed(ok: bool, res: int, rest: seq<byte>)

  function SkipSpaces(t: seq<byte>): seq<byte> {
    if Head(t) == SPACE then SkipSpaces(t[1..]) else t
  }

  function Digits(t: seq<byte>, r: nat, negative: bool, val: int): Parsed
    decreases |t|
  {
    if Head(t) <= SPACE then Parsed(true, I32(if negative then U32(0 - val) else val), t)
    else
      match DigitValue(Head(t))
      case Invalid => Parsed(false, 0, t)
      case Digit(d) => if d >= r then Parsed(false, 0, t) else Digits(t[1..], r, negative, U32(val * r + d))
  }

  // xatoi after the sign
  function Unsigned(t: seq<byte>, negative: bool): Parsed {
    var c := Head(t);
    if c == ZERO then
      var u := t[1..];
      var d := Head(u);
      if d == LETTER_X then Digits(u[1..], 16, negative, 0)
      else if d == LETTER_B then Digits(u[1..], 2, negative, 0)
      else if d <= SPACE then Parsed(true, 0, u)
      else if d < 48 || d > 57 then Parsed(false, 0, u)
      else Digits(u, 8, negative, 0)
    else if c < 48 || c > 57 then Parsed(false, 0, t)
    else Digits(t, 10, negative, 0)
  }

  // xatoi
  function Atoi(text: seq<byte>): Parsed {
    var t := SkipSpaces(text);
    if Head(t) == MINUS then Unsigned(t[1..], true) else Unsigned(t, false)
  }

  // *str and *res of xatoi, with its loops.
  class Reader {
    const text: seq<byte>
    var pos: nat

    ghost predicate Valid()
      reads this
    {
      pos <= |text|
    }

    ghost function Rest(): seq<byte>
      requires Valid()
      reads this
    {
      text[pos..]
    }

    constructor (text: seq<byte>)
      ensures this.text == text && Valid() && Rest() == text
    {
      this.text := text;
      pos := 0;
    }

    // **str
    function Current(): (c: byte)
      requires Valid()
      reads this
      ensures c == Head(Rest())
    {
      if pos == |text| then 0 else text[pos]
    }

    // xatoi
    method Xatoi() returns (ok: bool, res: int)
      requires Valid()
      modifies this`pos
      ensures Valid() && Parsed(ok, res, Rest()) == Atoi(old(Rest()))
    {
      SkipBlanks();
      var negative := false;
      if Current() == MINUS {
        negative := true;
        pos := pos + 1;
      }
      ok, res := Magnitude(negative);
    }

    method SkipBlanks()
      requires Valid()
      modifies this`pos
      ensures Valid() && Rest() == SkipSpaces(old(Rest()))
    {
      while Current() == SPACE
        invariant Valid() && SkipSpaces(Rest()) == SkipSpaces(old(Rest()))
        decreases |text| - pos
      {
        assert Rest()[1..] == text[pos + 1..];
        pos := pos + 1;
      }
    }

    // From the radix prefix on.
    method Magnitude(negative: bool) returns (ok: bool, res: int)
      requires Valid()
      modifies this`pos
      ensures Valid() && Parsed(ok, res, Rest()) == Unsigned(old(Rest()), negative)
    {
      var c := Current();
      var r := 10;
      if c == ZERO {
        pos := pos + 1;
        c := Current();
        if c == LETTER_X {
          r := 16;
          pos := pos + 1;
        } else if c == LETTER_B {
          r := 2;
          pos := pos + 1;
        } else {
          if c <= SPACE {
            return true, 0;
          }
          if c < 48 || c > 57 {
            return false, 0;
          }
          r := 8;
        }
      } else if c < 48 || c > 57 {
        return false, 0;
      }
      ok, res := ReadDigits(r, negative);
    }

    method ReadDigits(r: nat, negative: bool) returns (ok: bool, res: int)
      requires Valid()
      modifies this`pos
      ensures Valid() && Parsed(ok, res, Rest()) == Digits(old(Rest()), r, negative, 0)
    {
      var val := 0;
      while Current() > SPACE
        invariant Valid() && Digits(Rest(), r, negative, val) == Digits(old(Rest()), r, negative, 0)
        decreases |text| - pos
      {
        var v := DigitValue(Current());
        if v.Invalid? || v.d >= r {
          return false, 0;
        }
        val := U32(val * r + v.d);
        pos := pos + 1;
      }
      return true, I32(if negative then U32(0 - val) else val);
    }
  }

  // ---------------------------------------------------------------- printing

  function Repeat(c: byte, n: int): (s: seq<byte>)
    ensures |s| == if n < 0 then 0 else n
  {
    seq(if n < 0 then 0 else n, _ => c)
  }

  // A numeric conversion: the flags '-' and '0', the width, and the type.
  datatype Conversion = Conversion(left: bool, zero: bool, width: nat, radix: nat, signed: bool, lower: bool)

  predicate IsConversion(f: Conversion) {
    IsRadix(f.radix) && (f.signed ==> f.radix == 10)
  }

  // The sign and the digits.
  function Figures(f: Conversion, arg: int): (s: seq<byte>)
    requires IsConversion(f)
  {
    var v := U32(arg);
    if f.signed && v >= P31 then [MINUS] + Low16(Numeral(U32(0 - v), f.radix, f.lower))
    else Low16(Numeral(v, f.radix, f.lower))
  }

  function Field(f: Conversion, arg: int): (s: seq<byte>)
    requires IsConversion(f)
  {
    var s := Figures(f, arg);
    if f.left then s + Repeat(SPACE, f.width - |s|)
    else Repeat(if f.zero then ZERO else SPACE, f.width - |s|) + s
  }

  lemma {:induction false} ReversedOn(s: seq<byte>, c: byte)
    ensures Reversed(s + [c]) == [c] + Reversed(s)
  {
  }

  lemma {:induction false} NumeralLength(v: nat, r: nat, lower: bool, k: nat)
    requires IsRadix(r) && k > 0 && v < Power(r, k)
    ensures |Numeral(v, r, lower)| <= k
    decreases k
  {
    QuotientBelow(v, r, Power(r, k - 1));
    if Quotient(v, r) > 0 {
      assert k > 1;
      NumeralLength(Quotient(v, r), r, lower, k - 1);
    }
  }

  // The digits still to come and those already stored, last digit first.
  ghost predicate Converted(v0: nat, r: nat, lower: bool, v: nat, stored: seq<byte>)
    requires IsRadix(r)
  {
    Numeral(v0, r, lower) == if v > 0 || stored == [] then Numeral(v, r, lower) + Reversed(stored) else Reversed(stored)
  }

  lemma {:induction false} ConvertedOn(v0: nat, r: nat, lower: bool, v: nat, stored: seq<byte>, d: byte)
    requires IsRadix(r) && Converted(v0, r, lower, v, stored) && (v > 0 || stored == [])
    requires d == DigitChar(Remainder(v, r), lower)
    ensures Converted(v0, r, lower, Quotient(v, r), stored + [d])
  {
    ReversedOn(stored, d);
    if Quotient(v, r) > 0 {
      Regroup(Numeral(Quotient(v, r), r, lower), [d], Reversed(stored));
    }
  }

  lemma {:induction false} Regroup(a: seq<byte>, b: seq<byte>, c: seq<byte>)
    ensures (a + b) + c == a + (b + c)
  {
  }

  lemma {:induction false} LowIsSuffix(a: seq<byte>, b: seq<byte>)
    requires |b| == 16 && |a| > 0
    ensures Low16(a + b) == b
  {
  }

  // The digit loop: the numeral, last digit first, into s[16].
  method DigitLoop(v0: nat, r: nat, lower: bool, s: array<byte>) returns (i: nat)
    requires IsRadix(r) && s.Length == 16
    modifies s
    ensures 1 <= i <= 16 && Reversed(s[..i]) == Low16(Numeral(v0, r, lower))
  {
    var v := v0;
    i := 0;
    var more := true;
    assert Numeral(v, r, lower) + Reversed(s[..i]) == Numeral(v, r, lower);
    while more // do ... while
      invariant 0 <= i <= 16 && more == (i == 0 || (v > 0 && i < 16))
      invariant Converted(v0, r, lower, v, s[..i])
      decreases 16 - i, more
    {
      ghost var stored := s[..i];
      var d := DigitChar(Remainder(v, r), lower);
      ConvertedOn(v0, r, lower, v, stored, d);
      v := Quotient(v, r);
      s[i] := d;
      i := i + 1;
      assert s[..i] == stored + [d];
      more := v > 0 && i < 16;
    }
    if v > 0 {
      LowIsSuffix(Numeral(v, r, lower), Reversed(s[..i]));
    }
  }

  lemma {:induction false} TenDigits(v: nat, lower: bool)
    requires v < P32
    ensures |Numeral(v, 10, lower)| <= 10
  {
    assert Power(10, 5) == 100000;
    assert Power(10, 10) == 10000000000;
    NumeralLength(v, 10, lower, 10);
  }

  // The digits of a negative number and its sign, last character first.
  method StoreNegative(v: nat, lower: bool, s: array<byte>) returns (i: nat)
    requires v < P32 && s.Length == 16
    modifies s
    ensures 1 <= i <= 16 && Reversed(s[..i]) == [MINUS] + Low16(Numeral(v, 10, lower))
  {
    TenDigits(v, lower);
    i := DigitLoop(v, 10, lower, s);
    StoreMinus(s, i);
    i := i + 1;
  }

  method StoreFigures(f: Conversion, arg: int, s: array<byte>) returns (i: nat)
    requires IsConversion(f) && s.Length == 16
    modifies s
    ensures 1 <= i <= 16 && Reversed(s[..i]) == Figures(f, arg)
  {
    var v := U32(arg);
    if f.signed && v >= P31 { // d == 'D' && ( v & 0x80000000 )
      i := StoreNegative(U32(0 - v), f.lower, s);
    } else {
      i := DigitLoop(v, f.radix, f.lower, s);
    }
  }

  method StoreMinus(s: array<byte>, i: nat)
    requires i < s.Length
    modifies s
    ensures Reversed(s[..i + 1]) == [MINUS] + Reversed(old(s[..i]))
  {
    ghost var stored := s[..i];
    s[i] := MINUS;
    assert s[..i + 1] == stored + [MINUS];
    ReversedOn(stored, MINUS);
  }

  // The numeric part of xvprintf.
  method PutNumber(f: Conversion, arg: int) returns (out: seq<byte>)
    requires IsConversion(f)
    ensures out == Field(f, arg)
  {
    var s := new byte[16];
    var i := StoreFigures(f, arg, s);
    out := Justify(f, s, i);
  }

  // Padding, and the characters of s[..size] last first. Like the source, j counts one further when
  // a padding loop ends.
  method Justify(f: Conversion, s: array<byte>, size: nat) returns (out: seq<byte>)
    requires 1 <= size <= s.Length
    ensures var figures := Reversed(s[..size]);
      out == if f.left then figures + Repeat(SPACE, f.width - size)
             else Repeat(if f.zero then ZERO else SPACE, f.width - size) + figures
  {
    out := [];
    var j, pad := size, if f.zero then ZERO else SPACE;
    if !f.left {
      while j < f.width
        invariant j >= size && out == Repeat(pad, j - size) && (j > size ==> j <= f.width)
      {
        out := out + [pad];
        j := j + 1;
      }
      j := j + 1;
    }
    ghost var before := out;
    var i := size;
    while i > 0
      invariant 0 <= i <= size
      invariant out + Reversed(s[..i]) == before + Reversed(s[..size])
    {
      i := i - 1;
      assert s[..i + 1] == s[..i] + [s[i]];
      ReversedOn(s[..i], s[i]);
      Regroup(out, [s[i]], Reversed(s[..i]));
      out := out + [s[i]];
    }
    before := out;
    ghost var start := j;
    while j < f.width
      invariant j >= start && out == before + Repeat(SPACE, j - start) && (j > start ==> j <= f.width)
    {
      assert Repeat(SPACE, j + 1 - start) == Repeat(SPACE, j - start) + [SPACE];
      out := out + [SPACE];
      j := j + 1;
    }
  }

  // ---------------------------------------------------------------- round trips

  lemma {:induction false} Recompose(v: nat, r: nat)
    requires IsRadix(r) && v < P32
    ensures Quotient(v, r) < P32 && Quotient(v, r) * r + Remainder(v, r) == v && U32(v) == v
  {
  }

  lemma {:induction false} DigitsOnwards(t: seq<byte>, u: seq<byte>, r: nat, negative: bool, val: int, val': int)
    requires IsRadix(r) && t != [] && t[0] > SPACE && t[1..] == u
    requires DigitValue(t[0]).Digit? && DigitValue(t[0]).d < r && val' == U32(val * r + DigitValue(t[0]).d)
    ensures Digits(t, r, negative, val) == Digits(u, r, negative, val')
  {
  }

  // Reading the digits of v leaves the reader behind them with the value v.
  lemma {:induction false} NumeralReads(v: nat, r: nat, lower: bool, rest: seq<byte>, negative: bool)
    requires IsRadix(r) && v < P32
    ensures Digits(Numeral(v, r, lower) + rest, r, negative, 0) == Digits(rest, r, negative, v)
    decreases v
  {
    var q, d := Quotient(v, r), DigitChar(Remainder(v, r), lower);
    Recompose(v, r);
    DigitRoundTrip(Remainder(v, r), lower);
    assert ([d] + rest)[1..] == rest;
    DigitsOnwards([d] + rest, rest, r, negative, q, v);
    if q > 0 {
      QuotientShrinks(v, r);
      Regroup(Numeral(q, r, lower), [d], rest);
      NumeralReads(q, r, lower, [d] + rest, negative);
    }
  }

  // A positive decimal number starts with a digit other than zero; an octal one with an octal digit.
  lemma {:induction false} FirstDigit(v: nat, r: nat, lower: bool)
    requires r == 8 || r == 10
    ensures 48 <= Numeral(v, r, lower)[0] <= 57 && (v > 0 ==> Numeral(v, r, lower)[0] != ZERO)
    decreases v
  {
    if Quotient(v, r) > 0 {
      QuotientShrinks(v, r);
      FirstDigit(Quotient(v, r), r, lower);
    }
  }

  // No 32-bit value needs more than 16 digits, except in binary.
  lemma {:induction false} FitsBuffer(v: nat, r: nat, lower: bool)
    requires IsRadix(r) && v < P32 && r != 2
    ensures Low16(Numeral(v, r, lower)) == Numeral(v, r, lower)
  {
    if r == 8 {
      assert Power(8, 6) == 0x4_0000;
      assert Power(8, 11) == 0x2_0000_0000;
      NumeralLength(v, 8, lower, 11);
    } else if r == 10 {
      TenDigits(v, lower);
    } else {
      assert Power(16, 4) == 0x1_0000;
      assert Power(16, 8) == P32;
      NumeralLength(v, 16, lower, 8);
    }
  }

  lemma {:induction false} LowBits(v: nat, p: nat)
    requires 0 < p
    ensures (v / 2 % p) * 2 + v % 2 == v % (2 * p)
  {
    var q, w := v / 2 / p, v / 2 % p;
    assert v / 2 == q * p + w;
    assert q * (2 * p) == 2 * (q * p);
    ModUnique(v, 2 * p, q, w * 2 + v % 2);
  }

  lemma {:induction false} NumeralGrows(v: nat, r: nat, lower: bool, n: nat)
    requires IsRadix(r) && 0 < n <= |Numeral(v, r, lower)|
    ensures var s, d := Numeral(v, r, lower), DigitChar(Remainder(v, r), lower);
      if Quotient(v, r) == 0 then s[|s| - n..] == [d]
      else
        var t := Numeral(Quotient(v, r), r, lower);
        n - 1 <= |t| && s[|s| - n..] == t[|t| - (n - 1)..] + [d]
  {
  }

  lemma {:induction false} OneMoreDigit(v: nat, r: nat, p: nat, lower: bool, rest: seq<byte>, negative: bool)
    requires r == 2 && v < P32 && 0 < p && 2 * p <= P32
    ensures Digits([DigitChar(Remainder(v, r), lower)] + rest, r, negative, v / 2 % p)
         == Digits(rest, r, negative, v % (2 * p))
  {
    var d := DigitChar(Remainder(v, r), lower);
    LowBits(v, p);
    DigitRoundTrip(Remainder(v, r), lower);
    assert ([d] + rest)[1..] == rest;
    DigitsOnwards([d] + rest, rest, r, negative, v / 2 % p, v % (2 * p));
  }

  // Reading the last n binary digits of v accumulates v modulo p, the n-th power of two.
  lemma {:induction false} LastDigitsRead(v: nat, r: nat, n: nat, p: nat, lower: bool, rest: seq<byte>, negative: bool)
    requires r == 2 && v < P32 && n <= |Numeral(v, r, lower)| && p == Pow2(n) <= P32 && 0 < p
    ensures Digits(Numeral(v, r, lower)[|Numeral(v, r, lower)| - n..] + rest, r, negative, 0)
         == Digits(rest, r, negative, v % p)
    decreases n
  {
    var s, d := Numeral(v, r, lower), DigitChar(Remainder(v, r), lower);
    if n == 0 {
      assert s[|s|..] + rest == rest;
    } else {
      Pow2Order(n - 1, n);
      OneMoreDigit(v, r, Pow2(n - 1), lower, rest, negative);
      NumeralGrows(v, r, lower, n);
      if Quotient(v, r) != 0 {
        var t := Numeral(v / 2, r, lower);
        LastDigitsRead(v / 2, r, n - 1, Pow2(n - 1), lower, [d] + rest, negative);
        Regroup(t[|t| - (n - 1)..], [d], rest);
      }
    }
  }

  lemma {:induction false} ShortBinary(v: nat, r: nat, n: nat, lower: bool)
    requires r == 2 && n == 16 && |Numeral(v, r, lower)| <= n
    ensures v % 0x1_0000 == v
  {
    SixteenBits(n);
    BelowPower(v, r, lower);
    Pow2Order(|Numeral(v, r, lower)|, n);
  }

  lemma {:induction false} LongBinary(v: nat, r: nat, n: nat, lower: bool, rest: seq<byte>, negative: bool)
    requires r == 2 && n == 16 && v < P32 && n < |Numeral(v, r, lower)|
    ensures Digits(Low16(Numeral(v, r, lower)) + rest, r, negative, 0) == Digits(rest, r, negative, v % 0x1_0000)
  {
    SixteenBits(n);
    LastDigitsRead(v, r, n, Pow2(n), lower, rest, negative);
  }

  // A binary number of which the buffer keeps sixteen digits is read back modulo 2^16.
  lemma {:induction false} BinaryReads(v: nat, r: nat, lower: bool, rest: seq<byte>, negative: bool)
    requires r == 2 && v < P32
    ensures Digits(Low16(Numeral(v, r, lower)) + rest, r, negative, 0) == Digits(rest, r, negative, v % 0x1_0000)
  {
    if |Numeral(v, r, lower)| <= 16 {
      ShortBinary(v, r, 16, lower);
      NumeralReads(v, r, lower, rest, negative);
    } else {
      LongBinary(v, r, 16, lower, rest, negative);
    }
  }

  lemma {:induction false} SixteenBits(n: nat)
    requires n == 16
    ensures Pow2(n) == 0x1_0000
  {
    assert Pow2(8) == 256;
    assert Pow2(16) == 0x1_0000;
  }

  lemma {:induction false} BelowPower(v: nat, r: nat, lower: bool)
    requires r == 2
    ensures v < Pow2(|Numeral(v, r, lower)|)
    decreases v
  {
    if v / 2 > 0 {
      BelowPower(v / 2, r, lower);
    } else {
      assert Pow2(1) == 2;
    }
  }

  // A number with its format: "%d", "%u" with any width, padded with spaces on either side, "0x%x" or
  // "0x%X", "0%o", and "0b%b".
  datatype Item =
    | Decimal(v: int, signed: bool, width: nat, left: bool)
    | Hexadecimal(v: int, lower: bool)
    | Octal(v: int)
    | Binary(v: int)

  predicate IsItem(it: Item) {
    match it
    case Decimal(v, signed, _, _) => if signed then -P31 <= v < P31 else 0 <= v < P32
    case Hexadecimal(v, _) => 0 <= v < P32
    case Octal(v) => 0 <= v < P32
    case Binary(v) => 0 <= v < P32
  }

  // What is read back: of a binary number only the low sixteen bits.
  function PrintedValue(it: Item): int {
    if it.Binary? then it.v % 0x1_0000 else it.v
  }

  function ItemText(it: Item): seq<byte> {
    match it
    case Decimal(v, signed, width, left) => Field(Conversion(left, false, width, 10, signed, false), v)
    case Hexadecimal(v, lower) => [ZERO, LETTER_X] + Field(Conversion(false, false, 0, 16, false, lower), v)
    case Octal(v) => [ZERO] + Field(Conversion(false, false, 0, 8, false, false), v)
    case Binary(v) => [ZERO, LETTER_B] + Field(Conversion(false, false, 0, 2, false, false), v)
  }

  // The items separated by single spaces.
  function Text(items: seq<Item>): seq<byte> {
    if items == [] then []
    else if |items| == 1 then ItemText(items[0])
    else ItemText(items[0]) + ([SPACE] + Text(items[1..]))
  }

  lemma {:induction false} SkipRepeated(k: nat, t: seq<byte>)
    ensures SkipSpaces(Repeat(SPACE, k) + t) == SkipSpaces(t)
  {
    if k == 0 {
      assert Repeat(SPACE, k) + t == t;
    } else {
      assert (Repeat(SPACE, k) + t)[1..] == Repeat(SPACE, k - 1) + t;
      SkipRepeated(k - 1, t);
    }
  }

  // Digits without a prefix.
  lemma {:induction false} PlainReads(v: nat, lower: bool, rest: seq<byte>, negative: bool)
    requires v < P32 && Head(rest) <= SPACE && (negative ==> v > 0)
    ensures Unsigned(Numeral(v, 10, lower) + rest, negative)
         == Parsed(true, I32(if negative then U32(0 - v) else v), rest)
  {
    FirstDigit(v, 10, lower);
    var t := Numeral(v, 10, lower) + rest;
    assert t[0] == Numeral(v, 10, lower)[0];
    if v == 0 {
      assert Numeral(0, 10, lower) == [ZERO];
      assert t[1..] == rest;
    } else {
      NumeralReads(v, 10, lower, rest, negative);
    }
  }

  lemma {:induction false} NothingRepeated(t: seq<byte>)
    ensures Repeat(SPACE, 0) + t == t
  {
  }

  // With k spaces in front.
  lemma {:induction false} PositiveReads(v: nat, lower: bool, rest: seq<byte>, k: nat)
    requires v < P32 && Head(rest) <= SPACE
    ensures Atoi(Repeat(SPACE, k) + (Numeral(v, 10, lower) + rest)) == Parsed(true, I32(v), rest)
  {
    var t := Numeral(v, 10, lower) + rest;
    SkipRepeated(k, t);
    FirstDigit(v, 10, lower);
    assert Head(t) == Numeral(v, 10, lower)[0];
    PlainReads(v, lower, rest, false);
  }

  lemma {:induction false} NegativeReads(v: nat, lower: bool, rest: seq<byte>, k: nat)
    requires 0 < v < P32 && Head(rest) <= SPACE
    ensures Atoi(Repeat(SPACE, k) + (([MINUS] + Numeral(v, 10, lower)) + rest)) == Parsed(true, I32(U32(0 - v)), rest)
  {
    var t := Numeral(v, 10, lower) + rest;
    Regroup([MINUS], Numeral(v, 10, lower), rest);
    SkipRepeated(k, [MINUS] + t);
    assert ([MINUS] + t)[1..] == t;
    PlainReads(v, lower, rest, true);
  }

  lemma {:induction false} TwosComplement(v: int)
    requires -P31 <= v < P31
    ensures v < 0 ==> U32(v) >= P31 && 0 < U32(0 - U32(v)) && U32(0 - U32(0 - U32(v))) == U32(v)
    ensures v >= 0 ==> U32(v) == v
    ensures I32(v) == v && I32(U32(v)) == v
  {
  }

  lemma {:induction false} SignedReads(f: Conversion, v: int, rest: seq<byte>, k: nat)
    requires IsConversion(f) && f.radix == 10 && Head(rest) <= SPACE
    requires if f.signed then -P31 <= v < P31 else 0 <= v < P32
    ensures Atoi(Repeat(SPACE, k) + (Figures(f, v) + rest)) == Parsed(true, I32(v), rest)
  {
    FiguresOf(f, v);
    if f.signed && v < 0 {
      TwosComplement(v);
      NegativeReads(U32(0 - U32(v)), f.lower, rest, k);
    } else {
      PositiveReads(v, f.lower, rest, k);
    }
  }

  lemma {:induction false} FiguresOf(f: Conversion, v: int)
    requires IsConversion(f) && f.radix == 10
    requires if f.signed then -P31 <= v < P31 else 0 <= v < P32
    ensures Figures(f, v) == if f.signed && v < 0 then [MINUS] + Numeral(U32(0 - U32(v)), 10, f.lower)
                             else Numeral(v, 10, f.lower)
  {
    if f.signed && v < 0 {
      TwosComplement(v);
      FitsBuffer(U32(0 - U32(v)), 10, f.lower);
    } else {
      FitsBuffer(v, 10, f.lower);
    }
  }

  predicate IsPrefix(prefix: seq<byte>, r: nat) {
    || (r == 16 && prefix == [ZERO, LETTER_X])
    || (r == 2 && prefix == [ZERO, LETTER_B])
    || (r == 8 && prefix == [ZERO])
  }

  // Digits after a radix prefix.
  lemma {:induction false} PrefixSeen(prefix: seq<byte>, s: seq<byte>, r: nat)
    requires IsPrefix(prefix, r) && (r == 8 ==> 48 <= Head(s) <= 57)
    ensures Unsigned(prefix + s, false) == Digits(s, r, false, 0) && Head(prefix + s) == ZERO
  {
    var t := prefix + s;
    if r == 8 {
      assert t[1..] == s;
    } else {
      assert t[1..][0] == prefix[1];
      assert t[1..][1..] == s;
    }
  }

  // What the digits kept by the buffer stand for.
  function Kept(v: nat, r: nat): nat {
    if r == 2 then v % 0x1_0000 else v
  }

  lemma {:induction false} KeptReads(v: nat, r: nat, lower: bool, rest: seq<byte>)
    requires IsRadix(r) && v < P32
    ensures Digits(Low16(Numeral(v, r, lower)) + rest, r, false, 0) == Digits(rest, r, false, Kept(v, r))
  {
    if r == 2 {
      BinaryReads(v, r, lower, rest, false);
    } else {
      FitsBuffer(v, r, lower);
      NumeralReads(v, r, lower, rest, false);
    }
  }

  lemma {:induction false} PrefixedReads(prefix: seq<byte>, v: nat, r: nat, lower: bool, rest: seq<byte>, k: nat)
    requires v < P32 && Head(rest) <= SPACE && IsPrefix(prefix, r)
    ensures Atoi(Repeat(SPACE, k) + (prefix + (Low16(Numeral(v, r, lower)) + rest)))
         == Parsed(true, I32(Kept(v, r)), rest)
  {
    var s := Low16(Numeral(v, r, lower)) + rest;
    if r == 8 {
      FirstDigit(v, 8, lower);
      FitsBuffer(v, 8, lower);
      assert s[0] == Numeral(v, 8, lower)[0];
    }
    PrefixSeen(prefix, s, r);
    SkipRepeated(k, prefix + s);
    KeptReads(v, r, lower, rest);
  }

  // The spaces behind a left-justified number.
  function Trailing(it: Item): nat {
    if it.Decimal? && it.left then
      |Repeat(SPACE, it.width - |Figures(Conversion(true, false, it.width, 10, it.signed, false), it.v)|)|
    else 0
  }

  lemma {:induction false} ItemReads(it: Item, k: nat, rest: seq<byte>)
    requires IsItem(it) && Head(rest) <= SPACE
    ensures Atoi(Repeat(SPACE, k) + (ItemText(it) + rest))
         == Parsed(true, I32(PrintedValue(it)), Repeat(SPACE, Trailing(it)) + rest)
  {
    match it
    case Decimal(v, signed, width, left) => DecimalReads(it, k, rest);
    case Hexadecimal(v, lower) => PrefixedField([ZERO, LETTER_X], v, 16, lower, rest, k);
    case Octal(v) => PrefixedField([ZERO], v, 8, false, rest, k);
    case Binary(v) => PrefixedField([ZERO, LETTER_B], v, 2, false, rest, k);
  }

  lemma {:induction false} PlainField(f: Conversion, v: nat)
    requires IsConversion(f) && !f.left && f.width == 0 && !f.signed && v < P32
    ensures Field(f, v) == Low16(Numeral(v, f.radix, f.lower))
  {
    NothingBefore(Repeat(if f.zero then ZERO else SPACE, 0 - |Figures(f, v)|), Figures(f, v));
  }

  lemma {:induction false} NothingBefore(a: seq<byte>, s: seq<byte>)
    requires |a| == 0
    ensures a + s == s
  {
  }

  lemma {:induction false} PrefixedField(prefix: seq<byte>, v: nat, r: nat, lower: bool, rest: seq<byte>, k: nat)
    requires v < P32 && Head(rest) <= SPACE && IsPrefix(prefix, r)
    ensures Atoi(Repeat(SPACE, k) + ((prefix + Field(Conversion(false, false, 0, r, false, lower), v)) + rest))
         == Parsed(true, I32(Kept(v, r)), Repeat(SPACE, 0) + rest)
  {
    PlainField(Conversion(false, false, 0, r, false, lower), v);
    Regroup(prefix, Low16(Numeral(v, r, lower)), rest);
    PrefixedReads(prefix, v, r, lower, rest, k);
    NothingRepeated(rest);
  }

  lemma {:induction false} DecimalReads(it: Item, k: nat, rest: seq<byte>)
    requires it.Decimal? && IsItem(it) && Head(rest) <= SPACE
    ensures Atoi(Repeat(SPACE, k) + (ItemText(it) + rest))
         == Parsed(true, I32(it.v), Repeat(SPACE, Trailing(it)) + rest)
  {
    var f := Conversion(it.left, false, it.width, 10, it.signed, false);
    var s := Figures(f, it.v);
    var pad := Repeat(SPACE, it.width - |s|);
    if it.left {
      Regroup(s, pad, rest);
      assert pad == Repeat(SPACE, Trailing(it));
      SignedReads(f, it.v, pad + rest, k);
    } else {
      Regroup(pad, s, rest);
      Regroup(Repeat(SPACE, k), pad, s + rest);
      assert Repeat(SPACE, k) + pad == Repeat(SPACE, k + |pad|);
      SignedReads(f, it.v, rest, k + |pad|);
      NothingRepeated(rest);
    }
  }

  // Successive calls of xatoi return the values of the items, in order, and then fail.
  ghost predicate ReadsBack(t: seq<byte>, items: seq<Item>)
    decreases |items|
  {
    var p := Atoi(t);
    if items == [] then !p.ok && p.res == 0
    else p.ok && p.res == I32(PrintedValue(items[0])) && ReadsBack(p.rest, items[1..])
  }

  lemma {:induction false} TextReadsBack(items: seq<Item>, k: nat)
    requires forall i :: 0 <= i < |items| ==> IsItem(items[i])
    ensures ReadsBack(Repeat(SPACE, k) + Text(items), items)
    decreases |items|
  {
    if items == [] {
      SkipRepeated(k, []);
    } else {
      var rest := if |items| == 1 then [] else [SPACE] + Text(items[1..]);
      var m := Trailing(items[0]);
      assert Text(items) == ItemText(items[0]) + rest;
      ItemReads(items[0], k, rest);
      if |items| == 1 {
        assert items[1..] == [];
        TextReadsBack([], m);
      } else {
        TextReadsBack(items[1..], m + 1);
        Regroup(Repeat(SPACE, m), [SPACE], Text(items[1..]));
        assert Repeat(SPACE, m) + [SPACE] == Repeat(SPACE, m + 1);
      }
    }
  }

  // What is printed as a list is read back as the same list, unsigned values as the long they are
  // stored in.
  lemma {:induction false} PrintedListReadsBack(items: seq<Item>)
    requires forall i :: 0 <= i < |items| ==> IsItem(items[i])
    ensures ReadsBack(Text(items), items)
  {
    TextReadsBack(items, 0);
    NothingRepeated(Text(items));
  }

  // The value read back is the one printed, modulo 2^32 and with its sign if it was printed signed,
  // exactly when it is not a binary number of more than sixteen digits.
  lemma {:induction false} ReadBackValue(it: Item)
    requires IsItem(it)
    ensures U32(I32(PrintedValue(it))) == U32(it.v) <==> !it.Binary? || it.v < 0x1_0000
    ensures it.Decimal? && it.signed ==> I32(PrintedValue(it)) == it.v
  {
    if it.Decimal? && it.signed {
      TwosComplement(it.v);
    }
  }

  // A field is as wide as asked, or as wide as its sign and digits if these need more.
  lemma {:induction false} FieldWidth(f: Conversion, arg: int)
    requires IsConversion(f)
    ensures |Field(f, arg)| == if f.width > |Figures(f, arg)| then f.width else |Figures(f, arg)|
  {
  }

  // The digits are those of C, in the case asked for.
  lemma {:induction false} DigitCharacters(d: nat, lower: bool)
    requires d < 16
    ensures DigitChar(d, lower) as int
         == if d < 10 then '0' as int + d else (if lower then 'a' as int else 'A' as int) + d - 10
  {
  }

  lemma {:induction false} NumeralCharacters(v: nat, r: nat, lower: bool, i: nat)
    requires IsRadix(r) && i < |Numeral(v, r, lower)|
    ensures exists d :: 0 <= d < r && Numeral(v, r, lower)[i] == DigitChar(d, lower)
    decreases v
  {
    if i < |Numeral(v, r, lower)| - 1 {
      QuotientShrinks(v, r);
      NumeralCharacters(Quotient(v, r), r, lower, i);
    } else {
      assert Numeral(v, r, lower)[i] == DigitChar(Remainder(v, r), lower);
    }
  }

  // In a field the sign and digits come first or last, with spaces behind them, or spaces, or zeros if
  // asked for, before them.
  lemma {:induction false} FieldCharacters(f: Conversion, arg: int, i: nat)
    requires IsConversion(f) && i < |Field(f, arg)|
    ensures var s, pad := Figures(f, arg), |Field(f, arg)| - |Figures(f, arg)|;
      Field(f, arg)[i] as int ==
        if f.left then if i < |s| then s[i] as int else ' ' as int
        else if i >= pad then s[i - pad] as int else if f.zero then '0' as int else ' ' as int
  {
    FieldWidth(f, arg);
    var n := f.width - |Figures(f, arg)|;
    RepeatAt(SPACE, n);
    RepeatAt(ZERO, n);
  }

  lemma {:induction false} RepeatAt(c: byte, n: int)
    ensures forall i :: 0 <= i < |Repeat(c, n)| ==> Repeat(c, n)[i] == c
  {
  }
}
