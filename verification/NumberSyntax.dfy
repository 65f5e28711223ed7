/**
  What text xatoi (src/xprintf.c) accepts, what it makes of it and where it stops, for every text, by the
  positions of its characters.
 */
module NumberSyntax {
  import opened Bytes
  import opened Powers
  import opened NumberText

  // The character at a position; behind the text there is the terminating zero.
  function At(text: seq<byte>, i: nat): byte {
    if i < |text| then text[i] else 0
  }

  predicate Is(c: byte, ch: char) {
    c as int == ch as int
  }

  // What a character counts as a digit: '0' to '9', 'A' to 'F', 'a' to 'f', and also ':' to '?', which
  // follow '9'. Nothing else is a digit in any radix.
  function Worth(c: byte): (d: nat)
    ensures d <= 16
  {
    if '0' as int <= c as int <= '?' as int then c as int - '0' as int
    else if 'A' as int <= c as int <= 'F' as int then c as int - 'A' as int + 10
    else if 'a' as int <= c as int <= 'f' as int then c as int - 'a' as int + 10
    else 16
  }

  predicate IsDigit(c: byte, r: nat) {
    Worth(c) < r
  }

  // The radix that the characters from position j on ask for, and where its digits begin.
  predicate Prefixed(text: seq<byte>, j: nat, r: nat, start: nat) {
    if Is(At(text, j), '0') && Is(At(text, j + 1), 'x') then r == 16 && start == j + 2
    else if Is(At(text, j), '0') && Is(At(text, j + 1), 'b') then r == 2 && start == j + 2
    else if Is(At(text, j), '0') then r == 8 && start == j + 1
    else r == 10 && start == j
  }

  // The digits from `start` end here.
  ghost predicate Run(text: seq<byte>, r: nat, start: nat, end: nat) {
    && start <= end <= |text|
    && (forall p :: start <= p < end ==> IsDigit(text[p], r)) && !IsDigit(At(text, end), r)
  }

  // The text is i spaces, perhaps a '-', a radix prefix, and digits from `start` up to `end`.
  ghost predicate Scanned(text: seq<byte>, i: nat, negative: bool, r: nat, start: nat, end: nat) {
    && i <= |text| && (forall p :: 0 <= p < i ==> Is(text[p], ' ')) && !Is(At(text, i), ' ')
    && negative == Is(At(text, i), '-') && Prefixed(text, if negative then i + 1 else i, r, start)
    && Run(text, r, start, end)
  }

  // It is a number if a blank or the end of the text follows, and a decimal number has a digit.
  predicate Accepted(text: seq<byte>, r: nat, start: nat, end: nat) {
    At(text, end) as int <= ' ' as int && (r == 10 ==> start < end)
  }

  // The value of the digits.
  function ValueOf(text: seq<byte>, start: nat, end: nat, r: nat): nat
    requires end <= |text|
    decreases end
  {
    if end <= start then 0 else ValueOf(text, start, end - 1, r) * r + Worth(text[end - 1])
  }

  lemma {:induction false} DigitAgrees(c: byte, r: nat)
    requires IsRadix(r)
    ensures IsDigit(c, r) <==> DigitValue(c).Digit? && DigitValue(c).d < r
    ensures IsDigit(c, r) ==> DigitValue(c).d == Worth(c) && c > SPACE
  {
  }

  lemma {:induction false} SameWord(a: int, b: int, k: int)
    requires a == b + k * P32
    ensures U32(a) == U32(b)
  {
  }

  lemma {:induction false} WrapOnce(v: nat, r: nat, d: nat)
    requires IsRadix(r)
    ensures U32(U32(v) * r + d) == U32(v * r + d)
  {
    var k := v / P32;
    assert v == U32(v) + k * P32;
    if r == 2 {
      SameWord(v * 2 + d, U32(v) * 2 + d, k * 2);
    } else if r == 8 {
      SameWord(v * 8 + d, U32(v) * 8 + d, k * 8);
    } else if r == 10 {
      SameWord(v * 10 + d, U32(v) * 10 + d, k * 10);
    } else {
      SameWord(v * 16 + d, U32(v) * 16 + d, k * 16);
    }
  }

  lemma {:induction false} HeadAt(text: seq<byte>, p: nat)
    requires p <= |text|
    ensures Head(text[p..]) == At(text, p)
    ensures p < |text| ==> text[p..][1..] == text[p + 1..]
  {
  }

  // The digit loop, from position p on.
  // One turn of the digit loop.
  lemma {:induction false} OneDigit(text: seq<byte>, start: nat, p: nat, r: nat, negative: bool)
    requires IsRadix(r) && start <= p < |text| && IsDigit(text[p], r)
    ensures Digits(text[p..], r, negative, U32(ValueOf(text, start, p, r)))
         == Digits(text[p + 1..], r, negative, U32(ValueOf(text, start, p + 1, r)))
  {
    var v := ValueOf(text, start, p, r);
    DigitAgrees(text[p], r);
    WrapOnce(v, r, Worth(text[p]));
    assert text[p..][0] == text[p] && text[p..][1..] == text[p + 1..];
    DigitsOnwards(text[p..], text[p + 1..], r, negative, U32(v), U32(ValueOf(text, start, p + 1, r)));
  }

  lemma {:induction false} LoopEnds(text: seq<byte>, end: nat, r: nat, negative: bool, v: nat)
    requires IsRadix(r) && end <= |text| && !IsDigit(At(text, end), r)
    ensures Digits(text[end..], r, negative, U32(v))
      == if At(text, end) <= SPACE then Parsed(true, I32(if negative then 0 - v else v), text[end..])
         else Parsed(false, 0, text[end..])
  {
    HeadAt(text, end);
    DigitAgrees(At(text, end), r);
    Negated(v);
  }

  // The digit loop, from position p on.
  lemma {:induction false} LoopExactly(text: seq<byte>, start: nat, p: nat, end: nat, r: nat, negative: bool)
    requires IsRadix(r) && start <= p <= end <= |text|
    requires (forall q :: start <= q < end ==> IsDigit(text[q], r)) && !IsDigit(At(text, end), r)
    ensures var v := ValueOf(text, start, end, r);
      Digits(text[p..], r, negative, U32(ValueOf(text, start, p, r)))
      == if At(text, end) <= SPACE then Parsed(true, I32(if negative then 0 - v else v), text[end..])
         else Parsed(false, 0, text[end..])
    decreases end - p
  {
    if p < end {
      OneDigit(text, start, p, r, negative);
      LoopExactly(text, start, p + 1, end, r, negative);
    } else {
      LoopEnds(text, end, r, negative, ValueOf(text, start, end, r));
    }
  }

  lemma {:induction false} Negated(v: nat)
    ensures I32(U32(0 - U32(v))) == I32(0 - v) && I32(U32(v)) == I32(v)
  {
    var k := v / P32;
    assert v == U32(v) + k * P32;
    SameWord(0 - U32(v), 0 - v, k);
  }

  lemma {:induction false} SpacesSkipped(text: seq<byte>, p: nat, i: nat)
    requires p <= i <= |text| && (forall q :: p <= q < i ==> text[q] == SPACE) && At(text, i) != SPACE
    ensures SkipSpaces(text[p..]) == text[i..]
    decreases i - p
  {
    HeadAt(text, p);
    if p < i {
      SpacesSkipped(text, p + 1, i);
    }
  }

  lemma {:induction false} DecimalExactly(text: seq<byte>, j: nat, negative: bool, end: nat)
    requires j <= |text| && At(text, j) != ZERO && Run(text, 10, j, end)
    ensures var p, v := Unsigned(text[j..], negative), ValueOf(text, j, end, 10);
      && p.ok == Accepted(text, 10, j, end) && p.rest == text[end..]
      && p.res == if p.ok then I32(if negative then 0 - v else v) else 0
  {
    HeadAt(text, j);
    LoopExactly(text, j, j, end, 10, negative);
  }

  lemma {:induction false} ZeroExactly(text: seq<byte>, j: nat, negative: bool, r: nat, start: nat, end: nat)
    requires j < |text| && At(text, j) == ZERO && Prefixed(text, j, r, start) && Run(text, r, start, end)
    ensures var p, v := Unsigned(text[j..], negative), ValueOf(text, start, end, r);
      && p.ok == Accepted(text, r, start, end) && p.rest == text[end..]
      && p.res == if p.ok then I32(if negative then 0 - v else v) else 0
  {
    HeadAt(text, j);
    HeadAt(text, j + 1);
    LoopExactly(text, start, start, end, r, negative);
  }

  // xatoi after the sign
  lemma {:induction false} UnsignedExactly(text: seq<byte>, j: nat, negative: bool, r: nat, start: nat, end: nat)
    requires j <= |text| && Prefixed(text, j, r, start) && Run(text, r, start, end)
    ensures var p, v := Unsigned(text[j..], negative), ValueOf(text, start, end, r);
      && p.ok == Accepted(text, r, start, end) && p.rest == text[end..]
      && p.res == if p.ok then I32(if negative then 0 - v else v) else 0
  {
    if At(text, j) == ZERO {
      ZeroExactly(text, j, negative, r, start, end);
    } else {
      DecimalExactly(text, j, negative, end);
    }
  }

  // Wherever the digits end, xatoi stops there; it succeeds exactly if they are accepted, and then its
  // result is their value with its sign, modulo 2^32, and otherwise 0.
  lemma {:induction false} AtoiExactly(text: seq<byte>, i: nat, negative: bool, r: nat, start: nat, end: nat)
    requires Scanned(text, i, negative, r, start, end)
    ensures var p, v := Atoi(text), ValueOf(text, start, end, r);
      && p.ok == Accepted(text, r, start, end) && p.rest == text[end..]
      && p.res == if p.ok then I32(if negative then 0 - v else v) else 0
  {
    SpacesSkipped(text, 0, i);
    assert text[0..] == text;
    HeadAt(text, i);
    UnsignedExactly(text, if negative then i + 1 else i, negative, r, start, end);
  }

  function FirstNot(text: seq<byte>, p: nat, space: bool, r: nat): (i: nat)
    requires p <= |text|
    ensures p <= i <= |text|
    decreases |text| - p
  {
    if p < |text| && (if space then text[p] == SPACE else IsDigit(text[p], r)) then FirstNot(text, p + 1, space, r)
    else p
  }

  lemma {:induction false} FirstNotIsFirst(text: seq<byte>, p: nat, space: bool, r: nat)
    requires p <= |text| && r <= 16
    ensures var i := FirstNot(text, p, space, r);
      && (forall q :: p <= q < i ==> if space then text[q] == SPACE else IsDigit(text[q], r))
      && if space then At(text, i) != SPACE else !IsDigit(At(text, i), r)
    decreases |text| - p
  {
    if p < |text| && (if space then text[p] == SPACE else IsDigit(text[p], r)) {
      FirstNotIsFirst(text, p + 1, space, r);
    }
  }

  // Every text can be scanned.
  lemma {:induction false} Scan(text: seq<byte>) returns (i: nat, negative: bool, r: nat, start: nat, end: nat)
    ensures Scanned(text, i, negative, r, start, end)
  {
    i := FirstNot(text, 0, true, 10);
    FirstNotIsFirst(text, 0, true, 10);
    negative := At(text, i) == MINUS;
    var j := if negative then i + 1 else i;
    if At(text, j) == ZERO && At(text, j + 1) == LETTER_X {
      r, start := 16, j + 2;
    } else if At(text, j) == ZERO && At(text, j + 1) == LETTER_B {
      r, start := 2, j + 2;
    } else if At(text, j) == ZERO {
      r, start := 8, j + 1;
    } else {
      r, start := 10, j;
    }
    end := FirstNot(text, start, false, r);
    FirstNotIsFirst(text, start, false, r);
  }

  // xatoi succeeds exactly on spaces, an optional '-', a radix prefix or a decimal digit, and then digits of
  // that radix up to a blank or the end of the text.
  lemma {:induction false} AcceptedIff(text: seq<byte>)
    ensures Atoi(text).ok <==> exists i, negative, r, start, end ::
      Scanned(text, i, negative, r, start, end) && Accepted(text, r, start, end)
    ensures if Atoi(text).ok then Head(Atoi(text).rest) <= SPACE else Atoi(text).res == 0
  {
    var i, negative, r, start, end := Scan(text);
    AtoiExactly(text, i, negative, r, start, end);
    HeadAt(text, end);
    if i', negative', r', start', end' :|
      Scanned(text, i', negative', r', start', end') && Accepted(text, r', start', end') {
      AtoiExactly(text, i', negative', r', start', end');
    }
  }
}
