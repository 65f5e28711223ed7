/**
  The fixed-point reciprocals of Drivers/arm_math.h: a table lookup and two Newton steps. With A the
  normalised input and X the approximation, the error is E = 2^61 - A * X for Q31 and
  E = 2^29 - A * X for Q15; E / 2^61 and E / 2^29 are the relative errors.
 */
module Reciprocal {
  import opened Powers

  const P30: int := 0x4000_0000
  const P61: int := 0x2000_0000_0000_0000
  const P92: int := 0x1000_0000_0000_0000_0000_0000

  // clip_q63_to_q31; `>>` on a signed value divides rounding down.
  function Clip(x: int): int {
    if I32(x / P32) != (if I32(x) < 0 then -1 else 0) then (if x < 0 then -P31 else P31 - 1) else I32(x)
  }

  lemma {:induction false} ClipSaturates(x: int)
    requires -P31 * P32 <= x < P31 * P32
    ensures Clip(x) == if x < -P31 then -P31 else if x >= P31 then P31 - 1 else x
  {
    var hi, lo := x / P32, x % P32;
    assert x == hi * P32 + lo;
    assert -P31 <= hi < P31;
  }

  // One pass of the loop of arm_recip_q31.
  function Step31(a: int, x: int): int {
    var t := U32(a * x / P31);
    Clip(x * U32(P31 - 1 - t) / P30)
  }

  // The effect of a step on the error, with p = A * X, q = A * X', the remainder r of the first
  // shift, and w = A times the remainder of the second.
  lemma {:induction false} NewtonIdentity(p: int, q: int, w: int, u: int, t: int, r: int, pu: int)
    requires p == P31 * t + r && u == P31 - 1 - t && pu == p * u && P30 * q == pu - w
    ensures P61 * (P61 - q) == (P61 - p) * (P61 - p) + p * (P31 - r) + P31 * w
  {
    assert P31 * u == 2 * P61 - P31 - p + r;
    assert P31 * pu == p * (P31 * u) == p * (2 * P61) - p * P31 - p * p + p * r;
    assert (P61 - p) * (P61 - p) == P61 * P61 - 2 * (P61 * p) + p * p;
    assert p * (P31 - r) == p * P31 - p * r;
  }

  lemma {:induction false} MulBounds(a: int, b: int, n: int, m: int)
    requires 0 <= a <= n && 0 <= b <= m
    ensures 0 <= a * b <= n * m && a * b <= a * m
  {
    assert a * b <= a * m <= n * m;
  }

  // The step without its casts, which change nothing for a normalised positive input.
  lemma {:induction false} StepExact(a: int, x: int) returns (t: int, r: int, y: int, s: int)
    requires P30 <= a < P31 && 0 <= x < P31
    ensures a * x == P31 * t + r && 0 <= r < P31 && 0 <= t < P31
    ensures x * (P31 - 1 - t) == P30 * y + s && 0 <= s < P30 && 0 <= y
    ensures Step31(a, x) == Clip(y)
  {
    MulBounds(a, x, P31 - 1, P31 - 1);
    t, r := a * x / P31, a * x % P31;
    assert U32(t) == t && U32(P31 - 1 - t) == P31 - 1 - t;
    MulBounds(x, P31 - 1 - t, P31, P31);
    y, s := x * (P31 - 1 - t) / P30, x * (P31 - 1 - t) % P30;
  }

  lemma {:induction false} ErrorStep(a: int, x: int, t: int, r: int, y: int, s: int)
    requires P30 <= a < P31 && 0 <= x < P31
    requires a * x == P31 * t + r && 0 <= r < P31
    requires x * (P31 - 1 - t) == P30 * y + s && 0 <= s < P30
    ensures a * y < P61
    ensures (P61 - a * x) * (P61 - a * x) <= P61 * (P61 - a * y) < (P61 - a * x) * (P61 - a * x) + 3 * P92
  {
    var p, u, q, w := a * x, P31 - 1 - t, a * y, a * s;
    Distribute(a, x, u, y, s);
    NewtonIdentity(p, q, w, u, t, r, p * u);
    MulBounds(a, x, P31, P31);
    MulBounds(p, P31 - r, P31 * P31, P31);
    MulBounds(a, s, P31, P30 - 1);
    if p > 0 {
      MulBounds(1, P31 - r, p, P31 - r);
    }
    StrictlyBelow(p, q, p * (P31 - r), w);
  }

  // No cast of a step changes a value, the clip never fires, and the new error is the square of the
  // old one plus less than 3 * 2^-30.
  lemma {:induction false} NewtonStep(a: int, x: int)
    requires P30 <= a < P31 && 0 <= x < P31
    ensures 0 <= Step31(a, x) < P31 && a * Step31(a, x) < P61
    ensures (P61 - a * x) * (P61 - a * x) <= P61 * (P61 - a * Step31(a, x)) < (P61 - a * x) * (P61 - a * x) + 3 * P92
  {
    var t, r, y, s := StepExact(a, x);
    ErrorStep(a, x, t, r, y, s);
    QuotientBelow(a, y);
    ClipSaturates(y);
  }

  lemma {:induction false} Distribute(a: int, x: int, u: int, y: int, s: int)
    requires x * u == P30 * y + s
    ensures (a * x) * u == a * (x * u) == P30 * (a * y) + a * s
  {
    assert a * (P30 * y + s) == a * (P30 * y) + a * s;
  }

  lemma {:induction false} SquareNonNegative(e: int)
    ensures e * e >= 0 && (e != 0 ==> e * e > 0)
  {
  }

  lemma {:induction false} StrictlyBelow(p: int, q: int, b: int, w: int)
    requires P61 * (P61 - q) == (P61 - p) * (P61 - p) + b + P31 * w
    requires p >= 0 && b >= 0 && w >= 0 && (p > 0 ==> b > 0)
    ensures q < P61
  {
    SquareNonNegative(P61 - p);
  }

  lemma {:induction false} QuotientBelow(a: int, y: int)
    requires P30 <= a && 0 <= y && a * y < P61
    ensures y < P31
  {
    if y >= P31 {
      MulBounds(P30, P31, a, y);
    }
  }

  // ---------------------------------------------------------------- the shipped table

  const P24: int := 0x100_0000
  const P34: int := 0x4_0000_0000
  const P54: int := 0x40_0000_0000_0000

  // armRecipTableQ31
  const ROW_0: seq<int> := [0x7F03F03F, 0x7D137420, 0x7B31E739, 0x795E9F94,
                            0x7798FD29, 0x75E06928, 0x7434554D, 0x72943B4B]
  const ROW_1: seq<int> := [0x70FF9C40, 0x6F760031, 0x6DF6F593, 0x6C8210E3,
                            0x6B16EC3A, 0x69B526F6, 0x685C655F, 0x670C505D]
  const ROW_2: seq<int> := [0x65C4952D, 0x6484E519, 0x634CF53E, 0x621C7E4F,
                            0x60F33C61, 0x5FD0EEB3, 0x5EB55785, 0x5DA03BEB]
  const ROW_3: seq<int> := [0x5C9163A1, 0x5B8898E6, 0x5A85A85A, 0x598860DF,
                            0x58909373, 0x579E1318, 0x56B0B4B8, 0x55C84F0B]
  const ROW_4: seq<int> := [0x54E4BA80, 0x5405D124, 0x532B6E8F, 0x52556FD0,
                            0x5183B35A, 0x50B618F3, 0x4FEC81A2, 0x4F26CFA2]
  const ROW_5: seq<int> := [0x4E64E64E, 0x4DA6AA1D, 0x4CEC008B, 0x4C34D010,
                            0x4B810016, 0x4AD078EF, 0x4A2323C4, 0x4978EA96]
  const ROW_6: seq<int> := [0x48D1B827, 0x482D77FE, 0x478C1657, 0x46ED801D,
                            0x4651A2E5, 0x45B86CE2, 0x4521CCE1, 0x448DB244]
  const ROW_7: seq<int> := [0x43FC0CFA, 0x436CCD78, 0x42DFE4B4, 0x42554426,
                            0x41CCDDB6, 0x4146A3C6, 0x40C28923, 0x40408102]

  function RecipTableQ31(): (table: seq<int>)
    ensures |table| == 64
  {
    (ROW_0 + ROW_1 + ROW_2 + ROW_3) + (ROW_4 + ROW_5 + ROW_6 + ROW_7)
  }

  // The entry for the normalised inputs from 2^30 + k * 2^24 up to the next entry: error below 2^-7.
  predicate GoodEntry(k: int, x: int) {
    && P30 <= x < P31
    && -P54 < P61 - (P30 + k * P24) * x < P54 && -P54 < P61 - (P30 + k * P24 + P24 - 1) * x < P54
  }

  lemma {:induction false} Row0(i: nat)
    requires i < 8
    ensures GoodEntry(0 + i, ROW_0[i])
  {
  }

  lemma {:induction false} Row1(i: nat)
    requires i < 8
    ensures GoodEntry(8 + i, ROW_1[i])
  {
  }

  lemma {:induction false} Row2(i: nat)
    requires i < 8
    ensures GoodEntry(16 + i, ROW_2[i])
  {
  }

  lemma {:induction false} Row3(i: nat)
    requires i < 8
    ensures GoodEntry(24 + i, ROW_3[i])
  {
  }

  lemma {:induction false} Row4(i: nat)
    requires i < 8
    ensures GoodEntry(32 + i, ROW_4[i])
  {
  }

  lemma {:induction false} Row5(i: nat)
    requires i < 8
    ensures GoodEntry(40 + i, ROW_5[i])
  {
  }

  lemma {:induction false} Row6(i: nat)
    requires i < 8
    ensures GoodEntry(48 + i, ROW_6[i])
  {
  }

  lemma {:induction false} Row7(i: nat)
    requires i < 8
    ensures GoodEntry(56 + i, ROW_7[i])
  {
  }

  lemma {:induction false} EntryIsGood(n: nat)
    requires n < 64
    ensures GoodEntry(n, RecipTableQ31()[n])
  {
    if n < 8 { Row0(n); }
    else if n < 16 { Row1(n - 8); }
    else if n < 24 { Row2(n - 16); }
    else if n < 32 { Row3(n - 24); }
    else if n < 40 { Row4(n - 32); }
    else if n < 48 { Row5(n - 40); }
    else if n < 56 { Row6(n - 48); }
    else { Row7(n - 56); }
  }

  // The table index of a normalised positive input, and the error of the entry found there.
  lemma {:induction false} FirstGuess(a: int)
    requires P30 <= a < P31
    ensures 0 <= a / P24 % 64 == a / P24 - 64 < 64
    ensures P30 <= RecipTableQ31()[a / P24 % 64] < P31
    ensures -P54 < P61 - a * RecipTableQ31()[a / P24 % 64] < P54
  {
    var k := a / P24 - 64;
    EntryIsGood(k);
    Between(P30 + k * P24, a, P30 + k * P24 + P24 - 1, RecipTableQ31()[k]);
  }

  lemma {:induction false} Between(lo: int, a: int, hi: int, x: int)
    requires lo <= a <= hi && 0 <= x
    ensures lo * x <= a * x <= hi * x
  {
  }

  lemma {:induction false} SquareBelow(e: int, n: int)
    requires -n <= e <= n
    ensures e * e <= n * n
  {
    assert (n - e) * (n + e) >= 0;
    assert (n - e) * (n + e) == n * n - e * e;
  }

  // With the shipped table: the result never exceeds the true reciprocal 2^61 / a, and is less than
  // 2^-27 of it below.
  lemma {:induction false} AccurateQ31(a: int)
    requires P30 <= a < P31
    ensures var y := Step31(a, Step31(a, RecipTableQ31()[a / P24 % 64]));
      0 <= y < P31 && 0 < P61 - a * y < P34
  {
    FirstGuess(a);
    var x := RecipTableQ31()[a / P24 % 64];
    NewtonStep(a, x);
    SquareBelow(P61 - a * x, P54);
    var x1 := Step31(a, x);
    assert 0 < P61 - a * x1 < 0x8002_0000_0000;
    NewtonStep(a, x1);
    SquareBelow(P61 - a * x1, 0x8002_0000_0000);
  }

  // For a negative input the cast of the first shift makes the correction too large: every step
  // saturates, so the result is the largest positive value whatever the input.
  lemma {:induction false} NegativeSaturates(a: int, x: int)
    requires -P31 < a <= -P30 && P30 <= x < P31
    ensures Step31(a, x) == P31 - 1
  {
    var p := a * x;
    MulBounds(-a, x, P31, P31);
    MulBounds(P30, P30, -a, x);
    assert p == -((-a) * x);
    var t := p / P31;
    assert -P31 <= t <= -0x2000_0000;
    var u := P31 - 1 - t;
    assert U32(P31 - 1 - U32(t)) == u;
    MulBounds(P30, P31, x, u);
    MulBounds(x, u, P31, P32);
    ClipSaturates(x * u / P30);
  }

  // ---------------------------------------------------------------- the function

  // The bit of data at mask, when there is none above it.
  lemma {:induction false} TopBit(data: int, mask: int)
    requires 0 < mask && 0 <= data < 2 * mask
    ensures data / mask == if data < mask then 0 else 1
  {
    var q, r := data / mask, data % mask;
    assert data == q * mask + r;
    if q >= 2 {
      MulBounds(2, mask, q, mask);
    }
  }

  // The mask tests the bit `count` below the top one, and there is no bit of data above it.
  predicate Tests(data: int, mask: int, count: nat) {
    && count < 32 && mask == Pow2(31 - count) && 0 < mask && data < 2 * mask
    && data / mask == if data < mask then 0 else 1
  }

  lemma {:induction false} NextMask(data: int, mask: int, count: nat)
    requires 0 < data && Tests(data, mask, count) && data / mask % 2 == 0
    ensures Tests(data, mask / 2, count + 1) && mask / 2 < mask
  {
    TopBit(data, mask / 2);
  }

  lemma {:induction false} TopReached(data: int, mask: int, count: nat)
    requires 0 < data && Tests(data, mask, count) && data / mask % 2 != 0
    ensures P31 <= data * Pow2(count) < P32
  {
    PowOf31(31 - count + count);
    Pow2Sum(31 - count, count);
    Scale(mask, data, Pow2(count));
  }

  // __CLZ as the header spells it out: count the zero bits above the first one bit.
  method CountLeadingZeros(data: int) returns (count: nat)
    requires 0 < data < P32
    ensures count < 32 && P31 <= data * Pow2(count) < P32
  {
    count := 0;
    var mask := P31;
    Pow32();
    TopBit(data, mask);
    while data / mask % 2 == 0
      invariant Tests(data, mask, count)
      decreases mask
    {
      NextMask(data, mask, count);
      count := count + 1;
      mask := mask / 2;
    }
    TopReached(data, mask, count);
  }

  lemma {:induction false} Scale(mask: int, data: int, p: int)
    requires 0 < p && mask * p == P31 && mask <= data < 2 * mask
    ensures P31 <= data * p < P32
  {
    MulBounds(mask, p, data, p);
    MulBounds(data, p, 2 * mask - 1, p);
    assert (2 * mask - 1) * p == 2 * (mask * p) - p;
  }

  // The table index, from the top bits of the normalised input.
  function Index31(a: int): int {
    a / P24 % 64
  }

  // arm_recip_q31. `shift` is the return value; the input was normalised by shift - 1 bits.
  method Recip31(input: int, table: seq<int>) returns (dst: int, shift: nat)
    requires -P31 < input < P31 && input != 0
    requires |table| == 64
    ensures 1 <= shift <= 31
    ensures var a := input * Pow2(shift - 1);
      && (if input > 0 then P30 <= a < P31 else -P31 < a <= -P30)
      && dst == Step31(a, Step31(a, table[Index31(a)]))
      && (table == RecipTableQ31() ==> (0 < P61 - a * dst < P34 <==> input > 0) && (input < 0 ==> dst == P31 - 1))
  {
    var zeros := CountLeadingZeros(if input > 0 then input else -input);
    var signBits := zeros - 1;
    Halves(if input > 0 then input else -input, zeros);
    var a := input * Pow2(signBits);
    assert input < 0 ==> a == -((-input) * Pow2(signBits));
    dst := table[Index31(a)];
    var i := 0;
    while i < 2
      invariant 0 <= i <= 2
      invariant dst == if i == 0 then table[Index31(a)] else if i == 1 then Step31(a, table[Index31(a)])
                       else Step31(a, Step31(a, table[Index31(a)]))
    {
      var tempVal := U32(a * dst / P31);
      tempVal := U32(P31 - 1 - tempVal);
      dst := Clip(dst * tempVal / P30);
      i := i + 1;
    }
    shift := signBits + 1;
    if table == RecipTableQ31() {
      RecipIsAccurate(input, shift);
    }
  }

  lemma {:induction false} Halves(v: int, zeros: nat)
    requires 0 < v < P31 && zeros < 32 && P31 <= v * Pow2(zeros) < P32
    ensures zeros > 0 && P30 <= v * Pow2(zeros - 1) < P31
  {
    assert Pow2(zeros) == if zeros == 0 then 1 else 2 * Pow2(zeros - 1);
    if zeros > 0 {
      assert v * (2 * Pow2(zeros - 1)) == 2 * (v * Pow2(zeros - 1));
    }
  }

  // So with the shipped table the result is the reciprocal, up to 2^-27 of it below, exactly when the
  // input is positive; a negative one gives the largest positive value.
  lemma {:induction false} RecipIsAccurate(input: int, shift: nat)
    requires -P31 < input < P31 && input != 0 && 1 <= shift
    requires var a := input * Pow2(shift - 1); if input > 0 then P30 <= a < P31 else -P31 < a <= -P30
    ensures var a := input * Pow2(shift - 1);
      var dst := Step31(a, Step31(a, RecipTableQ31()[Index31(a)]));
      && (0 < P61 - a * dst < P34 <==> input > 0)
      && (input < 0 ==> dst == P31 - 1)
  {
    var a := input * Pow2(shift - 1);
    var x := RecipTableQ31()[Index31(a)];
    if input > 0 {
      AccurateQ31(a);
    } else {
      EntryIsGood(Index31(a));
      NegativeSaturates(a, x);
      NegativeSaturates(a, P31 - 1);
      MulBounds(P30, P30, -a, P31 - 1);
      assert a * (P31 - 1) == -((-a) * (P31 - 1));
    }
  }

  // ---------------------------------------------------------------- Q15

  const P14: int := 0x4000
  const P15: int := 0x8000
  const P29: int := 0x2000_0000
  const P44: int := 0x1000_0000_0000

  // Conversion to int16_t.
  function I16(x: int): int { if x % 0x1_0000 < P15 then x % 0x1_0000 else x % 0x1_0000 - 0x1_0000 }

  // One pass of the loop of arm_recip_q15: the product with tempVal is unsigned and the result is cast.
  function Step15(a: int, x: int): int {
    var t := U32(a * x / P15);
    I16(U32(x * U32(P15 - 1 - t)) / P14)
  }

  lemma {:induction false} NewtonIdentity15(p: int, q: int, w: int, u: int, t: int, r: int, pu: int)
    requires p == P15 * t + r && u == P15 - 1 - t && pu == p * u && P14 * q == pu - w
    ensures P29 * (P29 - q) == (P29 - p) * (P29 - p) + p * (P15 - r) + P15 * w
  {
    assert P15 * u == 2 * P29 - P15 - p + r;
    assert P15 * pu == p * (P15 * u) == p * (2 * P29) - p * P15 - p * p + p * r;
    assert (P29 - p) * (P29 - p) == P29 * P29 - 2 * (P29 * p) + p * p;
    assert p * (P15 - r) == p * P15 - p * r;
  }

  lemma {:induction false} StepExact15(a: int, x: int) returns (t: int, r: int, y: int, s: int)
    requires P14 <= a < P15 && 0 <= x < P15
    ensures a * x == P15 * t + r && 0 <= r < P15 && 0 <= t < P15
    ensures x * (P15 - 1 - t) == P14 * y + s && 0 <= s < P14 && 0 <= y
    ensures Step15(a, x) == I16(y)
  {
    MulBounds(a, x, P15 - 1, P15 - 1);
    t, r := a * x / P15, a * x % P15;
    assert U32(t) == t && U32(P15 - 1 - t) == P15 - 1 - t;
    MulBounds(x, P15 - 1 - t, P15, P15);
    assert U32(x * (P15 - 1 - t)) == x * (P15 - 1 - t);
    y, s := x * (P15 - 1 - t) / P14, x * (P15 - 1 - t) % P14;
  }

  lemma {:induction false} ErrorStep15(a: int, x: int, t: int, r: int, y: int, s: int)
    requires P14 <= a < P15 && 0 <= x < P15
    requires a * x == P15 * t + r && 0 <= r < P15
    requires x * (P15 - 1 - t) == P14 * y + s && 0 <= s < P14
    ensures a * y < P29
    ensures (P29 - a * x) * (P29 - a * x) <= P29 * (P29 - a * y) < (P29 - a * x) * (P29 - a * x) + 3 * P44
  {
    var p, u, q, w := a * x, P15 - 1 - t, a * y, a * s;
    assert p * u == a * (x * u) == P14 * q + w by {
      assert a * (P14 * y + s) == a * (P14 * y) + a * s;
    }
    NewtonIdentity15(p, q, w, u, t, r, p * u);
    MulBounds(a, x, P15, P15);
    MulBounds(p, P15 - r, P15 * P15, P15);
    MulBounds(a, s, P15, P14 - 1);
    if p > 0 {
      MulBounds(1, P15 - r, p, P15 - r);
    }
    SquareNonNegative(P29 - p);
  }

  // The same for Q15, with 3 * 2^-14: the cast to 16 bits never loses anything.
  lemma {:induction false} NewtonStep15(a: int, x: int)
    requires P14 <= a < P15 && 0 <= x < P15
    ensures 0 <= Step15(a, x) < P15 && a * Step15(a, x) < P29
    ensures (P29 - a * x) * (P29 - a * x) <= P29 * (P29 - a * Step15(a, x)) < (P29 - a * x) * (P29 - a * x) + 3 * P44
  {
    var t, r, y, s := StepExact15(a, x);
    ErrorStep15(a, x, t, r, y, s);
    FitsShort(a, y);
  }

  lemma {:induction false} FitsShort(a: int, y: int)
    requires P14 <= a && 0 <= y && a * y < P29
    ensures y < P15 && I16(y) == y
  {
    if y >= P15 {
      MulBounds(P14, P15, a, y);
    }
  }

  // ---------------------------------------------------------------- the shipped table for Q15

  const P16: int := 0x1_0000
  const P17: int := 0x2_0000
  const P22: int := 0x40_0000

  // armRecipTableQ15: the upper halves of the entries of armRecipTableQ31
  function RecipTableQ15(): (table: seq<int>)
    ensures |table| == 64 && forall k :: 0 <= k < 64 ==> table[k] == RecipTableQ31()[k] / P16
  {
    seq(64, k requires 0 <= k < 64 => RecipTableQ31()[k] / P16)
  }

  // The table index, from the top bits of the normalised input.
  function Index15(a: int): int {
    a / 0x100 % 64
  }

  lemma {:induction false} UpperHalves(a: int, x: int, x': int, f: int)
    requires x == P16 * x' + f
    ensures (P16 * a) * x == P32 * (a * x') + P16 * (a * f)
  {
    assert a * (P16 * x' + f) == P16 * (a * x') + a * f;
    assert (P16 * a) * x == P16 * (a * x);
  }

  // The entry found for a has at most 2^-7 + 2^-14 of error.
  lemma {:induction false} FirstGuess15(a: int)
    requires P14 <= a < P15
    ensures 0 <= Index15(a) < 64 && 0 <= RecipTableQ15()[Index15(a)] < P15
    ensures -P22 - P15 < P29 - a * RecipTableQ15()[Index15(a)] < P22 + P15
  {
    var k := Index15(a);
    assert k == a / 0x100 - 64 == (P16 * a) / P24 - 64 == Index31(P16 * a);
    FirstGuess(P16 * a);
    var x := RecipTableQ31()[k];
    UpperHalves(a, x, x / P16, x % P16);
    MulBounds(a, x % P16, P15, P16);
  }

  // With the shipped table: the result never exceeds the true reciprocal 2^29 / a, and is less than
  // 2^-12 of it below.
  lemma {:induction false} AccurateQ15(a: int)
    requires P14 <= a < P15
    ensures var y := Step15(a, Step15(a, RecipTableQ15()[Index15(a)]));
      0 <= y < P15 && 0 < P29 - a * y < P17
  {
    FirstGuess15(a);
    var x := RecipTableQ15()[Index15(a)];
    NewtonStep15(a, x);
    SquareBelow(P29 - a * x, P22 + P15);
    var x1 := Step15(a, x);
    assert 0 < P29 - a * x1 < 0x2_1000;
    NewtonStep15(a, x1);
    SquareBelow(P29 - a * x1, 0x2_1000);
  }

  lemma {:induction false} ShortShift(v: int, zeros: nat)
    requires 0 < v < P15 && zeros < 32 && P31 <= v * Pow2(zeros) < P32
    ensures 17 <= zeros && P14 <= v * Pow2(zeros - 17) < P15
  {
    Pow2Order(0, zeros);
    assert Pow2(8) == 256;
    assert Pow2(16) == 0x1_0000;
    if zeros < 17 {
      Pow2Order(zeros, 16);
      MulBounds(v, Pow2(zeros), P15 - 1, 0x1_0000);
    }
    Pow2Sum(17, zeros - 17);
    Regroup(v, 0x2_0000, Pow2(zeros - 17));
  }

  lemma {:induction false} Regroup(v: int, c: int, p: int)
    ensures v * (c * p) == c * (v * p)
  {
  }

  // arm_recip_q15
  method Recip15(input: int, table: seq<int>) returns (dst: int, shift: nat)
    requires -P15 < input < P15 && input != 0
    requires |table| == 64
    ensures 1 <= shift <= 15
    ensures var a := input * Pow2(shift - 1);
      && (if input > 0 then P14 <= a < P15 else -P15 < a <= -P14)
      && dst == Step15(a, Step15(a, table[Index15(a)]))
      && (table == RecipTableQ15() && input > 0 ==> 0 < P29 - a * dst < P17)
  {
    var zeros := CountLeadingZeros(if input > 0 then input else -input);
    ShortShift(if input > 0 then input else -input, zeros);
    var signBits := zeros - 17;
    var a := input * Pow2(signBits);
    assert input < 0 ==> a == -((-input) * Pow2(signBits));
    dst := TwoSteps15(a, table[Index15(a)]);
    shift := signBits + 1;
    if table == RecipTableQ15() && input > 0 {
      AccurateQ15(a);
    }
  }

  method TwoSteps15(a: int, x: int) returns (out: int)
    ensures out == Step15(a, Step15(a, x))
  {
    out := x;
    var i := 0;
    while i < 2
      invariant 0 <= i <= 2
      invariant out == if i == 0 then x else if i == 1 then Step15(a, x) else Step15(a, Step15(a, x))
    {
      var tempVal := U32(a * out / P15);
      tempVal := U32(P15 - 1 - tempVal);
      out := I16(U32(out * tempVal) / P14);
      i := i + 1;
    }
  }
}
