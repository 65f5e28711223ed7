/**
  What arm_recip_q15 of Drivers/arm_math.h returns for negative inputs. Its cast to 16 bits wraps, so
  the result depends on how often it does. Every range of inputs that share a table entry is followed
  through both passes as an interval, in as many parts as it takes for the cast to wrap the same number
  of times on all of a part and for the interval of results to decide the question.
 */
module NegativeQ15 {
  import opened Powers
  import opened Reciprocal

  // The step without its casts to 32 bits, which no input notices.
  lemma {:induction false} StepClosed(a: int, x: int)
    ensures Step15(a, x) == I16(x * (P15 - 1 - a * x / P15) / P14)
  {
    var t := a * x / P15;
    var u, v := P15 - 1 - t, U32(P15 - 1 - U32(t));
    Congruent(P15 - 1, t);
    var m := (v - u) / P32;
    assert v == u + P32 * m;
    assert x * v == x * u + P32 * (x * m) by {
      assert x * (P32 * m) == P32 * (x * m);
    }
    CastLow(x * u, x * v, x * m);
  }

  lemma {:induction false} Congruent(c: int, t: int)
    ensures (U32(c - U32(t)) - (c - t)) % P32 == 0
  {
  }

  lemma {:induction false} CastLow(z: int, z': int, m: int)
    requires z' == z + P32 * m
    ensures I16(U32(z') / P14) == I16(z / P14)
  {
    var l, w := z % P32, z / P32;
    Remainder(l, w + m);
    Remainder(l, w);
    QuotientShift(l, w);
    CastRound(l / P14, 4 * w);
  }

  lemma {:induction false} Remainder(l: int, w: int)
    requires 0 <= l < P32
    ensures U32(l + P32 * w) == l
  {
  }

  lemma {:induction false} QuotientShift(l: int, w: int)
    ensures (l + P32 * w) / P14 == l / P14 + P16 * (4 * w)
  {
  }

  lemma {:induction false} CastRound(q: int, n: int)
    ensures I16(q + P16 * n) == I16(q)
  {
  }

  // ---------------------------------------------------------------- intervals

  // For every negative a from a0 to a1 and every x from x0 to x1 the second factor of the step lies
  // between u0 and u1, and its result, from which the cast takes off n times 2^16, between y0 and y1.
  predicate Bounds(a0: int, a1: int, x0: int, x1: int, u0: int, u1: int, n: int, y0: int, y1: int) {
    && 0x8000 * (0x7FFF - u1) <= (if x1 >= 0 then a0 else a1) * x1
    && (if x0 >= 0 then a1 else a0) * x0 < 0x8000 * (0x8000 - u0)
    && 0x4000 * (y0 + 0x1_0000 * n) <= x0 * (if x0 >= 0 then u0 else u1)
    && x1 * (if x1 >= 0 then u1 else u0) < 0x4000 * (y1 + 1 + 0x1_0000 * n)
    && 0 <= u0 && -0x8000 <= y0 && y1 < 0x8000
  }

  lemma {:induction false} Product(a: int, x: int, a0: int, a1: int, x0: int, x1: int)
    requires a0 <= a <= a1 < 0 && x0 <= x <= x1
    ensures (if x1 >= 0 then a0 else a1) * x1 <= a * x <= (if x0 >= 0 then a1 else a0) * x0
  {
    Order(-a, x0, x);
    Order(-a, x, x1);
    if x1 >= 0 { Order(x1, a0, a); } else { Order(-x1, a, a1); }
    if x0 >= 0 { Order(x0, a, a1); } else { Order(-x0, a0, a); }
  }

  lemma {:induction false} Order(c: int, p: int, q: int)
    requires c >= 0 && p <= q
    ensures c * p <= c * q && (-c) * q <= (-c) * p
  {
    assert c * (q - p) >= 0;
  }

  lemma {:induction false} Factor(t: int, r: int, p: int, u0: int, u1: int)
    requires p == P15 * t + r && 0 <= r < P15
    requires P15 * (P15 - 1 - u1) <= p < P15 * (P15 - u0)
    ensures u0 <= P15 - 1 - t <= u1
  {
  }

  lemma {:induction false} Cast(z: int, s: int, d: int, n: int, y0: int, y1: int)
    requires d == P14 * z + s && 0 <= s < P14
    requires P14 * (y0 + P16 * n) <= d < P14 * (y1 + 1 + P16 * n) && -P15 <= y0 && y1 < P15
    ensures y0 <= z - P16 * n <= y1 && I16(z) == z - P16 * n
  {
    CastRound(z - P16 * n, n);
  }

  lemma {:induction false} Scaled(u: int, x: int, u0: int, u1: int, x0: int, x1: int)
    requires 0 <= u0 <= u <= u1 && x0 <= x <= x1
    ensures x0 * (if x0 >= 0 then u0 else u1) <= x * u <= x1 * (if x1 >= 0 then u1 else u0)
  {
    Order(u, x0, x);
    Order(u, x, x1);
    if x0 >= 0 { Order(x0, u0, u); } else { Order(-x0, u, u1); }
    if x1 >= 0 { Order(x1, u, u1); } else { Order(-x1, u0, u); }
  }

  lemma {:induction false} StepBetween(a: int, x: int, a0: int, a1: int, x0: int, x1: int, u0: int, u1: int, n: int,
                                       y0: int, y1: int)
    requires a0 <= a <= a1 < 0 && x0 <= x <= x1 && Bounds(a0, a1, x0, x1, u0, u1, n, y0, y1)
    ensures y0 <= Step15(a, x) <= y1
    ensures Step15(a, x) == x * (P15 - 1 - a * x / P15) / P14 - P16 * n
  {
    StepClosed(a, x);
    Product(a, x, a0, a1, x0, x1);
    var t := a * x / P15;
    Factor(t, a * x % P15, a * x, u0, u1);
    var u := P15 - 1 - t;
    Scaled(u, x, u0, u1, x0, x1);
    Cast(x * u / P14, x * u % P14, x * u, n, y0, y1);
  }

  // ---------------------------------------------------------------- what is expected

  // Where the result has the right sign.
  predicate KeepsSign(a: int) {
    -32767 <= a <= -29185 || -28416 <= a <= -26965 || -24576 <= a <= -16385
  }

  // The six normalised inputs whose result happens to be as good as that of a positive input.
  predicate Lucky(a: int) {
    a == -31488 || a == -31486 || a == -31485 || a == -31483 || a == -31475 || a == -31473
  }

  // At most 2^-12 below the true reciprocal 2^29 / a.
  predicate Accurate(a: int, y: int) {
    0 < P29 - a * y < P17
  }

  predicate AsExpected(a: int, y: int) {
    (y < 0 <==> KeepsSign(a)) && (Accurate(a, y) <==> Lucky(a))
  }

  predicate AllKeepSign(a0: int, a1: int) {
    (-32767 <= a0 && a1 <= -29185) || (-28416 <= a0 && a1 <= -26965) || (-24576 <= a0 && a1 <= -16385)
  }

  predicate NoneKeepsSign(a0: int, a1: int) {
    (-29184 <= a0 && a1 <= -28417) || (-26964 <= a0 && a1 <= -24577) || -16384 <= a0
  }

  predicate NoneLucky(a0: int, a1: int) {
    a1 < -31488 || -31473 < a0 || (a0 == a1 && !Lucky(a0)) || (-31482 <= a0 && a1 <= -31476)
  }

  // What the results of both passes, x0 to x1 and y0 to y1, say about all inputs from a0 to a1. When the
  // second pass does not wrap, an error of the first that is large enough stays too large.
  predicate Decided(a0: int, a1: int, x1: int, m: int, y0: int, y1: int) {
    if NoneKeepsSign(a0, a1) then y0 >= 0
    else if NoneLucky(a0, a1) then
      && AllKeepSign(a0, a1) && y1 < 0
      && (|| a0 * y0 <= 0x2000_0000 - 0x2_0000 || a1 * y1 >= 0x2000_0000
          || (x1 < 0 && m == 0 && a1 * x1 >= 0x2000_0000 + 0x90_0000))
    else
      a0 == a1 && AllKeepSign(a0, a1) && y0 == y1 < 0 && 0x2000_0000 - 0x2_0000 < a0 * y0 < 0x2000_0000
  }

  // The error of the second pass, when it does not wrap, is not less than the square of the first.
  lemma {:induction false} StaysFar(a: int, x: int, y: int)
    requires -P15 <= a < 0 && a * x >= P29 + 0x90_0000
    requires y == x * (P15 - 1 - a * x / P15) / P14
    ensures !Accurate(a, y)
  {
    var p, t, r := a * x, a * x / P15, a * x % P15;
    var u := P15 - 1 - t;
    var s := x * u % P14;
    assert p * u == a * (x * u) == P14 * (a * y) + a * s by {
      assert a * (P14 * y + s) == a * (P14 * y) + a * s;
    }
    NewtonIdentity15(p, a * y, a * s, u, t, r, p * u);
    MulBounds(-a, s, P15, P14);
    MulBounds(p, P15 - r, p, P15);
    SquareAtLeast(p - P29, 0x90_0000);
  }

  lemma {:induction false} SquareAtLeast(e: int, n: int)
    requires 0 <= n <= e
    ensures (-e) * (-e) == e * e >= n * n
  {
    MulBounds(n, n, e, e);
  }

  lemma {:induction false} DecidedHolds(a: int, x: int, y: int, a0: int, a1: int, x1: int, m: int, y0: int, y1: int)
    requires -P15 < a0 <= a <= a1 < 0 && x <= x1 && y0 <= y <= y1 && Decided(a0, a1, x1, m, y0, y1)
    requires y == x * (P15 - 1 - a * x / P15) / P14 - P16 * m
    ensures AsExpected(a, y)
  {
    if y >= 0 {
      Order(y, a, 0);
    } else {
      Product(a, y, a0, a1, y0, y);
      Product(a, y, a0, a1, y, if y1 < 0 then y1 else y);
    }
    if NoneLucky(a0, a1) && !NoneKeepsSign(a0, a1) && x1 < 0 {
      Product(a, x, a0, a1, x, x1);
      Order(-a1, x, x1);
      if m == 0 && a1 * x1 >= 0x2000_0000 + 0x90_0000 {
        Order(-x, a, a1);
        StaysFar(a, x, y);
      }
    }
  }

  function Result(a: int): int {
    Step15(a, Step15(a, RecipTableQ15()[Index15(a)]))
  }

  // The inputs from a0 to a1 share table entry x; the other numbers are the bounds of both passes.
  lemma {:induction false} Range(a: int, a0: int, a1: int, x: int, u0: int, u1: int, n: int, x0: int, x1: int,
                                 v0: int, v1: int, m: int, y0: int, y1: int)
    requires -P15 < a0 <= a1 < 0 && (a0 <= a <= a1 ==> RecipTableQ15()[Index15(a)] == x)
    requires Bounds(a0, a1, x, x, u0, u1, n, x0, x1) && Bounds(a0, a1, x0, x1, v0, v1, m, y0, y1)
    requires Decided(a0, a1, x1, m, y0, y1)
    ensures a0 <= a <= a1 ==> AsExpected(a, Result(a))
  {
    if a0 <= a <= a1 {
      StepBetween(a, x, a0, a1, x, x, u0, u1, n, x0, x1);
      StepBetween(a, Step15(a, x), a0, a1, x0, x1, v0, v1, m, y0, y1);
      DecidedHolds(a, Step15(a, x), Result(a), a0, a1, x1, m, y0, y1);
    }
  }

  function Entry(k: nat): int
    requires k < 64
  {
    if k < 8 then ROW_0[k] else if k < 16 then ROW_1[k - 8] else if k < 24 then ROW_2[k - 16]
    else if k < 32 then ROW_3[k - 24] else if k < 40 then ROW_4[k - 32] else if k < 48 then ROW_5[k - 40]
    else if k < 56 then ROW_6[k - 48] else ROW_7[k - 56]
  }

  lemma {:induction false} Lookup(a: int)
    requires -P15 <= a < -P14
    ensures 0 <= Index15(a) == a / 0x100 + 128 < 64 && RecipTableQ15()[Index15(a)] == Entry(a / 0x100 + 128) / 0x1_0000
  {
  }

  // ---------------------------------------------------------------- all inputs, one table row at a time

  lemma {:induction false} Row0(a: int)
    requires -32767 <= a <= -31489
    ensures AsExpected(a, Result(a))
  {
    Lookup(a);
    Range(a, -32767, -32513, 32515, 65029, 65282, 2, -2019, -1517, 30749, 31262, 0, -3853, -2848);
    Range(a, -32512, -32257, 32019, 64287, 64536, 2, -5437, -4951, 27373, 27894, 0, -9257, -8272);
    Range(a, -32256, -32001, 31537, 63566, 63812, 2, -8716, -8243, 24188, 24717, 0, -13150, -12170);
    Range(a, -32000, -31745, 31070, 62868, 63109, 2, -11852, -11395, 21193, 21728, 0, -15718, -14740);
    Range(a, -31744, -31593, 30616, 62286, 62427, 2, -14682, -14418, 18544, 18867, 0, -16908, -16319);
    Range(a, -31592, -31489, 30616, 62188, 62285, 2, -14865, -14683, 18436, 18658, 0, -16929, -16522);
  }

  lemma {:induction false} Bin5Lucky(a: int)
    requires -31488 <= a <= -31481
    ensures AsExpected(a, Result(a))
  {
    Lookup(a);
    assert RecipTableQ15()[Index15(a)] == 30176;
    Range(a, -31488, -31488, 30176, 61765, 61765, 2, -17314, -17314, 16130, 16130, 0, -17046, -17046);
    Range(a, -31487, -31487, 30176, 61764, 61764, 2, -17316, -17316, 16128, 16128, 0, -17046, -17046);
    Range(a, -31486, -31486, 30176, 61763, 61763, 2, -17318, -17318, 16127, 16127, 0, -17047, -17047);
    Range(a, -31485, -31485, 30176, 61762, 61762, 2, -17319, -17319, 16127, 16127, 0, -17048, -17048);
    Range(a, -31484, -31484, 30176, 61761, 61761, 2, -17321, -17321, 16125, 16125, 0, -17048, -17048);
    Range(a, -31483, -31483, 30176, 61760, 61760, 2, -17323, -17323, 16124, 16124, 0, -17049, -17049);
    Range(a, -31482, -31482, 30176, 61759, 61759, 2, -17325, -17325, 16122, 16122, 0, -17048, -17048);
    Range(a, -31481, -31481, 30176, 61758, 61758, 2, -17327, -17327, 16121, 16121, 0, -17049, -17049);
  }

  lemma {:induction false} Bin5Last(a: int)
    requires -31480 <= a <= -31473
    ensures AsExpected(a, Result(a))
  {
    Lookup(a);
    assert RecipTableQ15()[Index15(a)] == 30176;
    Range(a, -31480, -31480, 30176, 61757, 61757, 2, -17329, -17329, 16120, 16120, 0, -17050, -17050);
    Range(a, -31479, -31479, 30176, 61756, 61756, 2, -17330, -17330, 16119, 16119, 0, -17050, -17050);
    Range(a, -31478, -31478, 30176, 61756, 61756, 2, -17330, -17330, 16120, 16120, 0, -17051, -17051);
    Range(a, -31477, -31477, 30176, 61755, 61755, 2, -17332, -17332, 16118, 16118, 0, -17051, -17051);
    Range(a, -31476, -31476, 30176, 61754, 61754, 2, -17334, -17334, 16117, 16117, 0, -17052, -17052);
    Range(a, -31475, -31475, 30176, 61753, 61753, 2, -17336, -17336, 16116, 16116, 0, -17053, -17053);
    Range(a, -31474, -31474, 30176, 61752, 61752, 2, -17338, -17338, 16114, 16114, 0, -17053, -17053);
    Range(a, -31473, -31473, 30176, 61751, 61751, 2, -17340, -17340, 16113, 16113, 0, -17054, -17054);
  }

  lemma {:induction false} Bin5Near(a: int)
    requires -31472 <= a <= -31465
    ensures AsExpected(a, Result(a))
  {
    Lookup(a);
    assert RecipTableQ15()[Index15(a)] == 30176;
    Range(a, -31472, -31472, 30176, 61750, 61750, 2, -17342, -17342, 16111, 16111, 0, -17054, -17054);
    Range(a, -31471, -31471, 30176, 61749, 61749, 2, -17343, -17343, 16111, 16111, 0, -17055, -17055);
    Range(a, -31470, -31470, 30176, 61748, 61748, 2, -17345, -17345, 16110, 16110, 0, -17055, -17055);
    Range(a, -31469, -31469, 30176, 61747, 61747, 2, -17347, -17347, 16108, 16108, 0, -17055, -17055);
    Range(a, -31468, -31468, 30176, 61746, 61746, 2, -17349, -17349, 16107, 16107, 0, -17056, -17056);
    Range(a, -31467, -31467, 30176, 61745, 61745, 2, -17351, -17351, 16105, 16105, 0, -17056, -17056);
    Range(a, -31466, -31466, 30176, 61744, 61744, 2, -17353, -17353, 16104, 16104, 0, -17057, -17057);
    Range(a, -31465, -31465, 30176, 61744, 61744, 2, -17353, -17353, 16105, 16105, 0, -17058, -17058);
  }

  lemma {:induction false} Bin5Next(a: int)
    requires -31464 <= a <= -31458
    ensures AsExpected(a, Result(a))
  {
    Lookup(a);
    assert RecipTableQ15()[Index15(a)] == 30176;
    Range(a, -31464, -31464, 30176, 61743, 61743, 2, -17354, -17354, 16104, 16104, 0, -17058, -17058);
    Range(a, -31463, -31463, 30176, 61742, 61742, 2, -17356, -17356, 16103, 16103, 0, -17059, -17059);
    Range(a, -31462, -31462, 30176, 61741, 61741, 2, -17358, -17358, 16101, 16101, 0, -17059, -17059);
    Range(a, -31461, -31461, 30176, 61740, 61740, 2, -17360, -17360, 16100, 16100, 0, -17060, -17060);
    Range(a, -31460, -31460, 30176, 61739, 61739, 2, -17362, -17362, 16099, 16099, 0, -17060, -17060);
    Range(a, -31459, -31459, 30176, 61738, 61738, 2, -17364, -17364, 16097, 16097, 0, -17060, -17060);
    Range(a, -31458, -31458, 30176, 61737, 61737, 2, -17365, -17365, 16097, 16097, 0, -17061, -17061);
  }

  lemma {:induction false} Bin5Far(a: int)
    requires -31457 <= a <= -31233
    ensures AsExpected(a, Result(a))
  {
    Lookup(a);
    assert RecipTableQ15()[Index15(a)] == 30176;
    Range(a, -31457, -31457, 30176, 61736, 61736, 2, -17367, -17367, 16095, 16095, 0, -17061, -17061);
    Range(a, -31456, -31454, 30176, 61733, 61735, 2, -17373, -17369, 16090, 16095, 0, -17067, -17058);
    Range(a, -31453, -31446, 30176, 61726, 61733, 2, -17386, -17373, 16079, 16095, 0, -17080, -17050);
    Range(a, -31445, -31419, 30176, 61701, 61725, 2, -17432, -17388, 16039, 16095, 0, -17125, -17022);
    Range(a, -31418, -31336, 30176, 61625, 61700, 2, -17572, -17434, 15919, 16095, 0, -17263, -16940);
    Range(a, -31335, -31233, 30176, 61530, 61624, 2, -17747, -17574, 15797, 16017, 0, -17350, -16945);
  }

  lemma {:induction false} Row0Rest(a: int)
    requires -31232 <= a <= -30721
    ensures AsExpected(a, Result(a))
  {
    Lookup(a);
    Range(a, -31232, -30977, 29748, 60890, 61121, 2, -20516, -20097, 13213, 13769, 0, -17242, -16208);
    Range(a, -30976, -30721, 29332, 60267, 60495, 2, -23178, -22769, 10857, 11421, 0, -16157, -15089);
  }

  lemma {:induction false} Row1(a: int)
    requires -30720 <= a <= -29697
    ensures AsExpected(a, Result(a))
  {
    Lookup(a);
    Range(a, -30720, -30465, 28927, 59661, 59887, 2, -25737, -25338, 8639, 9210, 0, -14468, -13361);
    Range(a, -30464, -30209, 28534, 59073, 59295, 2, -28192, -27806, 6558, 7133, 0, -12274, -11130);
    Range(a, -30208, -29953, 28150, 58499, 58718, 2, -30563, -30187, 4592, 5174, 0, -9652, -8461);
    Range(a, -29952, -29744, 27778, 57982, 58158, 2, -32768, -32469, 2815, 3295, 0, -6590, -5579);
    Range(a, -29743, -29697, 27778, 57942, 57981, 1, 32700, 32766, 62403, 62509, 2, -6525, -6062);
  }

  lemma {:induction false} Row1Rest(a: int)
    requires -29696 <= a <= -28673
    ensures AsExpected(a, Result(a))
  {
    Lookup(a);
    Range(a, -29696, -29546, 27414, 57486, 57611, 1, 30650, 30859, 60404, 60733, 2, -18073, -16683);
    Range(a, -29545, -29536, 27414, 57478, 57485, 1, 30637, 30648, 60383, 60401, 2, -18160, -18086);
    Range(a, -29535, -29535, 27414, 57477, 57477, 1, 30635, 30635, 60380, 60380, 2, -18173, -18173);
    Range(a, -29534, -29522, 27414, 57466, 57476, 1, 30617, 30633, 60352, 60377, 2, -18292, -18186);
    Range(a, -29521, -29441, 27414, 57398, 57465, 1, 30503, 30615, 60173, 60349, 2, -19045, -18305);
    Range(a, -29440, -29185, 27061, 56870, 57080, 1, 28394, 28741, 58057, 58589, 2, -30458, -28295);
    Range(a, -29184, -28929, 26716, 56354, 56561, 1, 26355, 26693, 56035, 56541, 1, 24600, 26581);
    Range(a, -28928, -28673, 26380, 55851, 56056, 1, 24390, 24720, 54109, 54591, 1, 15013, 16830);
  }

  lemma {:induction false} Row2(a: int)
    requires -28672 <= a <= -26625
    ensures AsExpected(a, Result(a))
  {
    Lookup(a);
    Range(a, -28672, -28417, 26052, 55360, 55563, 1, 22491, 22814, 52272, 52730, 1, 6219, 7888);
    Range(a, -28416, -28161, 25732, 54882, 55082, 1, 20659, 20973, 50522, 50955, 1, -1832, -309);
    Range(a, -28160, -27905, 25420, 54415, 54613, 1, 18889, 19196, 48853, 49264, 1, -9214, -7817);
    Range(a, -27904, -27649, 25116, 53960, 54155, 1, 17182, 17481, 47265, 47654, 1, -15969, -14692);
    Range(a, -27648, -27393, 24819, 53515, 53709, 1, 15530, 15824, 45750, 46119, 1, -22171, -20994);
    Range(a, -27392, -27137, 24528, 53080, 53271, 1, 13928, 14214, 44302, 44650, 1, -27875, -26800);
    Range(a, -27136, -26965, 24245, 52719, 52845, 1, 12477, 12663, 43035, 43254, 1, -32764, -32106);
    Range(a, -26964, -26881, 24245, 52657, 52718, 1, 12385, 12475, 42927, 43033, 0, 32449, 32765);
    Range(a, -26880, -26625, 23968, 52242, 52429, 1, 10888, 11161, 41614, 41923, 0, 27654, 28558);
  }

  lemma {:induction false} Row3(a: int)
    requires -26624 <= a <= -24577
    ensures AsExpected(a, Result(a))
  {
    Lookup(a);
    Range(a, -26624, -26369, 23697, 51837, 52021, 1, 9438, 9704, 40362, 40652, 0, 23250, 24077);
    Range(a, -26368, -26113, 23432, 51441, 51623, 1, 8033, 8293, 39169, 39441, 0, 19204, 19963);
    Range(a, -26112, -25857, 23173, 51053, 51233, 1, 6671, 6926, 38032, 38287, 0, 15485, 16185);
    Range(a, -25856, -25601, 22920, 50674, 50853, 1, 5353, 5603, 36950, 37189, 0, 12072, 12717);
    Range(a, -25600, -25345, 22672, 50304, 50480, 1, 4074, 4317, 35919, 36140, 0, 8931, 9522);
    Range(a, -25344, -25089, 22430, 49941, 50116, 1, 2834, 3073, 34937, 35144, 0, 6043, 6591);
    Range(a, -25088, -24833, 22192, 49586, 49758, 1, 1627, 1860, 34001, 34192, 0, 3376, 3881);
    Range(a, -24832, -24577, 21960, 49238, 49409, 1, 459, 688, 33112, 33289, 0, 927, 1397);
  }

  lemma {:induction false} Row4(a: int)
    requires -24576 <= a <= -22529
    ensures AsExpected(a, Result(a))
  {
    Lookup(a);
    Range(a, -24576, -24321, 21732, 48897, 49066, 1, -679, -455, 32258, 32430, 0, -1344, -896);
    Range(a, -24320, -24065, 21509, 48564, 48731, 1, -1781, -1562, 31446, 31620, 0, -3438, -2998);
    Range(a, -24064, -23809, 21291, 48237, 48403, 1, -2853, -2637, 30672, 30851, 0, -5373, -4937);
    Range(a, -23808, -23553, 21077, 47917, 48081, 1, -3894, -3683, 29938, 30120, 0, -7159, -6730);
    Range(a, -23552, -23297, 20867, 47603, 47766, 1, -4908, -4701, 29240, 29425, 0, -8815, -8390);
    Range(a, -23296, -23041, 20662, 47296, 47457, 1, -5891, -5688, 28579, 28768, 0, -10344, -9922);
    Range(a, -23040, -22785, 20460, 46994, 47153, 1, -6851, -6653, 27950, 28141, 0, -11768, -11350);
    Range(a, -22784, -22529, 20262, 46698, 46856, 1, -7785, -7590, 27354, 27549, 0, -13091, -12672);
  }

  lemma {:induction false} Row5(a: int)
    requires -22528 <= a <= -20481
    ensures AsExpected(a, Result(a))
  {
    Lookup(a);
    Range(a, -22528, -22273, 20068, 46408, 46564, 1, -8693, -8502, 26791, 26989, 0, -14320, -13903);
    Range(a, -22272, -22017, 19878, 46124, 46278, 1, -9576, -9389, 26259, 26459, 0, -15465, -15048);
    Range(a, -22016, -21761, 19692, 45845, 45998, 1, -10435, -10251, 25756, 25960, 0, -16534, -16115);
    Range(a, -21760, -21505, 19508, 45570, 45722, 1, -11277, -11097, 25279, 25485, 0, -17542, -17122);
    Range(a, -21504, -21249, 19329, 45302, 45452, 1, -12092, -11915, 24832, 25041, 0, -18482, -18059);
    Range(a, -21248, -20993, 19152, 45037, 45186, 1, -12891, -12717, 24408, 24620, 0, -19372, -18946);
    Range(a, -20992, -20737, 18979, 44778, 44926, 1, -13666, -13495, 24013, 24227, 0, -20208, -19779);
    Range(a, -20736, -20481, 18808, 44523, 44669, 1, -14426, -14259, 23639, 23855, 0, -21005, -20574);
  }

  lemma {:induction false} Row6(a: int)
    requires -20480 <= a <= -18433
    ensures AsExpected(a, Result(a))
  {
    Lookup(a);
    Range(a, -20480, -20225, 18641, 44273, 44418, 1, -15165, -15000, 23289, 23509, 0, -21760, -21322);
    Range(a, -20224, -19969, 18477, 44027, 44171, 1, -15885, -15723, 22963, 23186, 0, -22480, -22037);
    Range(a, -19968, -19713, 18316, 43786, 43929, 1, -16587, -16427, 22660, 22885, 0, -23169, -22720);
    Range(a, -19712, -19457, 18157, 43549, 43690, 1, -17275, -17119, 22376, 22603, 0, -23833, -23380);
    Range(a, -19456, -19201, 18001, 43316, 43456, 1, -17945, -17792, 22113, 22342, 0, -24471, -24014);
    Range(a, -19200, -18945, 17848, 43086, 43225, 1, -18601, -18449, 21868, 22101, 0, -25092, -24625);
    Range(a, -18944, -18689, 17697, 42861, 42999, 1, -19241, -19092, 21644, 21879, 0, -25695, -25222);
    Range(a, -18688, -18433, 17549, 42639, 42776, 1, -19866, -19719, 21438, 21675, 0, -26282, -25802);
  }

  lemma {:induction false} Row7(a: int)
    requires -18432 <= a <= -16385
    ensures AsExpected(a, Result(a))
  {
    Lookup(a);
    Range(a, -18432, -18177, 17404, 42422, 42557, 1, -20473, -20330, 21251, 21490, 0, -26854, -26370);
    Range(a, -18176, -17921, 17260, 42207, 42341, 1, -21073, -20932, 21079, 21320, 0, -27422, -26931);
    Range(a, -17920, -17665, 17119, 41996, 42129, 1, -21657, -21518, 20924, 21167, 0, -27980, -27481);
    Range(a, -17664, -17409, 16981, 41789, 41921, 1, -22225, -22088, 20787, 21033, 0, -28532, -28024);
    Range(a, -17408, -17153, 16844, 41585, 41716, 1, -22784, -22649, 20663, 20911, 0, -29080, -28565);
    Range(a, -17152, -16897, 16710, 41384, 41514, 1, -23329, -23196, 20556, 20806, 0, -29626, -29103);
    Range(a, -16896, -16641, 16578, 41187, 41316, 1, -23862, -23731, 20464, 20716, 0, -30172, -29641);
    Range(a, -16640, -16385, 16448, 40992, 41120, 1, -24384, -24256, 20385, 20639, 0, -30717, -30180);
  }

  lemma {:induction false} RowLast()
    ensures AsExpected(-16384, Result(-16384))
  {
    assert Index15(-16384) == 0 && RecipTableQ15()[0] == ROW_0[0] / 0x1_0000;
    Range(-16384, -16384, -16384, 32515, 49025, 49025, 1, 31756, 31756, 48645, 48645, 1, 28749, 28749);
  }

  // A negative input keeps the sign exactly on the three ranges of KeepsSign, and gets a result as good
  // as that of a positive input exactly when it is one of the six.
  lemma {:induction false} NegativeResults(a: int)
    requires -P15 < a <= -P14
    ensures AsExpected(a, Result(a))
  {
    if a <= -31489 { Row0(a); }
    else if a <= -31481 { Bin5Lucky(a); }
    else if a <= -31473 { Bin5Last(a); }
    else if a <= -31465 { Bin5Near(a); }
    else if a <= -31458 { Bin5Next(a); }
    else if a <= -31233 { Bin5Far(a); }
    else if a <= -30721 { Row0Rest(a); }
    else if a <= -29697 { Row1(a); }
    else if a <= -28673 { Row1Rest(a); }
    else if a <= -26625 { Row2(a); }
    else if a <= -24577 { Row3(a); }
    else if a <= -22529 { Row4(a); }
    else if a <= -20481 { Row5(a); }
    else if a <= -18433 { Row6(a); }
    else if a < -P14 { Row7(a); }
    else { RowLast(); }
  }

  // arm_recip_q15 with the shipped table, for the input it has been given and the shift it returns: the
  // result is the reciprocal, up to 2^-12 of it below, exactly when the input is positive or one of
  // the six.
  lemma {:induction false} RecipIsAccurate(input: int, shift: nat)
    requires -P15 < input < P15 && input != 0 && 1 <= shift
    requires var a := input * Pow2(shift - 1); if input > 0 then P14 <= a < P15 else -P15 < a <= -P14
    ensures var a := input * Pow2(shift - 1);
      && (Accurate(a, Result(a)) <==> input > 0 || Lucky(a))
      && (input < 0 ==> (Result(a) < 0 <==> KeepsSign(a)))
  {
    var a := input * Pow2(shift - 1);
    if input > 0 {
      AccurateQ15(a);
    } else {
      NegativeResults(a);
    }
  }
}
