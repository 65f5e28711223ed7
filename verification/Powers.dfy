/**
  Powers of two, 32-bit integers, and the uniqueness of division.
 */
module Powers {

  const P31: int := 0x8000_0000
  const P32: int := 0x1_0000_0000

  // Conversions to uint32_t and int32_t.
  function U32(x: int): int { x % P32 }
  function I32(x: int): int { if U32(x) < P31 then U32(x) else U32(x) - P32 }

  function Pow2(n: nat): nat {
    if n == 0 then 1 else 2 * Pow2(n - 1)
  }

  lemma {:induction false} Pow2Sum(m: nat, n: nat)
    ensures Pow2(m + n) == Pow2(m) * Pow2(n)
  {
    if m > 0 {
      Pow2Sum(m - 1, n);
      assert Pow2(m + n) == 2 * Pow2((m - 1) + n);
      assert (2 * Pow2(m - 1)) * Pow2(n) == 2 * (Pow2(m - 1) * Pow2(n));
    }
  }

  lemma {:induction false} Pow2Order(m: nat, n: nat)
    requires m <= n
    ensures 1 <= Pow2(m) <= Pow2(n)
    decreases n
  {
    if m < n {
      Pow2Order(m, n - 1);
    } else if m > 0 {
      Pow2Order(m - 1, n - 1);
    }
  }

  lemma {:induction false} Pow32()
    ensures Pow2(31) == 0x8000_0000 && Pow2(32) == 0x1_0000_0000
  {
    assert Pow2(8) == 256;
    assert Pow2(16) == 0x1_0000;
    assert Pow2(24) == 0x100_0000;
    assert Pow2(31) == 0x8000_0000;
  }

  lemma {:induction false} PowOf31(n: nat)
    requires n == 31
    ensures Pow2(n) == P31
  {
    Pow32();
  }

  lemma {:induction false} MulOrder(a: nat, b: nat, length: nat)
    requires a <= b
    ensures a * length <= b * length
  {
  }

  lemma {:induction false} ModUnique(x: nat, length: nat, q: nat, r: nat)
    requires r < length && x == q * length + r
    ensures x % length == r
  {
    var d := x / length;
    assert x == d * length + x % length;
    if d > q {
      MulOrder(q + 1, d, length);
    } else if d < q {
      MulOrder(d + 1, q, length);
    }
  }

  lemma {:induction false} ModRound(x: nat, length: nat)
    requires 0 < length
    ensures (x + length) % length == x % length
  {
    var q := x / length;
    assert x == q * length + x % length;
    assert (q + 1) * length == q * length + length;
    ModUnique(x + length, length, q + 1, x % length);
  }
}
