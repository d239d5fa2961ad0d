/** Machine integers, and facts about products and floor division that the solver is not left to find. */
module Arithmetic {

  type U8 = n: int | 0 <= n < 0x100
  type U16 = n: int | 0 <= n < 0x1_0000
  type U32 = n: int | 0 <= n < 0x1_0000_0000
  type U64 = n: int | 0 <= n < 0x1_0000_0000_0000_0000
  type U128 = n: int | 0 <= n < 0x1_0000_0000_0000_0000_0000_0000_0000_0000

  const MAX_U64 := 0xFFFF_FFFF_FFFF_FFFF
  const MAX_U128 := 0xFFFF_FFFF_FFFF_FFFF_FFFF_FFFF_FFFF_FFFF

  function Min(a: int, b: int): int { if a < b then a else b }

  function Max(a: int, b: int): int { if a < b then b else a }

  function CeilDiv(n: nat, d: nat): nat
    requires d > 0
  {
    (n + d - 1) / d
  }

  function Pow10(d: nat): (p: nat)
    ensures p > 0
  {
    if d == 0 then 1 else 10 * Pow10(d - 1)
  }

  lemma {:induction false} Pow10Monotone(a: nat, b: nat)
    requires a <= b
    ensures Pow10(a) <= Pow10(b)
  {
    if a < b {
      Pow10Monotone(a, b - 1);
    }
  }

  lemma {:induction false} Pow10Sum(a: nat, b: nat)
    ensures Pow10(a + b) == Pow10(a) * Pow10(b)
  {
    if a > 0 {
      Pow10Sum(a - 1, b);
      assert Pow10(a + b) == 10 * Pow10(a - 1 + b);
      assert 10 * (Pow10(a - 1) * Pow10(b)) == (10 * Pow10(a - 1)) * Pow10(b);
    }
  }

  lemma MulAtLeast(e: int, d: int)
    requires e >= 1 && d > 0
    ensures e * d >= d
  {
  }

  lemma MulMonotone(a: int, b: int, d: int)
    requires a <= b && 0 <= d
    ensures a * d <= b * d
  {
  }

  lemma MulSum(a: int, b: int, d: int)
    ensures (a + b) * d == a * d + b * d
  {
  }

  lemma MulDifference(a: int, b: int, d: int)
    ensures (a - b) * d == a * d - b * d
  {
  }

  lemma MulLessNext(a: int, b: int, d: int)
    requires d > 0 && a * d <= b * d
    ensures a <= b
  {
    MulSum(b, 1, d);
    MulCancelLess(a, b + 1, d);
  }

  /** Comparing multiples of d compares the factors. */
  lemma MulCancelLess(a: int, b: int, d: int)
    requires d > 0 && a * d < b * d
    ensures a < b
  {
    if a >= b {
      MulMonotone(b, a, d);
    }
  }

  lemma DivBounds(n: int, d: int)
    requires d > 0
    ensures (n / d) * d <= n < (n / d) * d + d
  {
  }

  /** The floor quotient is the only q with q*d <= n < q*d + d. */
  lemma DivUnique(n: int, d: int, q: int)
    requires d > 0 && q * d <= n < q * d + d
    ensures n / d == q
  {
    var t := n / d;
    DivBounds(n, d);
    assert (t + 1) * d == t * d + d && (q + 1) * d == q * d + d;
    MulCancelLess(t, q + 1, d);
    MulCancelLess(q, t + 1, d);
  }

  /** A floor quotient is below q exactly when the dividend is below q*d. */
  lemma DivLess(n: int, d: int, q: int)
    requires d > 0
    ensures n / d < q <==> n < q * d
  {
    DivBounds(n, d);
    var t := n / d;
    assert (t + 1) * d == t * d + d;
    if t < q {
      MulMonotone(t + 1, q, d);
    } else {
      MulMonotone(q, t, d);
    }
  }

  lemma CeilDivBounds(n: nat, d: nat)
    requires d > 0
    ensures CeilDiv(n, d) * d - d < n <= CeilDiv(n, d) * d
  {
    DivBounds(n + d - 1, d);
  }

  lemma CeilDivUnique(n: nat, d: nat, q: nat)
    requires d > 0 && (q - 1) * d < n <= q * d
    ensures CeilDiv(n, d) == q
  {
    assert (q - 1) * d == q * d - d;
    DivUnique(n + d - 1, d, q);
  }

  /** Floors of parts fall short of the floor of the whole by at most one. */
  lemma DivSum(a: int, b: int, d: int)
    requires d > 0
    ensures a / d + b / d <= (a + b) / d <= a / d + b / d + 1
  {
    var p, q, r := a / d, b / d, (a + b) / d;
    DivBounds(a, d);
    DivBounds(b, d);
    DivBounds(a + b, d);
    assert (p + q) * d == p * d + q * d;
    assert (r + 1) * d == r * d + d && (p + q + 2) * d == (p + q) * d + 2 * d;
    MulCancelLess(p + q, r + 1, d);
    MulCancelLess(r, p + q + 2, d);
  }

  /** Ceilings of parts exceed the ceiling of the whole by at most one. */
  lemma CeilDivSum(a: nat, b: nat, d: nat)
    requires d > 0
    ensures CeilDiv(a + b, d) <= CeilDiv(a, d) + CeilDiv(b, d) <= CeilDiv(a + b, d) + 1
  {
    CeilDivBounds(a, d);
    CeilDivBounds(b, d);
    CeilDivBounds(a + b, d);
    CeilSumArithmetic(a, b, CeilDiv(a, d), CeilDiv(b, d), CeilDiv(a + b, d), d);
  }

  lemma CeilSumArithmetic(a: nat, b: nat, p: int, q: int, r: int, d: nat)
    requires d > 0
    requires p * d - d < a <= p * d && q * d - d < b <= q * d && r * d - d < a + b <= r * d
    ensures r <= p + q <= r + 1
  {
    assert (p + q) * d == p * d + q * d;
    assert (r - 1) * d == r * d - d;
    assert (p + q - 2) * d == (p + q) * d - 2 * d;
    MulCancelLess(r - 1, p + q, d);
    MulCancelLess(p + q - 2, r, d);
  }

  /**
   Converting x units at rate p/v with a floor, and the result back at v/p with a floor, returns at
   most x and at least x - ceil((v - 1) / p).
   */
  lemma FloorRoundTrip(x: nat, p: nat, v: nat)
    requires p > 0 && v > 0
    ensures var y := x * p / v; var z := y * v / p;
            0 <= x - z <= CeilDiv(v - 1, p)
  {
    var y := x * p / v;
    var z := y * v / p;
    var c := CeilDiv(v - 1, p);
    DivBounds(x * p, v);
    DivBounds(y * v, p);
    CeilDivBounds(v - 1, p);
    assert (x + 1) * p == x * p + p;
    MulCancelLess(z, x + 1, p);
    assert (x - z - 1) * p == x * p - z * p - p;
    MulCancelLess(x - z - 1, c, p);
  }
}
