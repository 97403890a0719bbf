// Page, alignment and power-of-two arithmetic of the kernel, on unbounded naturals with the 64-bit
// wrap-around written out where a macro can wrap.
module Arith {

  const PAGE: nat := 4096
  const SZ_2M: nat := 0x20_0000
  const U32: nat := 0x1_0000_0000
  const U64: nat := 0x1_0000_0000_0000_0000

  function Min(a: int, b: int): int { if a < b then a else b }

  predicate IsPow2(n: nat)
    decreases n
  {
    n == 1 || (n > 1 && n % 2 == 0 && IsPow2(n / 2))
  }

  // Bitwise AND of two naturals.
  function And(x: nat, y: nat): nat
    decreases x
  {
    if x == 0 || y == 0 then 0
    else 2 * And(x / 2, y / 2) + (if x % 2 == 1 && y % 2 == 1 then 1 else 0)
  }

  // IS_ALIGNED(x, a): the kernel tests a mask, which is divisibility only for a power of two.
  predicate IsAligned(x: nat, a: nat)
    requires a > 0
  {
    And(x, a - 1) == 0
  }

  // ALIGN(x, a) in u64 for a power of two a: the addition may wrap.
  function AlignUp64(x: nat, a: nat): nat
    requires a > 0
  {
    var t := (x + a - 1) % U64;
    t - t % a
  }

  function AlignDown(x: nat, a: nat): nat
    requires a > 0
  {
    x - x % a
  }

  // roundup_pow_of_two(n); the kernel leaves 0 undefined, here it yields 1.
  function RoundupPow2(n: nat): (r: nat)
    ensures IsPow2(r) && n <= r
    ensures n > 0 ==> r < 2 * n
    decreases n
  {
    if n <= 1 then 1 else 2 * RoundupPow2((n + 1) / 2)
  }

  function RounddownPow2(n: nat): (r: nat)
    requires n > 0
    ensures IsPow2(r) && r <= n < 2 * r
    decreases n
  {
    if n == 1 then 1 else 2 * RounddownPow2(n / 2)
  }

  function FloorDiv(x: nat, d: nat): nat
    requires d > 0
  {
    x / d
  }

  function CeilDiv(x: nat, d: nat): nat
    requires d > 0
  {
    (x + d - 1) / d
  }

  lemma {:induction false} MaskIsRemainder(x: nat, p: nat)
    requires IsPow2(p)
    ensures And(x, p - 1) == x % p
    decreases x
  {
    if x == 0 || p == 1 {
      assert And(x, p - 1) == 0;
    } else {
      MaskIsRemainder(x / 2, p / 2);
      AndOdd(x, p - 1, p / 2 - 1);
      TwiceRemainder(And(x, p - 1), And(x / 2, p / 2 - 1), x, p);
    }
  }

  lemma TwiceRemainder(a: nat, b: nat, x: nat, p: nat)
    requires p > 1 && p % 2 == 0 && a == 2 * b + x % 2 && b == (x / 2) % (p / 2)
    ensures a == x % p
  {
    HalveRemainder(x, p / 2);
  }

  lemma AndOdd(x: nat, y: nat, half: nat)
    requires y == 2 * half + 1
    ensures And(x, y) == 2 * And(x / 2, half) + x % 2
  {
    assert y / 2 == half && y % 2 == 1;
  }

  lemma HalveRemainder(x: nat, h: nat)
    requires h > 0
    ensures x % (2 * h) == 2 * ((x / 2) % h) + x % 2
  {
    var y := x / 2;
    var q := y / h;
    assert y == q * h + y % h;
    assert 2 * (q * h) == q * (2 * h);
    DivModUnique(x, 2 * h, q, 2 * (y % h) + x % 2);
  }

  // For a power of two the mask test is divisibility.
  lemma AlignedIsDivides(x: nat, p: nat)
    requires IsPow2(p)
    ensures IsAligned(x, p) <==> x % p == 0
  {
    MaskIsRemainder(x, p);
  }

  lemma AtLeastOnce(k: int, d: nat)
    ensures k >= 1 ==> k * d >= d
    ensures k <= -1 ==> k * d + d <= 0
  {
    if k >= 1 {
      assert (k - 1) * d >= 0;
      assert k * d == (k - 1) * d + d;
    }
    if k <= -1 {
      assert (-k - 1) * d >= 0;
      assert k * d == -((-k - 1) * d) - d;
    }
  }

  lemma SplitUnique(d: nat, q: int, r: int, q': int, r': int)
    requires 0 <= r < d && 0 <= r' < d && q * d + r == q' * d + r'
    ensures q == q' && r == r'
  {
    AtLeastOnce(q - q', d);
    assert (q - q') * d == q * d - q' * d;
  }

  lemma DivModUnique(x: int, d: nat, q: int, r: int)
    requires 0 <= r < d && x == q * d + r
    ensures x / d == q && x % d == r
  {
    assert x == (x / d) * d + x % d;
    SplitUnique(d, q, r, x / d, x % d);
  }

  lemma {:induction false} Pow2Divides(a: nat, b: nat)
    requires IsPow2(a) && IsPow2(b) && a <= b
    ensures b % a == 0
    decreases b
  {
    if a > 1 {
      Pow2Divides(a / 2, b / 2);
      HalveRemainder(b, a / 2);
    }
  }

  lemma DividesTrans(x: nat, b: nat, a: nat)
    requires a > 0 && b > 0 && x % b == 0 && b % a == 0
    ensures x % a == 0
  {
    var q, s := x / b, b / a;
    assert x == q * b && b == s * a;
    assert x == (q * s) * a by { assert q * (s * a) == (q * s) * a; }
    DivModUnique(x, a, q * s, 0);
  }

  lemma DividesSum(x: int, y: int, a: nat)
    requires a > 0 && x % a == 0 && y % a == 0
    ensures (x + y) % a == 0 && (x - y) % a == 0
  {
    var q, s := x / a, y / a;
    assert x == q * a && y == s * a;
    assert x + y == (q + s) * a && x - y == (q - s) * a;
    DivModUnique(x + y, a, q + s, 0);
    DivModUnique(x - y, a, q - s, 0);
  }

  lemma DividesMul(k: int, a: nat)
    requires a > 0
    ensures (k * a) % a == 0 && (k * a) / a == k
  {
    DivModUnique(k * a, a, k, 0);
  }

  lemma MulMono(a: nat, b: nat, c: nat)
    requires a <= b
    ensures a * c <= b * c
  {}

  lemma DivFloor(x: nat, m: nat)
    requires m > 0
    ensures FloorDiv(x, m) * m <= x < FloorDiv(x, m) * m + m
  {
    assert x == (x / m) * m + x % m;
  }

  lemma DivMono(a: nat, b: nat, m: nat)
    requires m > 0 && a <= b
    ensures FloorDiv(a, m) <= FloorDiv(b, m)
  {
    var p, q := FloorDiv(a, m), FloorDiv(b, m);
    DivFloor(a, m);
    DivFloor(b, m);
    MulStrict(p, q, m);
  }

  // Products in the same order within one factor force the factors' order.
  lemma MulStrict(p: nat, q: nat, m: nat)
    ensures p > q ==> p * m >= q * m + m
  {
    if p > q {
      MulMono(q + 1, p, m);
      assert (q + 1) * m == q * m + m;
    }
  }

  lemma CeilAbove(x: nat, m: nat)
    requires m > 0
    ensures x <= CeilDiv(x, m) * m < x + m
  {
    DivFloor(x + m - 1, m);
  }

  lemma ExactDiv(x: nat, m: nat)
    requires m > 0 && x % m == 0
    ensures x == FloorDiv(x, m) * m
  {}

  lemma NoWrap(x: nat)
    requires x < U64
    ensures x % U64 == x
  {}
}
