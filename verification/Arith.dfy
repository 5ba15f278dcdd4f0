/**
 Integer arithmetic that the rest of the project rests on: powers, remainders by a
 variable modulus, and the bitwise operators of the C source on natural numbers.
 */
module Arith {

  // ---------------------------------------------------------------- powers

  function Pow(b: nat, e: nat): (r: nat)
    ensures b > 0 ==> r > 0
  {
    if e == 0 then 1 else b * Pow(b, e - 1)
  }

  lemma {:induction false} PowAdd(b: nat, m: nat, n: nat)
    ensures Pow(b, m + n) == Pow(b, m) * Pow(b, n)
  {
    if m == 0 {
    } else {
      PowAdd(b, m - 1, n);
      MulAssoc(b, Pow(b, m - 1), Pow(b, n));
    }
  }

  lemma PowSquare(a: nat, m: nat)
    ensures Pow(a, m) * Pow(a, m) == Pow(a, 2 * m)
  {
    PowAdd(a, m, m);
  }

  lemma {:induction false} PowMul(b: nat, m: nat, n: nat)
    ensures Pow(Pow(b, m), n) == Pow(b, m * n)
  {
    if n == 0 {
    } else {
      PowMul(b, m, n - 1);
      assert m * n == m + m * (n - 1);
      PowAdd(b, m, m * (n - 1));
    }
  }

  lemma {:induction false} PowMonotone(b: nat, m: nat, n: nat)
    requires b >= 1 && m <= n
    ensures Pow(b, m) <= Pow(b, n)
  {
    if m == n {
    } else {
      PowMonotone(b, m, n - 1);
      MulGe(b, Pow(b, n - 1));
    }
  }

  lemma PowPositive(b: nat, e: nat)
    requires b >= 1
    ensures Pow(b, e) >= 1
  {
  }

  lemma PowZero()
    ensures Pow(2, 0) == 1
  {
  }

  lemma PowStep(b: nat, e: nat)
    ensures Pow(b, e + 1) == b * Pow(b, e)
  {
  }

  lemma Pow2Step(e: nat)
    ensures Pow(2, e + 1) == 2 * Pow(2, e)
  {
  }

  // ---------------------------------------------------------- products

  lemma MulAssoc(a: int, b: int, c: int)
    ensures a * (b * c) == (a * b) * c
  {
  }

  lemma MulGe(a: int, b: int)
    requires a >= 1 && b >= 0
    ensures a * b >= b
  {
  }

  lemma MulMono(a: int, b: int, c: int)
    requires a <= b && 0 <= c
    ensures a * c <= b * c
  {
  }

  lemma MulPos(a: int, b: int)
    requires a >= 0 && b >= 0
    ensures a * b >= 0
  {
  }

  lemma MulStrict(a: int, b: int, c: int)
    requires a < b && 0 < c
    ensures a * c < b * c
  {
  }

  // --------------------------------------------------------- remainders

  /** A quotient and a remainder in range are the only ones. */
  lemma DivModUnique(a: int, m: int, q: int, r: int)
    requires 0 < m && a == q * m + r && 0 <= r < m
    ensures a / m == q && a % m == r
  {
    var d := a / m - q;
    assert d * m == (a / m) * m - q * m;
    assert d * m == r - a % m;
    assert d >= 1 ==> d * m >= m;
    assert d <= -1 ==> d * m <= -m;
  }

  lemma ModAddMultiple(a: int, k: int, m: int)
    requires 0 < m
    ensures (a + k * m) % m == a % m
  {
    var q := a / m;
    assert a == q * m + a % m;
    assert (q + k) * m == q * m + k * m;
    DivModUnique(a + k * m, m, q + k, a % m);
  }

  lemma ModSmall(a: int, m: int)
    requires 0 <= a < m
    ensures a % m == a && a / m == 0
  {
    DivModUnique(a, m, 0, a);
  }

  lemma ModIdem(a: int, m: int)
    requires 0 < m
    ensures (a % m) % m == a % m
  {
    ModSmall(a % m, m);
  }

  /** Two integers have the same remainder iff their difference has remainder zero. */
  lemma ModDiff(a: int, b: int, m: int)
    requires 0 < m
    ensures a % m == b % m <==> (a - b) % m == 0
  {
    var q := (a - b) / m;
    if (a - b) % m == 0 {
      assert a == b + q * m;
      ModAddMultiple(b, q, m);
    }
    if a % m == b % m {
      var k := a / m - b / m;
      assert k * m == (a / m) * m - (b / m) * m;
      assert a - b == k * m;
      ModAddMultiple(0, k, m);
      ModSmall(0, m);
    }
  }

  /** Adding or subtracting reduced operands. */
  lemma ModAdd(a: int, b: int, m: int)
    requires 0 < m
    ensures (a % m + b % m) % m == (a + b) % m
    ensures (a % m - b % m) % m == (a - b) % m
  {
    ModAddParts(a, b, m, a / m, b / m, a % m, b % m);
  }

  lemma ModAddParts(a: int, b: int, m: int, qa: int, qb: int, ra: int, rb: int)
    requires 0 < m && a == qa * m + ra && b == qb * m + rb
    ensures (ra + rb) % m == (a + b) % m
    ensures (ra - rb) % m == (a - b) % m
  {
    hide *;
    Distribute2(qa, qb, m);
    ModAddMultiple(ra + rb, qa + qb, m);
    ModAddMultiple(ra - rb, qa - qb, m);
  }

  lemma Distribute2(x: int, y: int, m: int)
    ensures (x + y) * m == x * m + y * m && (x - y) * m == x * m - y * m
  {
  }

  /** Multiplying reduced operands. */
  lemma ModMul(a: int, b: int, m: int)
    requires 0 < m
    ensures ((a % m) * (b % m)) % m == (a * b) % m
  {
    var qa, qb, ra, rb := a / m, b / m, a % m, b % m;
    assert a == qa * m + ra && b == qb * m + rb;
    var k := qa * b + ra * qb;
    assert k * m == (qa * m) * b + ra * (qb * m);
    assert a * b == ra * rb + k * m;
    ModAddMultiple(ra * rb, k, m);
  }

  lemma ModMulCong(a: int, b: int, c: int, d: int, m: int)
    requires 0 < m && a % m == b % m && c % m == d % m
    ensures (a * c) % m == (b * d) % m
  {
    ModMul(a, c, m);
    ModMul(b, d, m);
  }

  lemma ModAddCong(a: int, b: int, c: int, d: int, m: int)
    requires 0 < m && a % m == b % m && c % m == d % m
    ensures (a + c) % m == (b + d) % m && (a - c) % m == (b - d) % m
  {
    ModAdd(a, c, m);
    ModAdd(b, d, m);
  }

  lemma ModMulZero(a: int, b: int, m: int)
    requires 0 < m && a % m == 0
    ensures (a * b) % m == 0 && (b * a) % m == 0
  {
    var q := a / m;
    assert a == q * m;
    assert a * b == 0 + (q * b) * m;
    ModAddMultiple(0, q * b, m);
    ModSmall(0, m);
  }

  lemma ModMultiple(k: int, m: int)
    requires 0 < m
    ensures (k * m) % m == 0
  {
    ModAddMultiple(0, k, m);
    ModSmall(0, m);
  }

  /** Dividing twice is dividing by the product. */
  lemma DivDiv(a: int, m: int, n: int)
    requires 0 < m && 0 < n
    ensures 0 < m * n && (a / m) / n == a / (m * n)
  {
    var q := (a / m) / n;
    var r := (a / m) % n;
    var s := a % m;
    assert a == (q * n + r) * m + s;
    assert (q * n + r) * m == q * (m * n) + r * m;
    assert 0 <= r * m by { MulPos(r, m); }
    assert r * m <= (n - 1) * m by { MulMono(r, n - 1, m); }
    assert (n - 1) * m == m * n - m;
    MulGe(m, n);
    DivModUnique(a, m * n, q, r * m + s);
  }

  /** The low bit and the shifted rest of a sum whose second part is a multiple. */
  lemma DivAddMultiple(a: int, k: int, m: int)
    requires 0 < m
    ensures (a + k * m) / m == a / m + k
  {
    assert (a / m + k) * m == (a / m) * m + k * m;
    DivModUnique(a + k * m, m, a / m + k, a % m);
  }

  // --------------------------------------------------------- bit operators

  /** x | y */
  function BitOr(x: nat, y: nat): (r: nat)
  {
    if x == 0 then y
    else if y == 0 then x
    else 2 * BitOr(x / 2, y / 2) + (if x % 2 == 1 || y % 2 == 1 then 1 else 0)
  }

  /** x ^ y */
  function BitXor(x: nat, y: nat): (r: nat)
    decreases x + y
  {
    if x == 0 && y == 0 then 0
    else 2 * BitXor(x / 2, y / 2) + (if x % 2 != y % 2 then 1 else 0)
  }

  lemma {:induction false} BitOrZero(x: nat, y: nat)
    ensures BitOr(x, y) == 0 <==> x == 0 && y == 0
  {
    if x != 0 && y != 0 {
      BitOrZero(x / 2, y / 2);
    }
  }

  lemma {:induction false} BitXorZero(x: nat, y: nat)
    ensures BitXor(x, y) == 0 <==> x == y
    decreases x + y
  {
    if x != 0 || y != 0 {
      BitXorZero(x / 2, y / 2);
    }
  }

  /** Or-ing a word whose low k bits are clear with a word below 2^k adds them. */
  lemma {:induction false} BitOrDisjoint(x: nat, y: nat, k: nat)
    requires x % Pow(2, k) == 0 && y < Pow(2, k)
    ensures BitOr(x, y) == x + y && BitOr(y, x) == x + y
  {
    if x == 0 || y == 0 {
    } else {
      var h := Pow(2, k - 1);
      assert Pow(2, k) == 2 * h;
      var q := x / Pow(2, k);
      assert x == q * (2 * h);
      assert x == 2 * (q * h);
      assert x / 2 == q * h && x % 2 == 0;
      ModMultiple(q, h);
      BitOrDisjoint(x / 2, y / 2, k - 1);
    }
  }

  /** Bit k of v. */
  function Bit(v: nat, k: nat): (r: nat)
    ensures r == 0 || r == 1
  {
    (v / Pow(2, k)) % 2
  }

  /** The prefix of v above bit k is the prefix above bit k+1, doubled, plus bit k. */
  lemma PrefixStep(v: nat, k: nat)
    ensures v / Pow(2, k) == 2 * (v / Pow(2, k + 1)) + Bit(v, k)
  {
    DivDiv(v, Pow(2, k), 2);
    assert Pow(2, k + 1) == Pow(2, k) * 2;
  }
}
