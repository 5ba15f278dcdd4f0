/**
 ecdsa_vli_modInv: the binary inversion loop over a, b, u, v. The carries of u + mod and
 v + mod are dropped by the C code; the invariants show that nothing is lost.
 */
module ModInv {
  import opened Arith
  import opened Words
  import opened Modular

  // ----------------------------------------------------- common divisors

  predicate CommonDivisor(d: nat, x: nat, y: nat)
  {
    d > 0 && x % d == 0 && y % d == 0
  }

  ghost predicate IsGcd(g: nat, x: nat, y: nat)
  {
    CommonDivisor(g, x, y) && forall d :: CommonDivisor(d, x, y) ==> g % d == 0
  }

  ghost predicate SameDivisors(a: nat, b: nat, x: nat, y: nat)
  {
    forall d :: CommonDivisor(d, a, b) <==> CommonDivisor(d, x, y)
  }

  lemma OddDivisorOfDouble(d: nat, a: nat)
    requires d % 2 == 1
    ensures (2 * a) % d == 0 <==> a % d == 0
  {
    if a % d == 0 {
      ModMulZero(a, 2, d);
    }
    if (2 * a) % d == 0 {
      var k := (2 * a) / d;
      assert 2 * a == k * d;
      OddTimes(k, d);
      assert a == (k / 2) * d by { assert k == 2 * (k / 2); assert 2 * ((k / 2) * d) == k * d; }
      ModMultiple(k / 2, d);
    }
  }

  lemma OddTimes(k: int, d: int)
    requires d % 2 == 1 && (k * d) % 2 == 0
    ensures k % 2 == 0
  {
    var q := d / 2;
    assert d == 2 * q + 1;
    assert k * d == 2 * (k * q) + k;
  }

  lemma DivisorOfOdd(d: nat, b: nat)
    requires d > 0 && b % d == 0 && b % 2 == 1
    ensures d % 2 == 1
  {
    var q, e := b / d, d / 2;
    assert b == q * d;
    assert d == 2 * e ==> q * d == 2 * (q * e);
  }

  lemma HalvingKeepsDivisors(a: nat, b: nat)
    requires a % 2 == 0 && b % 2 == 1
    ensures SameDivisors(a / 2, b, a, b) && SameDivisors(b, a / 2, b, a)
  {
    forall d
      ensures CommonDivisor(d, a / 2, b) <==> CommonDivisor(d, a, b)
      ensures CommonDivisor(d, b, a / 2) <==> CommonDivisor(d, b, a)
    {
      if d > 0 && b % d == 0 {
        DivisorOfOdd(d, b);
        OddDivisorOfDouble(d, a / 2);
      }
    }
  }

  lemma SubtractingKeepsDivisors(a: nat, b: nat)
    requires a >= b
    ensures SameDivisors(a - b, b, a, b) && SameDivisors(b, a - b, b, a)
  {
    forall d: nat
      ensures CommonDivisor(d, a - b, b) <==> CommonDivisor(d, a, b)
      ensures CommonDivisor(d, b, a - b) <==> CommonDivisor(d, b, a)
    {
      if d > 0 && b % d == 0 {
        ModAdd(a, b, d);
        ModAdd(a - b, b, d);
        ModSmall(0, d);
        ModIdem(a, d);
        ModIdem(a - b, d);
      }
    }
  }

  lemma EqualPairIsGcd(a: nat, x: nat, y: nat)
    requires a > 0 && SameDivisors(a, a, x, y)
    ensures IsGcd(a, x, y)
  {
    ModMultiple(1, a);
    assert CommonDivisor(a, a, a);
    forall d | CommonDivisor(d, x, y)
      ensures a % d == 0
    {
      assert CommonDivisor(d, a, a);
    }
  }

  // -------------------------------------------------------- halving mod m

  /** What vli_modInv_update computes. */
  function HalfMod(x: nat, m: nat): (r: nat)
  {
    if x % 2 == 0 then x / 2 else (x + m) / 2
  }

  lemma HalfModBelow(x: nat, m: nat)
    requires x < m && m % 2 == 1
    ensures HalfMod(x, m) < m
  {
  }

  /** Halving mod an odd m is exact: doubling gives the operand back. */
  lemma HalfModExact(x: nat, m: nat)
    requires m % 2 == 1
    ensures (2 * HalfMod(x, m)) % m == x % m
  {
    if x % 2 == 1 {
      assert 2 * HalfMod(x, m) == x + 1 * m;
      ModAddMultiple(x, 1, m);
    }
  }

  lemma CancelTwo(y: int, z: int, m: int)
    requires m > 0 && m % 2 == 1 && (2 * y) % m == (2 * z) % m
    ensures y % m == z % m
  {
    ModDiff(2 * y, 2 * z, m);
    var k := (2 * y - 2 * z) / m;
    assert 2 * (y - z) == k * m;
    OddTimes(k, m);
    var h := k / 2;
    assert k == 2 * h;
    assert y - z == h * m by { assert 2 * (h * m) == k * m; }
    ModAddMultiple(z, h, m);
  }

  /** u * x == a and a even give HalfMod(u) * x == a/2 (mod m). */
  lemma HalfKeepsCoefficient(u: nat, a: nat, x: nat, m: nat)
    requires m % 2 == 1 && a % 2 == 0 && (u * x) % m == a % m
    ensures (HalfMod(u, m) * x) % m == (a / 2) % m
  {
    HalfModExact(u, m);
    var h := HalfMod(u, m);
    hide HalfMod;
    ModMulCong(2 * h, u, x, x, m);
    assert (2 * h) * x == 2 * (h * x);
    CancelTwo(h * x, a / 2, m);
  }

  lemma DifferenceKeepsCoefficient(u: nat, v: nat, a: nat, b: nat, x: nat, m: nat, d: nat)
    requires m > 0 && (u * x) % m == a % m && (v * x) % m == b % m
    requires d == if u < v then u + m - v else u - v
    ensures (d * x) % m == (a - b) % m
  {
    ModAddCong(u * x, a, v * x, b, m);
    assert (u - v) * x == u * x - v * x;
    if u < v {
      assert d * x == (u - v) * x + x * m;
      ModAddMultiple((u - v) * x, x, m);
    }
  }

  lemma TopBitAdds(v: nat, s: nat, p: nat, half: nat)
    requires s >= p && p == 2 * half && v == (s - p) / 2
    ensures v + half == s / 2
  {
  }

  /** vli_modInv_update */
  method VliModInvUpdate(uv: array<nat>, mod: array<nat>, w: nat)
    requires w >= 1 && mod.Length >= 1 && uv.Length == mod.Length && uv != mod
    requires IsWords(uv[..], w) && IsWords(mod[..], w) && Val(mod[..], w) % 2 == 1
    requires Val(uv[..], w) < Val(mod[..], w)
    modifies uv
    ensures IsWords(uv[..], w)
    ensures Val(uv[..], w) == HalfMod(old(Val(uv[..], w)), Val(mod[..], w)) < Val(mod[..], w)
  {
    hide *;
    ghost var x, m, n := Val(uv[..], w), Val(mod[..], w), uv.Length;
    HalfModBelow(x, m);
    HalfModCases(x, m);
    EvenPower(n, w);
    LowBit(uv[..], w);
    var carry := 0;
    if uv[0] % 2 == 1 {
      carry := VliAdd(uv, uv, mod, w);
    }
    ghost var total, p := x + (if x % 2 == 1 then m else 0), Pow(Base(w), n);
    assert carry * p == if carry == 0 then 0 else p;
    ValBound(uv[..], w);
    HalfBelow(Val(uv[..], w), p);
    assert uv[0..n] == uv[..];
    VliRshift1(uv, 0, uv.Length, w);
    assert uv[0..n] == uv[..];
    if carry == 1 {
      ghost var t := uv[..];
      TopWordLow(t, w);
      OrHighBit(uv[uv.Length - 1], w);
      TopBitValue(t, 1, w);
      uv[uv.Length - 1] := BitOr(uv[uv.Length - 1], HighBit(w));
      WordsUpdate(t, n - 1, uv[n - 1], w);
      assert uv[..] == t[n - 1 := uv[n - 1]];
      TopBitAdds(Val(t, w), total, p, HighBit(w) * Pow(Base(w), n - 1));
    }
  }

  lemma HalfModCases(x: nat, m: nat)
    ensures x % 2 == 0 ==> HalfMod(x, m) == x / 2
    ensures x % 2 == 1 ==> HalfMod(x, m) == (x + m) / 2
  {
  }

  lemma OrHighBit(x: nat, w: nat)
    requires w >= 1 && x < HighBit(w)
    ensures BitOr(x, HighBit(w)) == x + HighBit(w) < Base(w)
  {
    ModMultiple(1, HighBit(w));
    hide BitOr;
    BitOrDisjoint(HighBit(w), x, w - 1);
  }

  // ------------------------------------------------------ ecdsa_vli_modInv

  /** The loop invariant on the values of a, b, u, v for input x and modulus m. */
  ghost predicate InvInvariant(a: nat, b: nat, u: nat, v: nat, x: nat, m: nat)
  {
    m > 1 && a > 0 && b > 0 && u < m && v < m
    && (a % 2 == 1 || b % 2 == 1)
    && (u * x) % m == a % m && (v * x) % m == b % m
    && SameDivisors(a, b, x, m)
  }

  lemma InvStart(x: nat, m: nat)
    requires x > 0 && m > 1 && m % 2 == 1
    ensures InvInvariant(x, m, 1, 0, x, m)
  {
    ModMultiple(1, m);
    ModSmall(0, m);
  }

  lemma InvHalveA(a: nat, b: nat, u: nat, v: nat, x: nat, m: nat)
    requires InvInvariant(a, b, u, v, x, m) && m % 2 == 1 && a % 2 == 0
    ensures InvInvariant(a / 2, b, HalfMod(u, m), v, x, m)
  {
    HalvingKeepsDivisors(a, b);
    HalfKeepsCoefficient(u, a, x, m);
    HalfModBelow(u, m);
    hide HalfMod, CommonDivisor;
    SameDivisorsTrans(a / 2, b, a, b, x, m);
  }

  lemma SameDivisorsTrans(a: nat, b: nat, c: nat, d: nat, x: nat, y: nat)
    requires SameDivisors(a, b, c, d) && SameDivisors(c, d, x, y)
    ensures SameDivisors(a, b, x, y)
  {
    hide CommonDivisor;
  }

  lemma SameDivisorsSwap(a: nat, b: nat, x: nat, y: nat)
    requires SameDivisors(a, b, x, y)
    ensures SameDivisors(b, a, x, y)
  {
    forall d
      ensures CommonDivisor(d, b, a) <==> CommonDivisor(d, x, y)
    {
      assert CommonDivisor(d, b, a) <==> CommonDivisor(d, a, b);
    }
  }

  lemma InvSwap(a: nat, b: nat, u: nat, v: nat, x: nat, m: nat)
    requires InvInvariant(a, b, u, v, x, m)
    ensures InvInvariant(b, a, v, u, x, m)
  {
    SameDivisorsSwap(a, b, x, m);
  }

  lemma InvSubtract(a: nat, b: nat, u: nat, v: nat, x: nat, m: nat, d: nat)
    requires InvInvariant(a, b, u, v, x, m) && m % 2 == 1 && a % 2 == 1 && b % 2 == 1 && a > b
    requires d == if u < v then u + m - v else u - v
    ensures (a - b) % 2 == 0 && InvInvariant((a - b) / 2, b, HalfMod(d, m), v, x, m) && d < m
  {
    var e, h: nat := a - b, (a - b) / 2;
    hide *;
    InvIs(a, b, u, v, x, m);
    EvenDifference(a, b);
    SubtractingKeepsDivisors(a, b);
    HalvingKeepsDivisors(e, b);
    DifferenceKeepsCoefficient(u, v, a, b, x, m, d);
    HalfKeepsCoefficient(d, e, x, m);
    HalfModBelow(d, m);
    SameDivisorsTrans(h, b, e, b, a, b);
    SameDivisorsTrans(h, b, a, b, x, m);
    InvIs(h, b, HalfMod(d, m), v, x, m);
  }

  lemma EvenDifference(a: nat, b: nat)
    requires a % 2 == 1 && b % 2 == 1 && a > b
    ensures (a - b) % 2 == 0 && (a - b) / 2 > 0
  {
  }

  lemma InvIs(a: nat, b: nat, u: nat, v: nat, x: nat, m: nat)
    ensures InvInvariant(a, b, u, v, x, m)
       <==> m > 1 && a > 0 && b > 0 && u < m && v < m && (a % 2 == 1 || b % 2 == 1)
            && (u * x) % m == a % m && (v * x) % m == b % m && SameDivisors(a, b, x, m)
  {
    hide SameDivisors;
  }

  lemma InvDone(a: nat, u: nat, v: nat, x: nat, m: nat)
    requires InvInvariant(a, a, u, v, x, m)
    ensures IsGcd(a, x, m) && (u * x) % m == a % m && u < m
  {
    EqualPairIsGcd(a, x, m);
  }

  lemma InvFacts(a: nat, b: nat, u: nat, v: nat, x: nat, m: nat)
    requires InvInvariant(a, b, u, v, x, m)
    ensures a > 0 && b > 0 && u < m && v < m && m > 1 && (a % 2 == 1 || b % 2 == 1)
  {
  }

  /** The branch for two odd numbers with a > b: both a and its coefficient u are reduced and halved. */
  method SubtractAndHalve(a: array<nat>, b: array<nat>, u: array<nat>, v: array<nat>, mod: array<nat>, w: nat,
                          ghost x: nat)
    requires w >= 1 && mod.Length >= 1
    requires a.Length == b.Length == u.Length == v.Length == mod.Length
    requires a != b && a != u && a != v && a != mod && u != b && u != v && u != mod
    requires IsWords(a[..], w) && IsWords(b[..], w) && IsWords(u[..], w) && IsWords(v[..], w) && IsWords(mod[..], w)
    requires Val(mod[..], w) % 2 == 1 && Val(a[..], w) % 2 == 1 && Val(b[..], w) % 2 == 1
    requires Val(a[..], w) > Val(b[..], w)
    requires InvInvariant(Val(a[..], w), Val(b[..], w), Val(u[..], w), Val(v[..], w), x, Val(mod[..], w))
    modifies a, u
    ensures IsWords(a[..], w) && IsWords(u[..], w)
    ensures InvInvariant(Val(a[..], w), Val(b[..], w), Val(u[..], w), Val(v[..], w), x, Val(mod[..], w))
    ensures Val(a[..], w) < old(Val(a[..], w))
  {
    hide *;
    ghost var n, m := mod.Length, Val(mod[..], w);
    ghost var va, vb, vu, vv := Val(a[..], w), Val(b[..], w), Val(u[..], w), Val(v[..], w);
    InvFacts(va, vb, vu, vv, x, m);
    ghost var d := if vu < vv then vu + m - vv else vu - vv;
    InvSubtract(va, vb, vu, vv, x, m, d);
    InvFacts((va - vb) / 2, vb, HalfMod(d, m), vv, x, m);
    ExactDifference(a, a, b, w);
    assert a[0..n] == a[..];
    VliRshift1(a, 0, a.Length, w);
    assert a[0..n] == a[..];
    CoefficientDifference(u, v, mod, w);
    VliModInvUpdate(u, mod, w);
  }

  /** A subtraction known not to borrow. */
  method ExactDifference(result: array<nat>, left: array<nat>, right: array<nat>, w: nat)
    requires w >= 1 && result.Length == left.Length == right.Length
    requires IsWords(left[..], w) && IsWords(right[..], w) && Val(left[..], w) >= Val(right[..], w)
    modifies result
    ensures IsWords(result[..], w) && Val(result[..], w) == old(Val(left[..], w)) - old(Val(right[..], w))
  {
    hide *;
    ghost var p := Pow(Base(w), result.Length);
    ValBound(left[..], w);
    ghost var d := Val(left[..], w) - Val(right[..], w);
    var borrow := VliSub(result, left, right, w);
    ValBound(result[..], w);
    WrapIsZero(Val(result[..], w), d, borrow, p);
  }

  /** The subtraction of coefficients modulo mod; the carry and the borrow that are dropped cancel. */
  method CoefficientDifference(u: array<nat>, v: array<nat>, mod: array<nat>, w: nat)
    requires w >= 1 && u.Length == v.Length == mod.Length && u != v && u != mod
    requires IsWords(u[..], w) && IsWords(v[..], w) && IsWords(mod[..], w)
    requires Val(u[..], w) < Val(mod[..], w) && Val(v[..], w) < Val(mod[..], w)
    modifies u
    ensures IsWords(u[..], w)
    ensures Val(u[..], w)
         == if old(Val(u[..], w)) < Val(v[..], w) then old(Val(u[..], w)) + Val(mod[..], w) - Val(v[..], w)
                             else old(Val(u[..], w)) - Val(v[..], w)
  {
    hide *;
    ghost var x, y, m, p := Val(u[..], w), Val(v[..], w), Val(mod[..], w), Pow(Base(w), mod.Length);
    ValBound(mod[..], w);
    var carry := 0;
    var cmp := VliCmp(u, v, w);
    if cmp < 0 {
      carry := VliAdd(u, u, mod, w);
    }
    ghost var t := Val(u[..], w);
    var borrow := VliSub(u, u, v, w);
    ValBound(u[..], w);
    ghost var d := if x < y then x + m - y else x - y;
    DroppedCarries(Val(u[..], w), d, carry, borrow, p);
  }

  lemma DroppedCarries(v: nat, d: nat, carry: nat, borrow: nat, p: nat)
    requires v - borrow * p + carry * p == d && v < p && d < p
    ensures v == d
  {
    var k := borrow - carry;
    assert k * p == borrow * p - carry * p;
    WrapIsZero(v, d, k, p);
  }

  /**
   ecdsa_vli_modInv. For every odd modulus > 1 and non-zero input, result * input == gcd(input, mod);
   a zero input gives zero.
   */
  method VliModInv(result: array<nat>, input: array<nat>, mod: array<nat>, w: nat) returns (ghost g: nat)
    requires w >= 1 && mod.Length >= 1 && result.Length == input.Length == mod.Length && result != mod
    requires IsWords(input[..], w) && IsWords(mod[..], w)
    requires Val(mod[..], w) % 2 == 1 && Val(mod[..], w) > 1
    modifies result
    ensures IsWords(result[..], w) && Val(result[..], w) < Val(mod[..], w)
    ensures old(Val(input[..], w)) == 0 ==> Val(result[..], w) == 0
    ensures old(Val(input[..], w)) != 0 ==> IsGcd(g, old(Val(input[..], w)), Val(mod[..], w))
    ensures old(Val(input[..], w)) != 0 ==>
              (Val(result[..], w) * old(Val(input[..], w))) % Val(mod[..], w) == g % Val(mod[..], w)
  {
    hide *;
    var n := mod.Length;
    ghost var x, m := Val(input[..], w), Val(mod[..], w);
    var zero := VliIsZero(input, w);
    if zero {
      VliClear(result, 0, n);
      ZeroWords(result[..], w);
      ValZeros(result[..], w);
      return 0;
    }
    var a, b, u, v := InitialState(input, mod, w);
    InvStart(x, m);
    var cmp := VliCmp(a, b, w);
    while cmp != 0
      invariant mod[..] == old(mod[..]) && m == Val(mod[..], w)
      invariant a.Length == b.Length == u.Length == v.Length == n
      invariant fresh(a) && fresh(b) && fresh(u) && fresh(v)
      invariant a != b && a != u && a != v && b != u && b != v && u != v
      invariant IsWords(a[..], w) && IsWords(b[..], w) && IsWords(u[..], w) && IsWords(v[..], w)
      invariant InvInvariant(Val(a[..], w), Val(b[..], w), Val(u[..], w), Val(v[..], w), x, m)
      invariant -1 <= cmp <= 1
      invariant cmp == 1 <==> Val(a[..], w) > Val(b[..], w)
      invariant cmp == -1 <==> Val(a[..], w) < Val(b[..], w)
      decreases Val(a[..], w) + Val(b[..], w)
    {
      InvStep(a, b, u, v, mod, cmp, w, x);
      cmp := VliCmp(a, b, w);
    }
    InvDone(Val(a[..], w), Val(u[..], w), Val(v[..], w), x, m);
    g := Val(a[..], w);
    VliSet(result, 0, u, n);
    assert result[0..n] == result[..] && u[..n] == u[..];
  }

  /** a = input, b = mod, u = 1, v = 0. */
  method InitialState(input: array<nat>, mod: array<nat>, w: nat)
    returns (a: array<nat>, b: array<nat>, u: array<nat>, v: array<nat>)
    requires w >= 1 && mod.Length >= 1 && input.Length == mod.Length
    requires IsWords(input[..], w) && IsWords(mod[..], w)
    ensures fresh(a) && fresh(b) && fresh(u) && fresh(v)
    ensures a != b && a != u && a != v && b != u && b != v && u != v
    ensures a.Length == b.Length == u.Length == v.Length == mod.Length
    ensures IsWords(a[..], w) && IsWords(b[..], w) && IsWords(u[..], w) && IsWords(v[..], w)
    ensures Val(a[..], w) == Val(input[..], w) && Val(b[..], w) == Val(mod[..], w)
    ensures Val(u[..], w) == 1 && Val(v[..], w) == 0
  {
    hide *;
    var n := mod.Length;
    a, b, u, v := new nat[n], new nat[n], new nat[n], new nat[n];
    VliSet(a, 0, input, n);
    VliSet(b, 0, mod, n);
    assert a[..] == a[0..n] == input[..n] == input[..] && b[..] == b[0..n] == mod[..n] == mod[..];
    VliClear(u, 0, n);
    u[0] := 1;
    BaseAtLeast2(w);
    SmallValue(u[..], 1, w);
    VliClear(v, 0, n);
    ZeroWords(v[..], w);
    ValZeros(v[..], w);
  }

  /** One iteration: halve a, halve b, or subtract the smaller odd number from the larger. */
  method InvStep(a: array<nat>, b: array<nat>, u: array<nat>, v: array<nat>, mod: array<nat>, cmp: int, w: nat,
                 ghost x: nat)
    requires w >= 1 && mod.Length >= 1
    requires a.Length == b.Length == u.Length == v.Length == mod.Length
    requires a != b && a != u && a != v && b != u && b != v && u != v
    requires mod != a && mod != b && mod != u && mod != v
    requires IsWords(a[..], w) && IsWords(b[..], w) && IsWords(u[..], w) && IsWords(v[..], w) && IsWords(mod[..], w)
    requires Val(mod[..], w) % 2 == 1
    requires cmp == 1 <==> Val(a[..], w) > Val(b[..], w)
    requires cmp == -1 <==> Val(a[..], w) < Val(b[..], w)
    requires cmp == 1 || cmp == -1
    requires InvInvariant(Val(a[..], w), Val(b[..], w), Val(u[..], w), Val(v[..], w), x, Val(mod[..], w))
    modifies a, b, u, v
    ensures IsWords(a[..], w) && IsWords(b[..], w) && IsWords(u[..], w) && IsWords(v[..], w)
    ensures InvInvariant(Val(a[..], w), Val(b[..], w), Val(u[..], w), Val(v[..], w), x, Val(mod[..], w))
    ensures Val(a[..], w) + Val(b[..], w) < old(Val(a[..], w)) + old(Val(b[..], w))
  {
    hide *;
    ghost var m := Val(mod[..], w);
    InvFacts(Val(a[..], w), Val(b[..], w), Val(u[..], w), Val(v[..], w), x, m);
    LowBit(a[..], w);
    LowBit(b[..], w);
    if a[0] % 2 == 0 {
      InvHalveA(Val(a[..], w), Val(b[..], w), Val(u[..], w), Val(v[..], w), x, m);
      HalveBoth(a, u, mod, w);
    } else if b[0] % 2 == 0 {
      InvSwap(Val(a[..], w), Val(b[..], w), Val(u[..], w), Val(v[..], w), x, m);
      InvHalveA(Val(b[..], w), Val(a[..], w), Val(v[..], w), Val(u[..], w), x, m);
      HalveBoth(b, v, mod, w);
      InvSwap(Val(b[..], w), Val(a[..], w), Val(v[..], w), Val(u[..], w), x, m);
    } else if cmp > 0 {
      SubtractAndHalve(a, b, u, v, mod, w, x);
    } else {
      InvSwap(Val(a[..], w), Val(b[..], w), Val(u[..], w), Val(v[..], w), x, m);
      SubtractAndHalve(b, a, v, u, mod, w, x);
      InvSwap(Val(b[..], w), Val(a[..], w), Val(v[..], w), Val(u[..], w), x, m);
    }
  }

  /** rshift1(a); update(u). */
  method HalveBoth(a: array<nat>, u: array<nat>, mod: array<nat>, w: nat)
    requires w >= 1 && mod.Length >= 1 && a.Length == u.Length == mod.Length && a != u && a != mod && u != mod
    requires IsWords(a[..], w) && IsWords(u[..], w) && IsWords(mod[..], w)
    requires Val(mod[..], w) % 2 == 1 && Val(u[..], w) < Val(mod[..], w)
    modifies a, u
    ensures IsWords(a[..], w) && IsWords(u[..], w)
    ensures Val(a[..], w) == old(Val(a[..], w)) / 2
    ensures Val(u[..], w) == HalfMod(old(Val(u[..], w)), Val(mod[..], w))
  {
    hide *;
    ghost var n := a.Length;
    assert a[0..n] == a[..];
    VliRshift1(a, 0, a.Length, w);
    assert a[0..n] == a[..];
    VliModInvUpdate(u, mod, w);
  }

  /** For a coprime input the result is the inverse. */
  lemma GcdOne(g: nat, x: nat, m: nat)
    requires IsGcd(g, x, m) && m > 1
    requires forall d :: CommonDivisor(d, x, m) ==> d == 1
    ensures g % m == 1
  {
    assert CommonDivisor(g, x, m);
    ModSmall(1, m);
  }
}
