/**
 The integers modulo a prime: divisibility by a prime, Fermat's little theorem, inverses,
 square roots, and the field operators the point formulas are written in.
 */
module Field {
  import opened Arith
  import opened ModInv
  import opened Sets

  ghost predicate IsPrime(p: nat)
  {
    p >= 2 && forall d :: 2 <= d < p ==> p % d != 0
  }

  // ------------------------------------------------ divisibility by a prime

  lemma DescentStep(a: nat, b: nat, p: nat, q: nat, r: nat)
    requires 0 < p && p == q * a + r && (a * b) % p == 0
    ensures (r * b) % p == 0
  {
    var k: int := -(q as int);
    ModMulZero(a * b, k, p);
    assert r * b == (a * b) * k + b * p;
    ModAddMultiple((a * b) * k, b, p);
  }

  /** A prime that divides a * b with 0 < a < p divides b; by descent on p mod a. */
  lemma {:induction false} EuclidDescent(a: nat, b: nat, p: nat)
    requires IsPrime(p) && 0 < a < p && (a * b) % p == 0
    ensures b % p == 0
    decreases a
  {
    if a == 1 {
    } else {
      var q, r := p / a, p % a;
      assert r != 0;
      hide IsPrime;
      DescentStep(a, b, p, q, r);
      EuclidDescent(r, b, p);
    }
  }

  /** Euclid's lemma. */
  lemma PrimeDividesProduct(a: int, b: int, p: nat)
    requires IsPrime(p) && (a * b) % p == 0
    ensures a % p == 0 || b % p == 0
  {
    assert 0 < p;
    if a % p != 0 {
      var x: nat, y: nat := a % p, b % p;
      ModMul(a, b, p);
      EuclidDescent(x, y, p);
      ModIdem(b, p);
    }
  }

  lemma Cancel(a: int, b: int, c: int, p: nat)
    requires IsPrime(p) && a % p != 0 && (a * b) % p == (a * c) % p
    ensures b % p == c % p
  {
    ModDiff(a * b, a * c, p);
    assert a * b - a * c == a * (b - c);
    PrimeDividesProduct(a, b - c, p);
    ModDiff(b, c, p);
  }

  /** Below a prime only 1 divides both it and a non-zero number. */
  lemma PrimeCoprime(x: nat, p: nat)
    requires IsPrime(p) && 0 < x < p
    ensures forall d :: CommonDivisor(d, x, p) ==> d == 1
  {
    forall d: nat | CommonDivisor(d, x, p)
      ensures d == 1
    {
      if d >= p {
        if d == p { ModSmall(x, p); } else { ModSmall(p, d); }
      }
    }
  }

  // ------------------------------------------------ Fermat's little theorem

  ghost function Pick(s: set<nat>): (x: nat)
    requires s != {}
    ensures x in s
  {
    var x :| x in s;
    x
  }

  ghost function SetProduct(s: set<nat>): (r: nat)
  {
    if s == {} then 1 else Pick(s) * SetProduct(s - {Pick(s)})
  }

  lemma Swap(x: nat, y: nat, z: nat)
    ensures y * (x * z) == x * (y * z)
  {
  }

  /** Any element can be taken out of the product first. */
  lemma {:induction false} TakeOut(s: set<nat>, x: nat)
    requires x in s
    ensures SetProduct(s) == x * SetProduct(s - {x})
  {
    var y := Pick(s);
    if y != x {
      TakeOut(s - {y}, x);
      var rest := s - {y} - {x};
      assert s - {x} - {y} == rest;
      TakeOut(s - {x}, y);
      Swap(x, y, SetProduct(rest));
    }
  }

  ghost function Image(s: set<nat>, a: nat, p: nat): (r: set<nat>)
    requires p > 0
  {
    set x | x in s :: (a * x) % p
  }

  ghost predicate InRange(s: set<nat>, p: nat)
  {
    forall x :: x in s ==> 0 < x < p
  }

  lemma TimesInjective(a: nat, x: nat, y: nat, p: nat)
    requires IsPrime(p) && a % p != 0 && 0 < x < p && 0 < y < p && (a * x) % p == (a * y) % p
    ensures x == y
  {
    Cancel(a, x, y, p);
    ModSmall(x, p);
    ModSmall(y, p);
  }

  lemma ProductStep(u: nat, v: nat, a: nat, k: nat, z: nat, x: nat, ax: nat, p: nat)
    requires p > 0 && u % p == (k * z) % p && ax == (a * x) % p
    ensures (ax * u) % p == ((a * k) * (x * z)) % p
  {
    ModIdem(a * x, p);
    ModMulCong(ax, a * x, u, k * z, p);
    assert (a * x) * (k * z) == (a * k) * (x * z);
  }

  /** Multiplying every element of a set of residues by a keeps them distinct and scales the product. */
  lemma ImageOfOneMore(s: set<nat>, x: nat, a: nat, p: nat)
    requires IsPrime(p) && a % p != 0 && InRange(s, p) && x in s
    ensures var ax, t := (a * x) % p, Image(s - {x}, a, p);
      ax !in t && Image(s, a, p) == t + {ax} && Image(s, a, p) - {ax} == t && ax in Image(s, a, p)
  {
    var ax := (a * x) % p;
    forall y | y in s - {x}
      ensures (a * y) % p != ax
    {
      if (a * y) % p == ax {
        TimesInjective(a, x, y, p);
      }
    }
    assert s == (s - {x}) + {x};
    assert ax in Image(s, a, p);
    assert forall y :: y in s - {x} ==> (a * y) % p in Image(s, a, p);
    assert forall z :: z in Image(s, a, p) ==> z in Image(s - {x}, a, p) || z == ax;
  }

  lemma SetProductIs(s: set<nat>)
    requires s != {}
    ensures SetProduct(s) == Pick(s) * SetProduct(s - {Pick(s)})
  {
    hide Pick;
  }

  lemma {:induction false} ImageProduct(s: set<nat>, a: nat, p: nat)
    requires IsPrime(p) && a % p != 0 && InRange(s, p)
    ensures |Image(s, a, p)| == |s|
    ensures SetProduct(Image(s, a, p)) % p == (Pow(a, |s|) * SetProduct(s)) % p
    decreases |s|
  {
    if s == {} {
      assert Image(s, a, p) == {};
    } else {
      var x := Pick(s);
      var t := s - {x};
      var ax := (a * x) % p;
      ImageProduct(t, a, p);
      ImageOfOneMore(s, x, a, p);
      hide *;
      TakeOut(Image(s, a, p), ax);
      PowStep(a, |t|);
      SetProductIs(s);
      ProductStep(SetProduct(Image(t, a, p)), 0, a, Pow(a, |t|), SetProduct(t), x, ax, p);
    }
  }

  /** The numbers 1 to p - 1. */
  ghost function Units(p: nat): (r: set<nat>)
  {
    if p <= 1 then {} else Units(p - 1) + {p - 1}
  }

  lemma {:induction false} UnitsAre(p: nat)
    requires p >= 1
    ensures |Units(p)| == p - 1 && forall x :: x in Units(p) <==> 0 < x < p
  {
    if p == 1 {
    } else {
      UnitsAre(p - 1);
    }
  }

  lemma SameSizeSubset(s: set<nat>, t: set<nat>)
    requires s <= t && |s| == |t|
    ensures s == t
  {
    if s != t {
      var x :| x in t && x !in s;
      assert s <= t - {x};
      SubsetSize(s, t - {x});
    }
  }

  lemma {:induction false} ProductUnit(s: set<nat>, p: nat)
    requires IsPrime(p) && InRange(s, p)
    ensures SetProduct(s) % p != 0
    decreases |s|
  {
    if s == {} {
      ModSmall(1, p);
    } else {
      var x := Pick(s);
      ProductUnit(s - {x}, p);
      ModSmall(x, p);
      if SetProduct(s) % p == 0 {
        PrimeDividesProduct(x, SetProduct(s - {x}), p);
      }
    }
  }

  /** Multiplication by a permutes the units. */
  lemma UnitsPermuted(a: nat, p: nat)
    requires IsPrime(p) && a % p != 0
    ensures Image(Units(p), a, p) == Units(p)
  {
    var u := Units(p);
    UnitsAre(p);
    ImageProduct(u, a, p);
    hide Units;
    forall y | y in Image(u, a, p)
      ensures y in u
    {
      var x :| x in u && y == (a * x) % p;
      ModSmall(x, p);
      if y == 0 {
        PrimeDividesProduct(a, x, p);
      }
    }
    SameSizeSubset(Image(u, a, p), u);
  }

  /** Fermat's little theorem. */
  lemma Fermat(a: nat, p: nat)
    requires IsPrime(p) && a % p != 0
    ensures Pow(a, p - 1) % p == 1
  {
    hide *;
    var u := Units(p);
    UnitsInRange(p);
    UnitsPermuted(a, p);
    ImageProduct(u, a, p);
    ProductUnit(u, p);
    ModSmallOne(p);
    var z, x := SetProduct(u), Pow(a, p - 1);
    assert z * x == x * z && z * 1 == z;
    Cancel(z, x, 1, p);
  }

  lemma UnitsInRange(p: nat)
    requires IsPrime(p)
    ensures p >= 2 && InRange(Units(p), p) && |Units(p)| == p - 1
  {
    UnitsAre(p);
  }

  lemma ModSmallOne(p: nat)
    requires IsPrime(p)
    ensures 1 % p == 1
  {
  }

  // ------------------------------------------------------------- inverses

  /** The inverse of a modulo a prime, as a power. */
  function FInv(a: nat, p: nat): (r: nat)
    requires p >= 2
    ensures r < p
  {
    Pow(a, p - 2) % p
  }

  lemma InverseLaw(a: nat, p: nat)
    requires IsPrime(p) && a % p != 0
    ensures (a * FInv(a, p)) % p == 1 && FInv(a, p) % p != 0
  {
    Fermat(a, p);
    var x := Pow(a, p - 2);
    assert Pow(a, p - 1) == a * x;
    ModIdem(x, p);
    hide Pow;
    ModMulCong(a, a, x, x % p, p);
    if (x % p) % p == 0 {
      ModMulZero(x % p, a, p);
    }
  }

  /** An inverse is unique modulo the prime. */
  lemma InverseUnique(a: nat, x: nat, p: nat)
    requires IsPrime(p) && (a * x) % p == 1 && x < p
    ensures a % p != 0 && x == FInv(a, p)
  {
    if a % p == 0 {
      ModMulZero(a, x, p);
    }
    InverseLaw(a, p);
    Cancel(a, x, FInv(a, p), p);
    ModSmall(x, p);
    ModSmall(FInv(a, p), p);
  }

  // ----------------------------------------------------------- square roots

  /** Two square roots of the same residue differ by sign at most. */
  lemma OnlyTwoRoots(x: int, y: int, p: nat)
    requires IsPrime(p) && (x * x) % p == (y * y) % p
    ensures x % p == y % p || x % p == (-y) % p
  {
    ModDiff(x * x, y * y, p);
    assert x * x - y * y == (x - y) * (x + y);
    PrimeDividesProduct(x - y, x + y, p);
    ModDiff(x, y, p);
    ModDiff(x, -y, p);
  }

  // ------------------------------------------------------- field operators

  function FAdd(a: int, b: int, p: nat): (r: nat)
    requires p > 0
    ensures r < p
  {
    (a + b) % p
  }

  function FSub(a: int, b: int, p: nat): (r: nat)
    requires p > 0
    ensures r < p
  {
    (a - b) % p
  }

  function FMul(a: int, b: int, p: nat): (r: nat)
    requires p > 0
    ensures r < p
  {
    (a * b) % p
  }

  /** The operators on residues of integers are the residues of the integer operators. */
  lemma FieldOps(a: int, b: int, p: nat)
    requires p > 0
    ensures FAdd(a % p, b % p, p) == (a + b) % p
    ensures FSub(a % p, b % p, p) == (a - b) % p
    ensures FMul(a % p, b % p, p) == (a * b) % p
  {
    ModAdd(a, b, p);
    ModMul(a, b, p);
  }
}
