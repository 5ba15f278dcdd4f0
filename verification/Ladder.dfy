/**
 EccPoint_mult: the co-Z Montgomery ladder and its final recovery of 1/Z. For a point of
 prime order with non-zero x the result is the multiple of the point, unless some prefix m
 of the scalar has 2m + 1 divisible by the order; then the two ladder points meet, the
 coordinates collapse and the result is (0, 0).
 */
module Ladder {
  import opened Arith
  import opened Words
  import opened ModInv
  import opened P256
  import opened Field
  import opened Curve
  import opened CoZ
  import opened Points

  /**
   The curve of the library: secp256r1. Only the lemmas of P256 about the literals evaluate them; every proof
   about points of this curve hides them, because a solver that sees both p and b can refute the curve
   equation outright, which is wrong.
   */
  function Secp(): (e: Elliptic)
    ensures e.p == PrimeP() && e.p > 3
  {
    Elliptic(PrimeP(), CurveB())
  }

  lemma SecpIs()
    ensures Secp().p == PrimeP() && Secp().b == CurveB() && Secp().p > 3
  {
    hide PrimeP, CurveB;
  }

  function Generator(): (g: Point)
    ensures g.Affine? && g.x > 0
  {
    Affine(GX(), GY())
  }

  lemma GeneratorIs()
    ensures Generator() == Affine(GX(), GY()) && GX() > 0 && Secp().p == PrimeP() > 3
  {
    hide PrimeP, CurveB, GX, GY;
  }

  // --------------------------------------------------- scalars and prefixes

  /** The bits of s from position i up. */
  function Prefix(s: nat, i: nat): (r: nat)
  {
    s / Pow(2, i)
  }

  /** No prefix m of s above bit i has 2m + 1 divisible by n: the ladder points never meet. */
  ghost predicate NeverMeets(s: nat, top: nat, i: nat, n: nat)
    requires n > 0
  {
    forall j {:trigger Prefix(s, j)} :: i < j <= top ==> (2 * Prefix(s, j) + 1) % n != 0
  }

  lemma NeverMeetsStep(s: nat, top: nat, i: nat, n: nat)
    requires n > 0 && i < top
    ensures NeverMeets(s, top, i, n) <==> NeverMeets(s, top, i + 1, n) && (2 * Prefix(s, i + 1) + 1) % n != 0
  {
    hide Prefix;
  }

  lemma PrefixBit(s: nat, i: nat)
    ensures Prefix(s, i) == 2 * Prefix(s, i + 1) + Bit(s, i)
  {
    PrefixStep(s, i);
  }

  lemma PrefixEnds(s: nat, top: nat)
    requires Pow(2, top) <= s < Pow(2, top + 1)
    ensures Prefix(s, 0) == s && Prefix(s, top) == 1
  {
    assert Pow(2, top + 1) == 2 * Pow(2, top);
    var p := Pow(2, top);
    hide Pow;
    DivModUnique(s, p, 1, s - p);
    assert Pow(2, 0) == 1 by { PowZero(); }
  }

  lemma BitIs(v: nat, i: nat)
    ensures Bit(v, i) == (v / Pow(2, i)) % 2
  {
  }

  lemma PowSplit(top: nat, i: nat)
    requires i < top
    ensures Pow(2, top) == (2 * Pow(2, top - i - 1)) * Pow(2, i)
  {
    PowAdd(2, top - i, i);
    Pow2Step(top - i - 1);
  }

  /** Setting the bit above position top does not change the bits below it. */
  lemma LowerBits(v: nat, top: nat, i: nat)
    requires i < top
    ensures Bit(Pow(2, top) + v % Pow(2, top), i) == Bit(v, i)
  {
    hide *;
    PowSplit(top, i);
    SameBit(v, Pow(2, top), Pow(2, i), Pow(2, top - i - 1));
    BitIs(v, i);
    BitIs(Pow(2, top) + v % Pow(2, top), i);
  }

  /** Numbers that differ by a multiple of 2 r q agree in bit q. */
  lemma SameBit(v: nat, p: nat, q: nat, r: nat)
    requires q > 0 && p > 0 && p == (2 * r) * q
    ensures ((p + v % p) / q) % 2 == (v / q) % 2
  {
    var k := v / p - 1;
    var u := p + v % p;
    assert v == u + k * p;
    var m := k * r;
    assert k * p == (2 * m) * q;
    hide *;
    DivAddMultiple(u, 2 * m, q);
    ModAddMultiple(u / q, m, 2);
  }

  // -------------------------------------------------- group facts per round

  /** In a group of odd order no point of order n has y = 0. */
  lemma YNotZero(e: Elliptic, P: Point, n: nat)
    requires IsGroup(e) && HasOrder(e, P, n)
    ensures P.Affine? && P.y != 0
  {
    OrderFacts(e, P, n);
    GroupIsField(e);
    OrderDescent(e, 2, P, n);
    TimesOne(e, P);
    TimesStep(e, 1, P);
    hide Times, OnCurve, HasOrder, IsGroup, IsField, Chord, Tangent;
  }

  /** m * P and (m + 1) * P are finite and differ in x unless n divides m, m + 1 or 2m + 1. */
  lemma NeighboursDiffer(e: Elliptic, P: Point, m: nat, n: nat)
    requires IsGroup(e) && HasOrder(e, P, n) && m % n != 0 && (m + 1) % n != 0
    ensures var A, B := Times(e, m, P), Times(e, m + 1, P);
      && A.Affine? && B.Affine? && OnCurve(e, A) && OnCurve(e, B)
      && (A.x == B.x <==> (2 * m + 1) % n == 0)
      && (A.x == B.x ==> A == Neg(e, B))
  {
    OrderFacts(e, P, n);
    hide *;
    GroupIsField(e);
    TimesOnCurve(e, m, P);
    TimesOnCurve(e, m + 1, P);
    TimesIsInfinity(e, m, P, n);
    TimesIsInfinity(e, m + 1, P, n);
    TimesEqual(e, m, m + 1, P, n);
    TimesOpposite(e, m, m + 1, P, n);
    ModSmall(1, n);
    XDecides(e, Times(e, m, P), Times(e, m + 1, P));
    assert m + (m + 1) == 2 * m + 1;
  }

  lemma XDecides(e: Elliptic, A: Point, B: Point)
    requires IsField(e) && OnCurve(e, A) && OnCurve(e, B) && A != Infinity && B != Infinity
    ensures A.Affine? && B.Affine? && (A.x == B.x <==> A == B || A == Neg(e, B))
  {
    if A.x == B.x {
      SameX(e, A, B);
    }
  }

  /** P and (2m + 1) * P differ in x. */
  lemma SumDiffersFromP(e: Elliptic, P: Point, m: nat, n: nat)
    requires IsGroup(e) && HasOrder(e, P, n) && m % n != 0 && (m + 1) % n != 0 && (2 * m + 1) % n != 0
    ensures var S := Times(e, 2 * m + 1, P);
      P.Affine? && S.Affine? && OnCurve(e, S) && S.x != P.x
  {
    OrderFacts(e, P, n);
    TwiceNotZero(m, n);
    TwiceNotZero(m + 1, n);
    hide *;
    GroupIsField(e);
    var k := 2 * m + 1;
    TimesOnCurve(e, k, P);
    TimesIsInfinity(e, k, P, n);
    TimesEqual(e, 1, k, P, n);
    TimesOpposite(e, k, 1, P, n);
    TimesOne(e, P);
    XDecides(e, Times(e, k, P), P);
    assert k - 1 == 2 * m && k + 1 == 2 * (m + 1);
  }

  lemma TwiceNotZero(m: nat, n: nat)
    requires IsPrime(n) && n > 2 && m % n != 0
    ensures (2 * m) % n != 0
  {
    if (2 * m) % n == 0 {
      PrimeDividesProduct(2, m, n);
    }
  }

  /** (m P) - (m+1) P = -P, ((m+1) P) - m P = P, and the two sums are (2m + 1) P. */
  lemma DifferenceIsP(e: Elliptic, P: Point, m: nat)
    requires IsGroup(e) && OnCurve(e, P)
    ensures var A, B := Times(e, m, P), Times(e, m + 1, P);
      && Add(e, A, Neg(e, B)) == Neg(e, P) && Add(e, B, Neg(e, A)) == P
      && Add(e, A, B) == Times(e, 2 * m + 1, P) && Add(e, B, A) == Times(e, 2 * m + 1, P)
  {
    hide *;
    GroupIsField(e);
    var A, B := Times(e, m, P), Times(e, m + 1, P);
    TimesOnCurve(e, m, P);
    TimesOnCurve(e, m + 1, P);
    TimesStep(e, m, P);
    NegOnCurve(e, A);
    NegOnCurve(e, B);
    AddNeg(e, A);
    AddInfinity(e, P);
    AddCommutes(e, A, P);
    AddAssoc(e, P, A, Neg(e, A));
    TimesAdd(e, m, m + 1, P);
    AddCommutes(e, A, B);
    MinusSum(e, A, P, B);
    assert m + (m + 1) == 2 * m + 1;
  }

  lemma MinusSum(e: Elliptic, A: Point, P: Point, B: Point)
    requires IsGroup(e) && OnCurve(e, A) && OnCurve(e, P) && OnCurve(e, B) && B == Add(e, A, P)
    ensures Add(e, A, Neg(e, B)) == Neg(e, P)
  {
    hide *;
    GroupIsField(e);
    NegOnCurve(e, B);
    var D := Add(e, A, Neg(e, B));
    AddOnCurve(e, A, Neg(e, B));
    AddCommutes(e, A, Neg(e, B));
    AddAssoc(e, Neg(e, B), A, P);
    AddCommutes(e, Neg(e, B), B);
    AddNeg(e, B);
    NegUnique(e, D, P);
  }

  /** Adding P or -P to (2m + 1) P gives the point of the next prefix. */
  lemma NextMultiple(e: Elliptic, P: Point, m: nat)
    requires IsGroup(e) && OnCurve(e, P)
    ensures Add(e, Times(e, 2 * m + 1, P), P) == Times(e, 2 * m + 2, P)
    ensures Add(e, Times(e, 2 * m + 1, P), Neg(e, P)) == Times(e, 2 * m, P)
  {
    hide *;
    GroupIsField(e);
    TimesStep(e, 2 * m, P);
    TimesStep(e, 2 * m + 1, P);
    var T := Times(e, 2 * m, P);
    TimesOnCurve(e, 2 * m, P);
    NegOnCurve(e, P);
    AddAssoc(e, T, P, Neg(e, P));
    AddNeg(e, P);
    AddInfinity(e, T);
  }

  // ---------------------------------------------------------- ladder state

  /** The coordinates of R0 and R1. */
  datatype Pair = Pair(x0: nat, y0: nat, x1: nat, y1: nat)

  /** The pair as XYcZ_addC takes it: R[b] first. */
  function Ordered(r: Pair, b: nat): (q: Quad)
  {
    if b == 0 then Quad(r.x0, r.y0, r.x1, r.y1) else Quad(r.x1, r.y1, r.x0, r.y0)
  }

  function Unordered(q: Quad, b: nat): (r: Pair)
  {
    if b == 0 then Pair(q.x1, q.y1, q.x2, q.y2) else Pair(q.x2, q.y2, q.x1, q.y1)
  }

  function Swapped(q: Quad): (r: Quad)
  {
    Quad(q.x2, q.y2, q.x1, q.y1)
  }

  /** R0 = m P and R1 = (m + 1) P, both scaled by z. */
  ghost predicate OnTrack(r: Pair, m: nat, z: int, e: Elliptic, P: Point)
    requires e.p > 3
  {
    Rep(r.x0, r.y0, z, Times(e, m, P), e.p) && Rep(r.x1, r.y1, z, Times(e, m + 1, P), e.p)
  }

  /** Either every prefix so far kept the points apart and they are on track, or they have collapsed. */
  ghost predicate LadderState(r: Pair, s: nat, top: nat, i: nat, z: int, e: Elliptic, P: Point, n: nat)
    requires e.p > 3 && n > 0
  {
    if NeverMeets(s, top, i, n) then
      OnTrack(r, Prefix(s, i), z, e, P) && Prefix(s, i) % n != 0 && (Prefix(s, i) + 1) % n != 0
    else
      Collapsed(Ordered(r, 0), e.p)
  }

  lemma OrderedRep(r: Pair, m: nat, b: nat, z: int, e: Elliptic, P: Point)
    requires e.p > 3 && b <= 1 && OnTrack(r, m, z, e, P)
    ensures var q := Ordered(r, b);
      Rep(q.x1, q.y1, z, Times(e, m + b, P), e.p) && Rep(q.x2, q.y2, z, Times(e, m + 1 - b, P), e.p)
  {
    hide Times, Rep;
  }

  /** The points after XYcZ_addC in a round with bit b. */
  function AddCPoint(e: Elliptic, P: Point, b: nat): (r: Point)
    requires e.p > 3
  {
    if b == 0 then Neg(e, P) else P
  }

  /** XYcZ_addC in a round that does not meet: +-P and (2m + 1) P. */
  lemma AddCRound(r: Pair, m: nat, b: nat, z: int, e: Elliptic, P: Point, n: nat)
    requires IsGroup(e) && HasOrder(e, P, n) && b <= 1 && OnTrack(r, m, z, e, P)
    requires m % n != 0 && (m + 1) % n != 0 && (2 * m + 1) % n != 0
    ensures var q := Ordered(r, b); var c := CoZAddC(q, e.p); var z' := z * (q.x2 - q.x1);
      && Rep(c.x1, c.y1, z', AddCPoint(e, P, b), e.p)
      && Rep(c.x2, c.y2, z', Times(e, 2 * m + 1, P), e.p)
  {
    OrderFacts(e, P, n);
    AddCPointIs(e, P);
    hide *;
    GroupIsField(e);
    OrderedRep(r, m, b, z, e, P);
    NeighboursDiffer(e, P, m, n);
    DifferenceIsP(e, P, m);
    if b == 0 {
      CoZAddCCorrect(e, Ordered(r, b), z, Times(e, m, P), Times(e, m + 1, P));
    } else {
      CoZAddCCorrect(e, Ordered(r, b), z, Times(e, m + 1, P), Times(e, m, P));
    }
  }

  lemma AddCPointIs(e: Elliptic, P: Point)
    requires e.p > 3
    ensures AddCPoint(e, P, 0) == Neg(e, P) && AddCPoint(e, P, 1) == P
  {
  }

  lemma AddCPointFacts(e: Elliptic, P: Point, b: nat)
    requires e.p > 3 && OnCurve(e, P) && P.Affine? && b <= 1
    ensures OnCurve(e, AddCPoint(e, P, b)) && AddCPoint(e, P, b).Affine? && AddCPoint(e, P, b).x == P.x
    ensures b == 1 ==> AddCPoint(e, P, b).y == P.y
    ensures b == 0 ==> AddCPoint(e, P, b).y == (-(P.y as int)) % e.p
  {
    NegOnCurve(e, P);
  }

  /** XYcZ_add in the same round: (2m + 1) P again, and the point of the next prefix. */
  lemma AddRound(q: Quad, m: nat, b: nat, z: int, e: Elliptic, P: Point, n: nat)
    requires IsGroup(e) && HasOrder(e, P, n) && b <= 1
    requires m % n != 0 && (m + 1) % n != 0 && (2 * m + 1) % n != 0
    requires Rep(q.x1, q.y1, z, AddCPoint(e, P, b), e.p) && Rep(q.x2, q.y2, z, Times(e, 2 * m + 1, P), e.p)
    ensures var r := CoZAdd(Swapped(q), e.p); var z' := z * (q.x1 - q.x2);
      && Rep(r.x1, r.y1, z', Times(e, 2 * m + 1, P), e.p)
      && Rep(r.x2, r.y2, z', Times(e, 2 * m + 2 * b, P), e.p)
  {
    OrderFacts(e, P, n);
    AddCPointIs(e, P);
    assert Swapped(q) == Quad(q.x2, q.y2, q.x1, q.y1);
    hide *;
    GroupIsField(e);
    AddCPointFacts(e, P, b);
    SumDiffersFromP(e, P, m, n);
    NextMultiple(e, P, m);
    CoZAddCorrect(e, Swapped(q), z, Times(e, 2 * m + 1, P), AddCPoint(e, P, b));
  }

  /** One round of the loop: XYcZ_addC(R[b], R[1-b]) and XYcZ_add(R[1-b], R[b]). */
  function Round(r: Pair, b: nat, p: nat): (next: Pair)
    requires p > 0
  {
    Unordered(Swapped(CoZAdd(Swapped(CoZAddC(Ordered(r, b), p)), p)), b)
  }

  lemma TrackRound(r: Pair, m: nat, b: nat, z: int, e: Elliptic, P: Point, n: nat) returns (z': int)
    requires IsGroup(e) && HasOrder(e, P, n) && b <= 1 && OnTrack(r, m, z, e, P)
    requires m % n != 0 && (m + 1) % n != 0 && (2 * m + 1) % n != 0
    ensures OnTrack(Round(r, b, e.p), 2 * m + b, z', e, P)
  {
    var q := Ordered(r, b);
    var c := CoZAddC(q, e.p);
    var zc := z * (q.x2 - q.x1);
    AddCRound(r, m, b, z, e, P, n);
    AddRound(c, m, b, zc, e, P, n);
    z' := zc * (c.x1 - c.x2);
    hide CoZAddC, CoZAdd, Times, Rep, IsGroup, HasOrder;
  }

  lemma NextPrefixNotZero(m: nat, b: nat, n: nat)
    requires IsPrime(n) && n > 2 && b <= 1 && m % n != 0 && (m + 1) % n != 0 && (2 * m + 1) % n != 0
    ensures (2 * m + b) % n != 0 && (2 * m + b + 1) % n != 0
  {
    TwiceNotZero(m, n);
    TwiceNotZero(m + 1, n);
    assert 2 * (m + 1) == 2 * m + 1 + 1;
  }

  lemma CollapsedSwap(q: Quad, p: nat)
    requires p > 0
    ensures Collapsed(Swapped(q), p) <==> Collapsed(q, p)
  {
    hide OnCusp;
  }

  /** A round with m P = -(m + 1) P collapses the pair. */
  lemma MeetingAddC(r: Pair, m: nat, b: nat, z: int, e: Elliptic, P: Point, n: nat)
    requires IsGroup(e) && HasOrder(e, P, n) && b <= 1 && OnTrack(r, m, z, e, P)
    requires m % n != 0 && (m + 1) % n != 0 && (2 * m + 1) % n == 0
    ensures var c := CoZAddC(Ordered(r, b), e.p); c.x1 == 0 && c.y1 == 0 && Collapsed(c, e.p)
  {
    OrderFacts(e, P, n);
    hide *;
    GroupIsField(e);
    OrderedRep(r, m, b, z, e, P);
    NeighboursDiffer(e, P, m, n);
    var q := Ordered(r, b);
    if b == 0 {
      OppositeReps(q, z, e, Times(e, m, P), Times(e, m + 1, P));
    } else {
      NegNeg(e, Times(e, m, P), Times(e, m + 1, P));
      OppositeReps(q, z, e, Times(e, m + 1, P), Times(e, m, P));
    }
    OppositePointsCollapse(q, e.p);
  }

  lemma NegNeg(e: Elliptic, A: Point, B: Point)
    requires e.p > 0 && OnCurve(e, A) && OnCurve(e, B) && A == Neg(e, B)
    ensures B == Neg(e, A)
  {
    if B.Affine? {
      NegatedY(B.y, e.p);
      NegatedY(A.y, e.p);
    }
  }

  lemma OppositeReps(q: Quad, z: int, e: Elliptic, A: Point, B: Point)
    requires e.p > 0 && OnCurve(e, A) && OnCurve(e, B) && A == Neg(e, B)
    requires Rep(q.x1, q.y1, z, A, e.p) && Rep(q.x2, q.y2, z, B, e.p)
    ensures q.x1 == q.x2 < e.p && q.y1 < e.p && q.y2 < e.p && (q.y1 + q.y2) % e.p == 0
  {
    var p, t := e.p, z * (z * z);
    var y: int := -(B.y as int);
    ModIdem(y, p);
    ModMulCong(A.y, y, t, t, p);
    ModAdd(A.y * t, B.y * t, p);
    ModAddCong(A.y * t, y * t, B.y * t, B.y * t, p);
    assert y * t + B.y * t == 0;
    ModSmall(0, p);
  }

  lemma CollapsedRound(c: Quad, b: nat, p: nat)
    requires p > 0 && b <= 1 && Collapsed(c, p)
    ensures Collapsed(Ordered(Unordered(Swapped(CoZAdd(Swapped(c), p)), b), 0), p)
  {
    CollapsedSwap(c, p);
    CollapsedAdd(Swapped(c), p);
    hide CoZAdd, OnCusp;
  }

  lemma CollapsedOrdered(r: Pair, b: nat, p: nat)
    requires p > 0 && Collapsed(Ordered(r, 0), p)
    ensures Collapsed(Ordered(r, b), p)
  {
    hide OnCusp;
  }

  lemma ZeroCollapsed(p: nat)
    requires p > 0
    ensures Collapsed(Quad(0, 0, 0, 0), p)
  {
    CuspOfSlope(0, p);
    hide OnCusp;
  }

  /** Every round keeps the ladder's state, for the next lower bit. */
  lemma LadderRound(r: Pair, s: nat, top: nat, i: nat, z: int, e: Elliptic, P: Point, n: nat) returns (z': int)
    requires IsGroup(e) && HasOrder(e, P, n) && i < top
    requires LadderState(r, s, top, i + 1, z, e, P, n)
    ensures LadderState(Round(r, Bit(s, i), e.p), s, top, i, z', e, P, n)
  {
    var m, b := Prefix(s, i + 1), Bit(s, i);
    OrderFacts(e, P, n);
    NeverMeetsStep(s, top, i, n);
    PrefixBit(s, i);
    hide Prefix, Bit, NeverMeets, CoZAdd, CoZAddC, OnTrack, Collapsed, IsGroup, HasOrder, Times, IsPrime;
    z' := 0;
    if NeverMeets(s, top, i + 1, n) && (2 * m + 1) % n != 0 {
      z' := TrackRound(r, m, b, z, e, P, n);
      NextPrefixNotZero(m, b, n);
    } else {
      var c := CoZAddC(Ordered(r, b), e.p);
      if NeverMeets(s, top, i + 1, n) {
        MeetingAddC(r, m, b, z, e, P, n);
      } else {
        CollapsedOrdered(r, b, e.p);
        CollapsedAddC(Ordered(r, b), e.p);
        ZeroCollapsed(e.p);
      }
      CollapsedRound(c, b, e.p);
    }
  }

  // ------------------------------------------------------------- the start

  /** XYcZ_initial_double puts P and 2P on track for the prefix 1. */
  lemma LadderStart(z: nat, e: Elliptic, P: Point, n: nat, s: nat, top: nat)
    requires IsGroup(e) && HasOrder(e, P, n) && 0 < z < e.p && P.Affine?
    requires Pow(2, top) <= s < Pow(2, top + 1)
    ensures var a := ApplyZ(P.x, P.y, z, e.p);
      var d := DoubleJacobian(Jacobian(a.0, a.1, z), e.p);
      var c := ApplyZ(P.x, P.y, d.z, e.p);
      LadderState(Pair(c.0, c.1, d.x, d.y), s, top, top, d.z, e, P, n)
  {
    OrderFacts(e, P, n);
    hide *;
    GroupIsField(e);
    YNotZero(e, P, n);
    var p := e.p;
    var a := ApplyZ(P.x, P.y, z, p);
    var j := Jacobian(a.0, a.1, z);
    ModSmall(z, p);
    ApplyZScales(P, z, p);
    DoubleCorrect(e, j, z, P);
    var d := DoubleJacobian(j, p);
    ModIdem(a.1 * z, p);
    RepParts(d.x, d.y, a.1 * z, Add(e, P, P), p);
    RepCong(d.x, d.y, a.1 * z, d.z, Add(e, P, P), p);
    ApplyZScales(P, d.z, p);
    ModSmall(d.z, p);
    var c := ApplyZ(P.x, P.y, d.z, p);
    TimesOne(e, P);
    TimesStep(e, 1, P);
    TrackIntro(Pair(c.0, c.1, d.x, d.y), d.z, e, P);
    StateIntro(Pair(c.0, c.1, d.x, d.y), s, top, d.z, e, P, n);
  }

  lemma TrackIntro(r: Pair, z: int, e: Elliptic, P: Point)
    requires e.p > 3 && Rep(r.x0, r.y0, z, Times(e, 1, P), e.p) && Rep(r.x1, r.y1, z, Times(e, 2, P), e.p)
    ensures OnTrack(r, 1, z, e, P)
  {
    hide Rep, Times;
  }

  lemma StateIntro(r: Pair, s: nat, top: nat, z: int, e: Elliptic, P: Point, n: nat)
    requires e.p > 3 && n > 2 && OnTrack(r, 1, z, e, P) && Pow(2, top) <= s < Pow(2, top + 1)
    ensures LadderState(r, s, top, top, z, e, P, n)
  {
    PrefixEnds(s, top);
    ModSmall(1, n);
    ModSmall(2, n);
    hide OnTrack, Prefix, Pow, Collapsed;
  }

  // --------------------------------------------------------------- the end

  /** The value the C code computes as 1/Z from X1 - X0, Yb, Xb and the input point. */
  function FinalZ(dx: nat, yb: nat, xb: nat, x: nat, y: nat, p: nat): (r: nat)
    requires p >= 2
  {
    var t := FMul(FMul(dx, yb, p), x, p);
    FMul(FMul(if t == 0 then 0 else FInv(t, p), y, p), xb, p)
  }

  /** X1 - X0 times Yb times xP is, up to the square of a sign, yP * Xb * z * (Xb - X). */
  lemma SignsCancel(x: int, y: int, z: int, d: int, sign: int, t: int, p: nat, xb: int, yb: int)
    requires p > 0 && (sign == 1 || sign == -1)
    requires xb % p == (x * (z * z)) % p && yb % p == ((sign * y) * (z * (z * z))) % p
    requires t % p == (((sign * d) * yb) * x) % p
    ensures t % p == ((y * xb) * (z * d)) % p
  {
    var zz := z * z;
    var zzz := z * zz;
    var w := (sign * y) * zzz;
    ModMulCong(sign * d, sign * d, yb, w, p);
    ModMulCong((sign * d) * yb, (sign * d) * w, x, x, p);
    ModMulCong(y, y, xb, x * zz, p);
    ModMulCong(y * xb, y * (x * zz), z * d, z * d, p);
    SignSquare(x, y, z, d, sign, zz, zzz);
  }

  lemma SignSquare(x: int, y: int, z: int, d: int, sign: int, zz: int, zzz: int)
    requires (sign == 1 || sign == -1) && zzz == z * zz
    ensures ((sign * d) * ((sign * y) * zzz)) * x == (y * (x * zz)) * (z * d)
  {
    var a := y * zzz;
    assert (sign * d) * ((sign * y) * zzz) == d * a by {
      if sign == 1 {
      } else {
        assert (-y) * zzz == -a;
        assert (-d) * (-a) == d * a;
      }
    }
    assert (d * a) * x == (y * (x * zz)) * (z * d);
  }

  /** The final value times the last common z is 1. */
  lemma RecoverZ(x: nat, y: nat, z: int, d: int, dx: int, sign: int, p: nat, xb: nat, yb: nat)
    requires IsPrime(p) && (sign == 1 || sign == -1) && dx % p == (sign * d) % p
    requires xb % p == (x * (z * z)) % p && yb % p == ((sign * y) * (z * (z * z))) % p
    requires x % p != 0 && y % p != 0 && z % p != 0 && d % p != 0
    ensures (FinalZ(dx % p, yb, xb, x, y, p) * (z * d)) % p == 1
  {
    var u := (y * xb) * (z * d);
    var t := FMul(FMul(dx % p, yb, p), x, p);
    assert t % p == (((sign * d) * yb) * x) % p by { ThreeFactors(dx, sign * d, yb, x, p); }
    SignsCancel(x, y, z, d, sign, t, p, xb, yb);
    assert u % p != 0 by {
      NonZeroProduct(z, z, p);
      NonZeroProduct(x, z * z, p);
      NonZeroProduct(y, xb, p);
      NonZeroProduct(z, d, p);
      NonZeroProduct(y * xb, z * d, p);
    }
    ModSmall(t, p);
    InverseLaw(t, p);
    hide FInv, IsPrime, FMul;
    FinishInverse(t, u, FInv(t, p), y, xb, z * d, p);
  }

  lemma ThreeFactors(dx: int, d: int, yb: int, x: int, p: nat)
    requires p > 0 && dx % p == d % p
    ensures FMul(FMul(dx % p, yb, p), x, p) % p == ((d * yb) * x) % p
  {
    ModIdem(dx, p);
    ModMulCong(dx % p, d, yb, yb, p);
    var v := FMul(dx % p, yb, p);
    ModIdem((dx % p) * yb, p);
    ModMulCong(v, d * yb, x, x, p);
    ModIdem(v * x, p);
  }

  lemma FinishInverse(t: nat, u: int, inv: nat, y: nat, xb: nat, zd: int, p: nat)
    requires p > 1 && t % p == u % p && u == (y * xb) * zd && (t * inv) % p == 1
    ensures (FMul(FMul(inv, y, p), xb, p) * zd) % p == 1
  {
    ThreeFactors(inv, inv, y, xb, p) by { ModIdem(inv, p); }
    var f := FMul(FMul(inv, y, p), xb, p);
    assert f % p == ((inv * y) * xb) % p by { FMulResidue(inv, y, xb, p); }
    hide *;
    ModMulCong(f, (inv * y) * xb, zd, zd, p);
    Regroup(inv, y, xb, zd, u);
    ModMulCong(inv, inv, t, u, p);
    assert inv * t == t * inv;
  }

  lemma Regroup(a: int, b: int, c: int, d: int, u: int)
    requires u == (b * c) * d
    ensures ((a * b) * c) * d == a * u
  {
    MulAssoc(a, b, c);
    MulAssoc(a, b * c, d);
  }

  lemma FMulResidue(a: int, b: int, c: int, p: nat)
    requires p > 0
    ensures FMul(FMul(a, b, p), c, p) % p == ((a * b) * c) % p
  {
    ModIdem(a * b, p);
    ModMulCong((a * b) % p, a * b, c, c, p);
    ModIdem(((a * b) % p) * c, p);
  }

  /** The coordinates EccPoint_mult returns from the state before bit 0. */
  function FinalPoint(r: Pair, b: nat, x: nat, y: nat, p: nat): (point: (nat, nat))
    requires p >= 2
  {
    var c := CoZAddC(Ordered(r, b), p);
    var u := Unordered(c, b);
    var z := FinalZ(FSub(u.x1, u.x0, p), c.y1, c.x1, x, y, p);
    var f := Unordered(Swapped(CoZAdd(Swapped(c), p)), b);
    ApplyZ(f.x0, f.y0, z, p)
  }

  lemma FinalZAtZero(dx: nat, x: nat, y: nat, xb: nat, p: nat)
    requires p >= 2
    ensures FinalZ(dx, 0, xb, x, y, p) == 0
  {
    ModSmall(0, p);
    assert dx * 0 == 0 && 0 * x == 0 && 0 * y == 0 && 0 * xb == 0;
  }

  lemma ApplyZero(x: nat, y: nat, p: nat)
    requires p >= 2
    ensures ApplyZ(x, y, 0, p) == (0, 0)
  {
    ModSmall(0, p);
    assert 0 * 0 == 0 && x * 0 == 0 && y * 0 == 0;
  }

  /** When the points have met, or meet in the last round, the result is (0, 0). */
  lemma FinalCollapsed(r: Pair, b: nat, x: nat, y: nat, p: nat)
    requires p >= 2 && CoZAddC(Ordered(r, b), p).y1 == 0
    ensures FinalPoint(r, b, x, y, p) == (0, 0)
  {
    var c := CoZAddC(Ordered(r, b), p);
    var u := Unordered(c, b);
    FinalZAtZero(FSub(u.x1, u.x0, p), x, y, c.x1, p);
    var f := Unordered(Swapped(CoZAdd(Swapped(c), p)), b);
    ApplyZero(f.x0, f.y0, p);
    hide CoZAdd, CoZAddC, ApplyZ, FinalZ, FSub;
  }

  lemma FinalOnTrack(r: Pair, m: nat, b: nat, z: int, e: Elliptic, P: Point, n: nat)
    requires IsGroup(e) && HasOrder(e, P, n) && b <= 1 && OnTrack(r, m, z, e, P) && P.Affine? && P.x != 0
    requires m % n != 0 && (m + 1) % n != 0 && (2 * m + 1) % n != 0
    ensures var f := FinalPoint(r, b, P.x, P.y, e.p); Affine(f.0, f.1) == Times(e, 2 * m + b, P)
  {
    OrderFacts(e, P, n);
    hide *;
    GroupIsField(e);
    var q := Ordered(r, b);
    var c := CoZAddC(q, e.p);
    var zc := z * (q.x2 - q.x1);
    AddCRound(r, m, b, z, e, P, n);
    AddRound(c, m, b, zc, e, P, n);
    FinalFactor(c, m, b, zc, e, P, n);
    var k := 2 * m + b;
    TimesOnCurve(e, k, P);
    var fz := FinalZ(FSub(Unordered(c, b).x1, Unordered(c, b).x0, e.p), c.y1, c.x1, P.x, P.y, e.p);
    var g := CoZAdd(Swapped(c), e.p);
    FinalUnfold(r, b, P.x, P.y, e.p, c, g, fz);
    OutputIs(g, b);
    if b == 0 {
      RepParts(g.x2, g.y2, zc * (c.x1 - c.x2), Times(e, 2 * m + 2 * b, P), e.p);
      OnCurveRange(e, Times(e, k, P));
      ApplyInverseZ(g.x2, g.y2, zc * (c.x1 - c.x2), fz, Times(e, k, P), e.p);
    } else {
      RepParts(g.x1, g.y1, zc * (c.x1 - c.x2), Times(e, 2 * m + 1, P), e.p);
      OnCurveRange(e, Times(e, k, P));
      ApplyInverseZ(g.x1, g.y1, zc * (c.x1 - c.x2), fz, Times(e, k, P), e.p);
    }
  }

  lemma OutputIs(g: Quad, b: nat)
    requires b <= 1
    ensures var f := Unordered(Swapped(g), b);
      b == 0 ==> f.x0 == g.x2 && f.y0 == g.y2
    ensures var f := Unordered(Swapped(g), b);
      b == 1 ==> f.x0 == g.x1 && f.y0 == g.y1
  {
  }

  lemma FinalUnfold(r: Pair, b: nat, x: nat, y: nat, p: nat, c: Quad, g: Quad, fz: nat)
    requires p >= 2 && c == CoZAddC(Ordered(r, b), p) && g == CoZAdd(Swapped(c), p)
    requires fz == FinalZ(FSub(Unordered(c, b).x1, Unordered(c, b).x0, p), c.y1, c.x1, x, y, p)
    ensures FinalPoint(r, b, x, y, p) == ApplyZ(Unordered(Swapped(g), b).x0, Unordered(Swapped(g), b).y0, fz, p)
  {
    hide CoZAdd, CoZAddC, ApplyZ, FinalZ, FSub;
  }

  lemma FinalFactor(c: Quad, m: nat, b: nat, z: int, e: Elliptic, P: Point, n: nat)
    requires IsGroup(e) && HasOrder(e, P, n) && b <= 1 && P.Affine? && P.x != 0
    requires m % n != 0 && (m + 1) % n != 0 && (2 * m + 1) % n != 0
    requires Rep(c.x1, c.y1, z, AddCPoint(e, P, b), e.p) && Rep(c.x2, c.y2, z, Times(e, 2 * m + 1, P), e.p)
    ensures var u := Unordered(c, b);
      (FinalZ(FSub(u.x1, u.x0, e.p), c.y1, c.x1, P.x, P.y, e.p) * (z * (c.x1 - c.x2))) % e.p == 1
  {
    OrderFacts(e, P, n);
    hide *;
    GroupIsField(e);
    FieldFacts(e);
    var p := e.p;
    YNotZero(e, P, n);
    AddCPointFacts(e, P, b);
    SumDiffersFromP(e, P, m, n);
    var A, S := AddCPoint(e, P, b), Times(e, 2 * m + 1, P);
    OnCurveRange(e, P);
    OnCurveRange(e, S);
    RepX(c.x1, c.y1, c.x2, c.y2, z, A, S, e);
    RepParts(c.x1, c.y1, z, A, p);
    RepParts(c.x2, c.y2, z, S, p);
    var sign := if b == 1 then 1 else -1;
    var d := c.x1 - c.x2;
    DifferentResidues(c.x1, c.x2, p);
    SignedDifference(c, b, p);
    ModSmall(P.x, p);
    ModSmall(P.y, p);
    ModIdem(A.x * (z * z), p);
    SignedY(A.y, P.y, sign, z * (z * z), c.y1, p) by {
      ModIdem(-(P.y as int), p);
      assert sign * P.y == if b == 1 then P.y else -(P.y as int);
    }
    RecoverZ(P.x, P.y, z, d, sign * d, sign, p, c.x1, c.y1);
  }

  lemma DifferentResidues(a: nat, b: nat, p: nat)
    requires a < p && b < p && a != b
    ensures (a - b) % p != 0
  {
    ModDiff(a, b, p);
    ModSmall(a, p);
    ModSmall(b, p);
  }

  lemma SignedDifference(c: Quad, b: nat, p: nat)
    requires p > 0 && b <= 1
    ensures var u := Unordered(c, b); var sign := if b == 1 then 1 else -1;
      FSub(u.x1, u.x0, p) == (sign * (c.x1 - c.x2)) % p
  {
  }

  lemma SignedY(ay: nat, y: nat, sign: int, t: int, c: nat, p: nat)
    requires p > 0 && ay % p == (sign * y) % p && c == (ay * t) % p
    ensures c % p == ((sign * y) * t) % p
  {
    ModIdem(ay * t, p);
    ModMulCong(ay, sign * y, t, t, p);
  }

  /** The ladder's result from the state before bit 0: s * P, or (0, 0) when the points met. */
  lemma LadderEnd(r: Pair, s: nat, top: nat, z: int, e: Elliptic, P: Point, n: nat)
    requires IsGroup(e) && HasOrder(e, P, n) && top >= 1 && P.Affine? && P.x != 0
    requires LadderState(r, s, top, 1, z, e, P, n)
    ensures var f := FinalPoint(r, Bit(s, 0), P.x, P.y, e.p);
      if NeverMeets(s, top, 0, n) then Affine(f.0, f.1) == Times(e, s, P) else f == (0, 0)
  {
    hide *;
    var m, b := Prefix(s, 1), Bit(s, 0);
    GroupIsField(e);
    OrderFacts(e, P, n);
    StateIs(r, s, top, 1, z, e, P, n);
    NeverMeetsStep(s, top, 0, n);
    PrefixBit(s, 0);
    PrefixZero(s);
    if NeverMeets(s, top, 1, n) && (2 * m + 1) % n != 0 {
      FinalOnTrack(r, m, b, z, e, P, n);
    } else {
      if NeverMeets(s, top, 1, n) {
        MeetingAddC(r, m, b, z, e, P, n);
      } else {
        CollapsedOrdered(r, b, e.p);
        CollapsedAddC(Ordered(r, b), e.p);
      }
      FinalCollapsed(r, b, P.x, P.y, e.p);
    }
  }

  lemma StateIs(r: Pair, s: nat, top: nat, i: nat, z: int, e: Elliptic, P: Point, n: nat)
    requires e.p > 3 && n > 0 && LadderState(r, s, top, i, z, e, P, n)
    ensures NeverMeets(s, top, i, n) ==>
              OnTrack(r, Prefix(s, i), z, e, P) && Prefix(s, i) % n != 0 && (Prefix(s, i) + 1) % n != 0
    ensures !NeverMeets(s, top, i, n) ==> Collapsed(Ordered(r, 0), e.p)
  {
    hide NeverMeets, OnTrack, Prefix, Collapsed;
  }

  lemma PrefixZero(s: nat)
    ensures Prefix(s, 0) == s
  {
    PowZero();
  }

  // -------------------------------------------------------- EccPoint_mult

  /** The number the ladder runs over: the scalar's bits below top, and the bit at top that is never read. */
  function EffectiveScalar(v: nat, top: nat): (s: nat)
    ensures Pow(2, top) <= s < Pow(2, top + 1)
  {
    Pow(2, top) + v % Pow(2, top)
  }

  /** XYcZ_addC(R[1-nb], R[nb]) */
  method ConjugateInPlace(rx: seq<array<nat>>, ry: seq<array<nat>>, nb: nat, w: nat, ghost r: Pair)
    requires nb <= 1 && |rx| == |ry| == 2 && WordSize(w)
    requires Fe(rx[0][..], w) && Fe(ry[0][..], w) && Fe(rx[1][..], w) && Fe(ry[1][..], w)
    requires rx[0] != rx[1] && rx[0] != ry[0] && rx[0] != ry[1] && rx[1] != ry[0] && rx[1] != ry[1] && ry[0] != ry[1]
    requires r == Pair(Val(rx[0][..], w), Val(ry[0][..], w), Val(rx[1][..], w), Val(ry[1][..], w))
    modifies rx[0], ry[0], rx[1], ry[1]
    ensures Fe(rx[0][..], w) && Fe(ry[0][..], w) && Fe(rx[1][..], w) && Fe(ry[1][..], w) && PrimeP() > 0
    ensures Pair(Val(rx[0][..], w), Val(ry[0][..], w), Val(rx[1][..], w), Val(ry[1][..], w))
         == Unordered(CoZAddC(Ordered(r, 1 - nb), PrimeP()), 1 - nb)
  {
    hide *;
    PrimeConstant(w);
    OrderedIs(r, 1 - nb);
    XYcZAddC(rx[1 - nb], ry[1 - nb], rx[nb], ry[nb], w);
    UnorderedIs(CoZAddC(Ordered(r, 1 - nb), PrimeP()), 1 - nb);
  }

  /** XYcZ_add(R[nb], R[1-nb]), from the pair that XYcZ_addC left. */
  method AddInPlace(rx: seq<array<nat>>, ry: seq<array<nat>>, nb: nat, w: nat, ghost c: Quad)
    requires nb <= 1 && |rx| == |ry| == 2 && WordSize(w)
    requires Fe(rx[0][..], w) && Fe(ry[0][..], w) && Fe(rx[1][..], w) && Fe(ry[1][..], w)
    requires rx[0] != rx[1] && rx[0] != ry[0] && rx[0] != ry[1] && rx[1] != ry[0] && rx[1] != ry[1] && ry[0] != ry[1]
    requires Unordered(c, 1 - nb) == Pair(Val(rx[0][..], w), Val(ry[0][..], w), Val(rx[1][..], w), Val(ry[1][..], w))
    modifies rx[0], ry[0], rx[1], ry[1]
    ensures Fe(rx[0][..], w) && Fe(ry[0][..], w) && Fe(rx[1][..], w) && Fe(ry[1][..], w) && PrimeP() > 0
    ensures Pair(Val(rx[0][..], w), Val(ry[0][..], w), Val(rx[1][..], w), Val(ry[1][..], w))
         == Unordered(Swapped(CoZAdd(Swapped(c), PrimeP())), 1 - nb)
  {
    hide *;
    PrimeConstant(w);
    UnorderedIs(c, 1 - nb);
    SwappedIs(c);
    XYcZAdd(rx[nb], ry[nb], rx[1 - nb], ry[1 - nb], w);
    SwappedIs(CoZAdd(Swapped(c), PrimeP()));
    UnorderedIs(Swapped(CoZAdd(Swapped(c), PrimeP())), 1 - nb);
  }

  lemma OrderedIs(r: Pair, b: nat)
    ensures Ordered(r, b) == if b == 0 then Quad(r.x0, r.y0, r.x1, r.y1) else Quad(r.x1, r.y1, r.x0, r.y0)
  {
  }

  lemma UnorderedIs(q: Quad, b: nat)
    ensures Unordered(q, b) == if b == 0 then Pair(q.x1, q.y1, q.x2, q.y2) else Pair(q.x2, q.y2, q.x1, q.y1)
  {
  }

  lemma SwappedIs(q: Quad)
    ensures Swapped(q) == Quad(q.x2, q.y2, q.x1, q.y1)
  {
  }

  /** The two calls of a round. */
  method RoundInPlace(rx: seq<array<nat>>, ry: seq<array<nat>>, nb: nat, w: nat)
    requires nb <= 1 && |rx| == |ry| == 2 && WordSize(w)
    requires Fe(rx[0][..], w) && Fe(ry[0][..], w) && Fe(rx[1][..], w) && Fe(ry[1][..], w)
    requires rx[0] != rx[1] && rx[0] != ry[0] && rx[0] != ry[1] && rx[1] != ry[0] && rx[1] != ry[1] && ry[0] != ry[1]
    modifies rx[0], ry[0], rx[1], ry[1]
    ensures Fe(rx[0][..], w) && Fe(ry[0][..], w) && Fe(rx[1][..], w) && Fe(ry[1][..], w)
    ensures Pair(Val(rx[0][..], w), Val(ry[0][..], w), Val(rx[1][..], w), Val(ry[1][..], w))
         == Round(old(Pair(Val(rx[0][..], w), Val(ry[0][..], w), Val(rx[1][..], w), Val(ry[1][..], w))),
                  1 - nb, PrimeP())
  {
    hide *;
    ghost var r := Pair(Val(rx[0][..], w), Val(ry[0][..], w), Val(rx[1][..], w), Val(ry[1][..], w));
    ConjugateInPlace(rx, ry, nb, w, r);
    ghost var c := CoZAddC(Ordered(r, 1 - nb), PrimeP());
    AddInPlace(rx, ry, nb, w, c);
    RoundIs(r, 1 - nb, PrimeP(), c);
  }

  lemma RoundIs(r: Pair, b: nat, p: nat, c: Quad)
    requires p > 0 && c == CoZAddC(Ordered(r, b), p)
    ensures Round(r, b, p) == Unordered(Swapped(CoZAdd(Swapped(c), p)), b)
  {
    hide CoZAdd, CoZAddC, Ordered, Unordered, Swapped;
  }

  /** The factor the final apply_z uses, as EccPoint_mult recovers it. */
  method FinalZInPlace(z: array<nat>, x0: array<nat>, x1: array<nat>, yb: array<nat>, xb: array<nat>,
                       px: array<nat>, py: array<nat>, w: nat)
    requires WordSize(w) && Fe(x0[..], w) && Fe(x1[..], w) && Fe(yb[..], w) && Fe(xb[..], w)
    requires Fe(px[..], w) && Fe(py[..], w) && z.Length == NumWords(w) && IsPrime(PrimeP())
    requires z != x0 && z != x1 && z != yb && z != xb && z != px && z != py
    modifies z
    ensures Fe(z[..], w)
    ensures Val(z[..], w) == FinalZ(FSub(Val(x1[..], w), Val(x0[..], w), PrimeP()), Val(yb[..], w), Val(xb[..], w),
                                    Val(px[..], w), Val(py[..], w), PrimeP())
  {
    hide *;
    PrimeConstant(w);
    FieldSub(z, x1, x0, w);
    FieldMult(z, z, yb, w);
    FieldMult(z, z, px, w);   // z holds the factor of the last common Z that is known
    ghost var t := Val(z[..], w);
    FieldInv(z, z, w);
    FieldMult(z, z, py, w);
    FieldMult(z, z, xb, w);   // z holds the inverse of the last common Z
    FinalZIs(FSub(Val(x1[..], w), Val(x0[..], w), PrimeP()), Val(yb[..], w), Val(xb[..], w),
             Val(px[..], w), Val(py[..], w), PrimeP());
  }

  lemma FinalZIs(dx: nat, yb: nat, xb: nat, x: nat, y: nat, p: nat)
    requires p >= 2
    ensures var t := FMul(FMul(dx, yb, p), x, p);
      FinalZ(dx, yb, xb, x, y, p) == FMul(FMul(if t == 0 then 0 else FInv(t, p), y, p), xb, p)
  {
    hide FMul, FInv;
  }

  /** The last round: XYcZ_addC, the 1/Z computation, XYcZ_add and apply_z. */
  method LastRound(rx: seq<array<nat>>, ry: seq<array<nat>>, nb: nat, px: array<nat>, py: array<nat>, w: nat)
    requires nb <= 1 && |rx| == |ry| == 2 && WordSize(w) && IsPrime(PrimeP())
    requires Fe(rx[0][..], w) && Fe(ry[0][..], w) && Fe(rx[1][..], w) && Fe(ry[1][..], w)
    requires rx[0] != rx[1] && rx[0] != ry[0] && rx[0] != ry[1] && rx[1] != ry[0] && rx[1] != ry[1] && ry[0] != ry[1]
    requires Fe(px[..], w) && Fe(py[..], w)
    requires px !in {rx[0], rx[1], ry[0], ry[1]} && py !in {rx[0], rx[1], ry[0], ry[1]}
    modifies rx[0], ry[0], rx[1], ry[1]
    ensures Fe(rx[0][..], w) && Fe(ry[0][..], w)
    ensures (Val(rx[0][..], w), Val(ry[0][..], w))
         == FinalPoint(old(Pair(Val(rx[0][..], w), Val(ry[0][..], w), Val(rx[1][..], w), Val(ry[1][..], w))), 1 - nb,
                       Val(px[..], w), Val(py[..], w), PrimeP())
  {
    hide *;
    ghost var r := Pair(Val(rx[0][..], w), Val(ry[0][..], w), Val(rx[1][..], w), Val(ry[1][..], w));
    PrimeConstant(w);
    FeFacts(px[..], w);
    ConjugateInPlace(rx, ry, nb, w, r);
    ghost var c := CoZAddC(Ordered(r, 1 - nb), PrimeP());
    UnorderedIs(c, 1 - nb);
    var z := new nat[px.Length];
    FinalZInPlace(z, rx[0], rx[1], ry[1 - nb], rx[1 - nb], px, py, w);
    ghost var fz := Val(z[..], w);
    AddInPlace(rx, ry, nb, w, c);
    FinalPointIs(r, 1 - nb, Val(px[..], w), Val(py[..], w), PrimeP(), c, fz);
    ApplyZInPlace(rx[0], ry[0], z, w);
  }

  lemma FinalPointIs(r: Pair, b: nat, x: nat, y: nat, p: nat, c: Quad, z: nat)
    requires p >= 2 && c == CoZAddC(Ordered(r, b), p)
    requires z == FinalZ(FSub(Unordered(c, b).x1, Unordered(c, b).x0, p), c.y1, c.x1, x, y, p)
    ensures var f := Unordered(Swapped(CoZAdd(Swapped(c), p)), b); FinalPoint(r, b, x, y, p) == ApplyZ(f.x0, f.y0, z, p)
  {
    hide CoZAdd, CoZAddC, FinalZ, ApplyZ, FSub, Ordered, Unordered, Swapped;
  }

  /** The pair after the bits top-1 down to i of s. */
  function Rounds(r: Pair, s: nat, top: nat, i: nat, p: nat): (last: Pair)
    requires p > 0
    decreases top - i
  {
    if i >= top then r else Round(Rounds(r, s, top, i + 1, p), Bit(s, i), p)
  }

  /** The pair XYcZ_initial_double starts the loop with. */
  function StartPair(x: nat, y: nat, z: nat, p: nat): (r: Pair)
    requires p > 0
  {
    var a := ApplyZ(x, y, z, p);
    var d := DoubleJacobian(Jacobian(a.0, a.1, z), p);
    var c := ApplyZ(x, y, d.z, p);
    Pair(c.0, c.1, d.x, d.y)
  }

  /** The coordinates EccPoint_mult returns for the point (x, y), the initial z and the scalar s. */
  function LadderResult(x: nat, y: nat, z: nat, s: nat, top: nat, p: nat): (r: (nat, nat))
    requires p >= 2
  {
    FinalPoint(Rounds(StartPair(x, y, z, p), s, top, 1, p), Bit(s, 0), x, y, p)
  }

  lemma RoundsStep(r: Pair, s: nat, top: nat, i: nat, p: nat)
    requires p > 0
    ensures i < top ==> Rounds(r, s, top, i, p) == Round(Rounds(r, s, top, i + 1, p), Bit(s, i), p)
    ensures Rounds(r, s, top, top, p) == r
  {
    hide Round;
  }

  /** EccPoint_mult. The scalar's bit num_bits - 1 is taken to be 1 and never read. */
  method EccPointMult(resultX: array<nat>, resultY: array<nat>, px: array<nat>, py: array<nat>, scalar: array<nat>,
                      initialZ: array?<nat>, numBits: nat, w: nat)
    requires WordSize(w) && IsPrime(PrimeP()) && Fe(px[..], w) && Fe(py[..], w)
    requires resultX.Length == resultY.Length == NumWords(w) && resultX != resultY
    requires numBits >= 2 && numBits - 1 <= w * scalar.Length && IsWords(scalar[..], w)
    requires initialZ != null ==> Fe(initialZ[..], w)
    modifies resultX, resultY
    ensures Fe(resultX[..], w) && Fe(resultY[..], w)
    ensures (Val(resultX[..], w), Val(resultY[..], w))
         == old(LadderResult(Val(px[..], w), Val(py[..], w), if initialZ == null then 1 else Val(initialZ[..], w),
                             EffectiveScalar(Val(scalar[..], w), numBits - 1), numBits - 1, PrimeP()))
  {
    hide *;
    PrimeConstant(w);
    FeFacts(px[..], w);
    FeFacts(py[..], w);
    ghost var p, top := PrimeP(), numBits - 1;
    ghost var x, y, v := Val(px[..], w), Val(py[..], w), Val(scalar[..], w);
    ghost var z := if initialZ == null then 1 else Val(initialZ[..], w);
    ghost var s, ks := EffectiveScalar(v, top), scalar[..];
    var x0, y0 := new nat[NumWords(w)], new nat[NumWords(w)];
    var x1 := Clone(px);
    var y1 := Clone(py);
    var rx, ry := [x0, x1], [y0, y1];
    ghost var z' := XYcZInitialDouble(x1, y1, x0, y0, initialZ, w);
    ghost var start := StartPair(x, y, z, p);
    StartIs(x, y, z, p);
    RoundsStep(start, s, top, top, p);
    SizeFacts(w);
    assert scalar[..] == ks;
    RunRounds(rx, ry, scalar, numBits, w, start, s);
    var on := TestScalarBit(scalar, 0, top, w);
    var nb := if on then 0 else 1;
    LastRound(rx, ry, nb, px, py, w);
    LadderResultIs(x, y, z, s, top, p);
    FeFacts(x0[..], w);
    FeFacts(y0[..], w);
    Copy(resultX, x0);
    Copy(resultY, y0);
  }

  /** ecdsa_vli_testBit on the scalar, as a bit of the effective scalar. */
  method TestScalarBit(scalar: array<nat>, i: nat, ghost top: nat, w: nat) returns (on: bool)
    requires w >= 1 && i < top <= w * scalar.Length && IsWords(scalar[..], w)
    ensures Bit(EffectiveScalar(Val(scalar[..], w), top), i) == 1 - (if on then 0 else 1)
  {
    hide *;
    ghost var v := Val(scalar[..], w);
    on := VliTestBit(scalar, i, w);
    LowerBits(v, top, i);
    EffectiveIs(v, top);
    BitOfTest(v, i, on);
  }

  /** The loop of EccPoint_mult over bits num_bits - 2 down to 1. */
  method RunRounds(rx: seq<array<nat>>, ry: seq<array<nat>>, scalar: array<nat>, numBits: nat, w: nat,
                   ghost start: Pair, ghost s: nat)
    requires |rx| == |ry| == 2 && WordSize(w) && w >= 1
    requires Fe(rx[0][..], w) && Fe(ry[0][..], w) && Fe(rx[1][..], w) && Fe(ry[1][..], w)
    requires rx[0] != rx[1] && rx[0] != ry[0] && rx[0] != ry[1] && rx[1] != ry[0] && rx[1] != ry[1] && ry[0] != ry[1]
    requires scalar !in {rx[0], rx[1], ry[0], ry[1]} && PrimeP() > 0
    requires numBits >= 2 && numBits - 1 <= w * scalar.Length && IsWords(scalar[..], w)
    requires start == Pair(Val(rx[0][..], w), Val(ry[0][..], w), Val(rx[1][..], w), Val(ry[1][..], w))
    requires s == EffectiveScalar(Val(scalar[..], w), numBits - 1)
    modifies rx[0], ry[0], rx[1], ry[1]
    ensures Fe(rx[0][..], w) && Fe(ry[0][..], w) && Fe(rx[1][..], w) && Fe(ry[1][..], w)
    ensures Pair(Val(rx[0][..], w), Val(ry[0][..], w), Val(rx[1][..], w), Val(ry[1][..], w))
         == Rounds(start, s, numBits - 1, 1, PrimeP())
  {
    hide *;
    ghost var p, top := PrimeP(), numBits - 1;
    RoundsStep(start, s, top, top, p);
    var i := numBits - 2;
    while i > 0
      invariant 0 <= i <= numBits - 2
      invariant Fe(rx[0][..], w) && Fe(ry[0][..], w) && Fe(rx[1][..], w) && Fe(ry[1][..], w)
      invariant Pair(Val(rx[0][..], w), Val(ry[0][..], w), Val(rx[1][..], w), Val(ry[1][..], w))
             == Rounds(start, s, top, i + 1, p)
    {
      var on := TestScalarBit(scalar, i, top, w);
      var nb := if on then 0 else 1;
      RoundInPlace(rx, ry, nb, w);
      RoundsStep(start, s, top, i, p);
      i := i - 1;
    }
  }

  lemma BitOfTest(v: nat, i: nat, on: bool)
    requires on <==> Bit(v, i) == 1
    ensures Bit(v, i) == 1 - (if on then 0 else 1)
  {
  }

  lemma EffectiveIs(v: nat, top: nat)
    ensures EffectiveScalar(v, top) == Pow(2, top) + v % Pow(2, top)
  {
  }

  lemma StartIs(x: nat, y: nat, z: nat, p: nat)
    requires p > 0
    ensures var a := ApplyZ(x, y, z, p);
      var d := DoubleJacobian(Jacobian(a.0, a.1, z), p);
      var c := ApplyZ(x, y, d.z, p);
      StartPair(x, y, z, p) == Pair(c.0, c.1, d.x, d.y)
  {
    hide ApplyZ, DoubleJacobian;
  }

  lemma LadderResultIs(x: nat, y: nat, z: nat, s: nat, top: nat, p: nat)
    requires p >= 2
    ensures LadderResult(x, y, z, s, top, p)
         == FinalPoint(Rounds(StartPair(x, y, z, p), s, top, 1, p), Bit(s, 0), x, y, p)
  {
    hide FinalPoint, Rounds, StartPair, Bit;
  }

  // --------------------------------------------------------- the theorem

  lemma {:induction false} RoundsState(r: Pair, s: nat, top: nat, i: nat, z: int, e: Elliptic, P: Point, n: nat)
    returns (z': int)
    requires IsGroup(e) && HasOrder(e, P, n) && i <= top && LadderState(r, s, top, top, z, e, P, n)
    ensures LadderState(Rounds(r, s, top, i, e.p), s, top, i, z', e, P, n)
    decreases top - i
  {
    OrderKnown(e, P, n);
    hide *;
    RoundsStep(r, s, top, i, e.p);
    if i == top {
      z' := z;
    } else {
      z' := RoundsState(r, s, top, i + 1, z, e, P, n);
      z' := LadderRound(Rounds(r, s, top, i + 1, e.p), s, top, i, z', e, P, n);
    }
  }

  lemma OrderKnown(e: Elliptic, P: Point, n: nat)
    requires IsGroup(e) && HasOrder(e, P, n)
    ensures e.p > 3 && n > 2
  {
  }

  lemma ZeroX(dx: nat, yb: nat, xb: nat, y: nat, p: nat)
    requires p >= 2
    ensures FinalZ(dx, yb, xb, 0, y, p) == 0
  {
    ModSmall(0, p);
    assert FMul(dx, yb, p) * 0 == 0 && 0 * y == 0 && 0 * xb == 0;
  }

  lemma FinalPointZeroX(r: Pair, b: nat, y: nat, p: nat)
    requires p >= 2
    ensures FinalPoint(r, b, 0, y, p) == (0, 0)
  {
    var c := CoZAddC(Ordered(r, b), p);
    var u := Unordered(c, b);
    ZeroX(FSub(u.x1, u.x0, p), c.y1, c.x1, y, p);
    var f := Unordered(Swapped(CoZAdd(Swapped(c), p)), b);
    ApplyZero(f.x0, f.y0, p);
    hide CoZAdd, CoZAddC, ApplyZ, FinalZ, FSub;
  }

  /**
   The ladder's exact outcome, for a point of prime order and any initial z: s * P when the point has
   non-zero x and no prefix m of s has n dividing 2m + 1; otherwise (0, 0).
   */
  lemma LadderTheorem(e: Elliptic, P: Point, n: nat, z: nat, s: nat, top: nat)
    requires IsGroup(e) && HasOrder(e, P, n) && 0 < z < e.p && P.Affine?
    requires top >= 1 && Pow(2, top) <= s < Pow(2, top + 1)
    ensures var f := LadderResult(P.x, P.y, z, s, top, e.p);
      if P.x != 0 && NeverMeets(s, top, 0, n) then Affine(f.0, f.1) == Times(e, s, P) else f == (0, 0)
  {
    OrderKnown(e, P, n);
    hide *;
    var p := e.p;
    var r := StartPair(P.x, P.y, z, p);
    LadderResultIs(P.x, P.y, z, s, top, p);
    if P.x == 0 {
      FinalPointZeroX(Rounds(r, s, top, 1, p), Bit(s, 0), P.y, p);
    } else {
      StartIs(P.x, P.y, z, p);
      LadderStart(z, e, P, n, s, top);
      var z0 := DoubleJacobian(Jacobian(ApplyZ(P.x, P.y, z, p).0, ApplyZ(P.x, P.y, z, p).1, z), p).z;
      var z1 := RoundsState(r, s, top, 1, z0, e, P, n);
      LadderEnd(Rounds(r, s, top, 1, p), s, top, z1, e, P, n);
    }
  }
}
