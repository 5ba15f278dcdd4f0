/**
 The joint double-and-add loop of ecdsa_verify (Shamir's trick) over an inversion-free point with its
 own Z: with u1 and u2 read bit by bit it computes u1 * G + u2 * Q, as long as no addition meets two
 points with the same x; after such a meeting Z is zero for good and the final x is zero.
 */
module Shamir {
  import opened Arith
  import opened Field
  import opened Curve
  import opened CoZ
  import opened Ladder

  /** The coordinates points[1..4] holds: G, the public key and their sum. */
  datatype Table = Table(g: (nat, nat), q: (nat, nat), sum: (nat, nat))

  function Select(t: Table, index: nat): (r: (nat, nat))
  {
    if index == 1 then t.g else if index == 2 then t.q else t.sum
  }

  /** The index of the point added for bit i. */
  function Index(u1: nat, u2: nat, i: nat): (r: nat)
    ensures r <= 3
  {
    Bit(u1, i) + 2 * Bit(u2, i)
  }

  /** sum = G + Q by XYcZ_add, a field inversion and apply_z. */
  function SumPoint(g: (nat, nat), q: (nat, nat), p: nat): (sum: (nat, nat))
    requires p >= 2
  {
    var z := FSub(q.0, g.0, p);
    var r := CoZAdd(Quad(g.0, g.1, q.0, q.1), p);
    ApplyZ(r.x2, r.y2, if z == 0 then 0 else FInv(z, p), p)
  }

  /** Adding a table point to the running point: apply_z, XYcZ_add, z = z * (rx - tx). */
  function AddPoint(j: Jacobian, t: (nat, nat), p: nat): (sum: Jacobian)
    requires p > 0
  {
    var a := ApplyZ(t.0, t.1, j.z, p);
    var r := CoZAdd(Quad(a.0, a.1, j.x, j.y), p);
    Jacobian(r.x2, r.y2, FMul(j.z, FSub(j.x, a.0, p), p))
  }

  /** One iteration: double, then add the point the two bits select, if any. */
  function ShamirStep(j: Jacobian, index: nat, t: Table, p: nat): (r: Jacobian)
    requires p > 0
  {
    var d := DoubleJacobian(j, p);
    if index == 0 then d else AddPoint(d, Select(t, index), p)
  }

  /** The running point after the bits top down to i. */
  function JointSum(u1: nat, u2: nat, top: nat, i: nat, t: Table, p: nat): (r: Jacobian)
    requires p > 0
    decreases top - i
  {
    if i >= top then
      var s := Select(t, Index(u1, u2, top));
      Jacobian(s.0, s.1, 1)
    else
      ShamirStep(JointSum(u1, u2, top, i + 1, t, p), Index(u1, u2, i), t, p)
  }

  /** The affine x the loop's result is brought back to. */
  function FinalX(j: Jacobian, p: nat): (r: nat)
    requires p >= 2
  {
    ApplyZ(j.x, j.y, if j.z == 0 then 0 else FInv(j.z, p), p).0
  }

  lemma JointSumUnfold(u1: nat, u2: nat, top: nat, i: nat, t: Table, p: nat)
    requires p > 0
    ensures i < top ==>
              JointSum(u1, u2, top, i, t, p) == ShamirStep(JointSum(u1, u2, top, i + 1, t, p), Index(u1, u2, i), t, p)
    ensures var s := Select(t, Index(u1, u2, top));
      JointSum(u1, u2, top, top, t, p) == Jacobian(s.0, s.1, 1)
  {
    hide ShamirStep, Index, Select;
  }

  // ------------------------------------------------------ the scalars reached

  /** The multiple of G added for bit i when the public key is d * G. */
  function Added(u1: nat, u2: nat, d: nat, i: nat): (r: nat)
  {
    Bit(u1, i) + d * Bit(u2, i)
  }

  /** (u1 >> i) + d * (u2 >> i). */
  function Reached(u1: nat, u2: nat, d: nat, i: nat): (r: nat)
  {
    Prefix(u1, i) + d * Prefix(u2, i)
  }

  /** Doubling a*G and adding t*G meets neither the same point nor its opposite. */
  predicate Apart(a: nat, t: nat, n: nat)
    requires n > 0
  {
    (2 * a - t) % n != 0 && (2 * a + t) % n != 0
  }

  /** No addition of the run, from bit top - 1 down to i, meets two points with the same x. */
  ghost predicate NonDegenerate(u1: nat, u2: nat, d: nat, top: nat, i: nat, n: nat)
    requires n > 0
  {
    forall l {:trigger Index(u1, u2, l)} :: i <= l < top && Index(u1, u2, l) != 0 ==>
      Apart(Reached(u1, u2, d, l + 1), Added(u1, u2, d, l), n)
  }

  lemma NonDegenerateStep(u1: nat, u2: nat, d: nat, top: nat, i: nat, n: nat)
    requires n > 0 && i < top
    ensures NonDegenerate(u1, u2, d, top, i, n)
       <==> NonDegenerate(u1, u2, d, top, i + 1, n)
            && (Index(u1, u2, i) != 0 ==> Apart(Reached(u1, u2, d, i + 1), Added(u1, u2, d, i), n))
  {
    hide Index, Reached, Added, Apart;
  }

  lemma ReachedStep(u1: nat, u2: nat, d: nat, i: nat)
    ensures Reached(u1, u2, d, i) == 2 * Reached(u1, u2, d, i + 1) + Added(u1, u2, d, i)
  {
    PrefixBit(u1, i);
    PrefixBit(u2, i);
    hide Prefix, Bit;
    ReachedSum(d, Prefix(u2, i), Prefix(u2, i + 1), Bit(u2, i));
  }

  lemma ReachedSum(d: nat, x: nat, y: nat, b: nat)
    requires x == 2 * y + b
    ensures d * x == 2 * (d * y) + d * b
  {
  }

  /** The multiple of G that u1 * G + u2 * (d * G) is. */
  function JointScalar(u1: nat, u2: nat, d: nat): (k: nat)
  {
    u1 + d * u2
  }

  lemma JointScalarIs(u1: nat, u2: nat, d: nat)
    ensures JointScalar(u1, u2, d) == u1 + d * u2
  {
  }

  lemma ReachedEnd(u1: nat, u2: nat, d: nat)
    ensures Reached(u1, u2, d, 0) == JointScalar(u1, u2, d)
  {
    PrefixZero(u1);
    PrefixZero(u2);
    hide Prefix;
  }

  /** At the top bit, all that has been reached is the point added there. */
  lemma ReachedTop(u1: nat, u2: nat, d: nat, top: nat)
    requires u1 < Pow(2, top + 1) && u2 < Pow(2, top + 1)
    ensures Reached(u1, u2, d, top) == Added(u1, u2, d, top)
  {
    TopPrefix(u1, top);
    TopPrefix(u2, top);
    hide Prefix, Bit;
  }

  lemma TopPrefix(u: nat, top: nat)
    requires u < Pow(2, top + 1)
    ensures Prefix(u, top) == Bit(u, top)
  {
    PrefixBit(u, top);
    ModSmall(u, Pow(2, top + 1));
    assert Prefix(u, top + 1) == 0 by { hide *; PrefixIs(u, top + 1); }
    hide Prefix, Bit;
  }

  lemma PrefixIs(u: nat, i: nat)
    ensures Prefix(u, i) == u / Pow(2, i)
  {
  }

  lemma IndexCases(u1: nat, u2: nat, d: nat, i: nat)
    ensures Index(u1, u2, i) == 0 ==> Added(u1, u2, d, i) == 0
    ensures Index(u1, u2, i) == 1 ==> Added(u1, u2, d, i) == 1
    ensures Index(u1, u2, i) == 2 ==> Added(u1, u2, d, i) == d
    ensures Index(u1, u2, i) == 3 ==> Added(u1, u2, d, i) == 1 + d
  {
    var b1, b2 := Bit(u1, i), Bit(u2, i);
    hide Bit;
    assert d * 0 == 0 && d * 1 == d;
  }

  // ------------------------------------------------------------ group facts

  /** Two finite multiples have the same x just when they are equal or opposite. */
  lemma SameXMultiples(e: Elliptic, a: nat, t: nat, P: Point, n: nat)
    requires IsGroup(e) && HasOrder(e, P, n) && a % n != 0 && t % n != 0
    ensures var A, T := Times(e, a, P), Times(e, t, P);
      && A.Affine? && T.Affine? && OnCurve(e, A) && OnCurve(e, T)
      && (A.x == T.x <==> (a - t) % n == 0 || (a + t) % n == 0)
  {
    OrderFacts(e, P, n);
    hide *;
    GroupIsField(e);
    TimesOnCurve(e, a, P);
    TimesOnCurve(e, t, P);
    TimesIsInfinity(e, a, P, n);
    TimesIsInfinity(e, t, P, n);
    XDecides(e, Times(e, a, P), Times(e, t, P));
    TimesOpposite(e, a, t, P, n);
    if t <= a {
      TimesEqual(e, t, a, P, n);
    } else {
      TimesEqual(e, a, t, P, n);
      NegatedMultiple(a, t, n);
    }
  }

  lemma NegatedMultiple(a: int, b: int, n: nat)
    requires n > 0
    ensures (a - b) % n == 0 <==> (b - a) % n == 0
  {
    ModDiff(a, b, n);
    ModDiff(b, a, n);
  }

  // ------------------------------------------------------------- the table

  /** No bit position up to top is set in both scalars, so the entry G + Q is never used. */
  ghost predicate NoJoint(u1: nat, u2: nat, top: nat)
  {
    forall i :: 0 <= i <= top ==> Index(u1, u2, i) != 3
  }

  /** d * G is neither G nor -G. */
  predicate Ordinary(d: nat, n: nat)
  {
    1 < d < n - 1
  }

  /** The table entry G + Q is right, or it is not used. */
  ghost predicate SumUsable(u1: nat, u2: nat, d: nat, top: nat, n: nat)
  {
    0 < d < n && (Ordinary(d, n) || NoJoint(u1, u2, top))
  }

  /** Every entry of the table is the multiple of G that its index stands for, G + Q only when joint. */
  ghost predicate TableIs(t: Table, d: nat, e: Elliptic, P: Point, joint: bool)
    requires e.p > 3
  {
    && Affine(t.g.0, t.g.1) == P
    && Affine(t.q.0, t.q.1) == Times(e, d, P)
    && (joint ==> Affine(t.sum.0, t.sum.1) == Times(e, 1 + d, P))
  }

  lemma Selected(t: Table, u1: nat, u2: nat, d: nat, i: nat, e: Elliptic, P: Point, joint: bool)
    requires e.p > 3 && TableIs(t, d, e, P, joint) && Index(u1, u2, i) != 0
    requires Index(u1, u2, i) == 3 ==> joint
    ensures var s := Select(t, Index(u1, u2, i)); Affine(s.0, s.1) == Times(e, Added(u1, u2, d, i), P)
  {
    IndexCases(u1, u2, d, i);
    TimesOne(e, P);
    hide Times, Added, Bit;
  }

  lemma AddedNonZero(u1: nat, u2: nat, d: nat, i: nat, n: nat)
    requires n > 1 && d % n != 0 && Index(u1, u2, i) != 0 && (Index(u1, u2, i) == 3 ==> (d + 1) % n != 0)
    ensures Added(u1, u2, d, i) % n != 0
  {
    IndexCases(u1, u2, d, i);
    ModSmall(1, n);
    hide Index, Added;
  }

  lemma UnitRep(P: Point, p: nat)
    requires p > 1 && InPlane(P, p) && P.Affine?
    ensures Rep(P.x, P.y, 1, P, p)
  {
    ModSmall(P.x, p);
    ModSmall(P.y, p);
    ModSmall(1, p);
    assert P.x * (1 * 1) == P.x && P.y * (1 * (1 * 1)) == P.y;
  }

  lemma InverseOf(z: nat, p: nat)
    requires IsPrime(p) && z % p != 0
    ensures p >= 2 && (FInv(z, p) * z) % p == 1
  {
    InverseLaw(z, p);
    hide FInv;
    assert z * FInv(z, p) == FInv(z, p) * z;
  }

  /** The third entry is G + Q when the first two differ in x. */
  lemma SumIs(e: Elliptic, P: Point, Q: Point)
    requires IsField(e) && InPlane(P, e.p) && InPlane(Q, e.p) && P.Affine? && Q.Affine? && P.x != Q.x
    ensures var s := SumPoint((P.x, P.y), (Q.x, Q.y), e.p); Affine(s.0, s.1) == Add(e, P, Q)
  {
    FieldFacts(e);
    var p := e.p;
    var q := Quad(P.x, P.y, Q.x, Q.y);
    var r, z, S := CoZAdd(q, p), FSub(Q.x, P.x, p), Add(e, P, Q);
    assert SumPoint((P.x, P.y), (Q.x, Q.y), p) == ApplyZ(r.x2, r.y2, if z == 0 then 0 else FInv(z, p), p) by {
      hide CoZAdd, FSub, ApplyZ, FInv;
    }
    hide *;
    InPlaneRange(P, p);
    InPlaneRange(Q, p);
    UnitRep(P, e.p);
    UnitRep(Q, e.p);
    CoZAddCorrect(e, q, 1, P, Q);
    assert 1 * (Q.x - P.x) == Q.x - P.x;
    RepParts(r.x2, r.y2, Q.x - P.x, S, p);
    SumInPlane(e, P, Q);
    InPlaneRange(S, p);
    FSubResidue(Q.x, P.x, p);
    RepCong(r.x2, r.y2, Q.x - P.x, z, S, p);
    RepParts(r.x2, r.y2, z, S, p);
    ZeroResidue(p);
    InverseOf(z, p);
    ApplyInverseZ(r.x2, r.y2, z, FInv(z, p), S, p);
  }

  lemma FSubResidue(a: int, b: int, p: nat)
    requires p > 0
    ensures FSub(a, b, p) % p == (a - b) % p
  {
    ModIdem(a - b, p);
  }

  lemma ZeroResidue(p: nat)
    requires p > 0
    ensures 0 % p == 0
  {
    ModSmall(0, p);
  }

  /** The table of ecdsa_verify holds G, d*G and, for d other than 1 and n - 1, (1 + d)*G. */
  lemma TableLaw(t: Table, d: nat, e: Elliptic, P: Point, n: nat)
    requires IsGroup(e) && HasOrder(e, P, n) && 0 < d < n
    requires P.Affine? && t.g == (P.x, P.y) && Affine(t.q.0, t.q.1) == Times(e, d, P)
    requires e.p >= 2 && t.sum == SumPoint(t.g, t.q, e.p)
    ensures TableIs(t, d, e, P, Ordinary(d, n))
  {
    OrderFacts(e, P, n);
    OrderKnown(e, P, n);
    OrdinaryIs(d, n);
    hide *;
    if Ordinary(d, n) {
      GroupIsField(e);
      SmallResidues(d, n);
      SameXMultiples(e, d, 1, P, n);
      TimesOne(e, P);
      OnCurveRange(e, P);
      OnCurveRange(e, Times(e, d, P));
      SumIs(e, P, Times(e, d, P));
      TimesAdd(e, 1, d, P);
    }
    TableIntro(t, d, e, P, Ordinary(d, n));
  }

  lemma OrdinaryIs(d: nat, n: nat)
    ensures Ordinary(d, n) <==> 1 < d < n - 1
  {
  }

  lemma SmallResidues(d: nat, n: nat)
    requires 1 < d < n - 1
    ensures d % n != 0 && 1 % n != 0 && (d - 1) % n != 0 && (d + 1) % n != 0
  {
    ModSmall(d, n);
    ModSmall(1, n);
    ModSmall(d - 1, n);
    ModSmall(d + 1, n);
  }

  lemma TableIntro(t: Table, d: nat, e: Elliptic, P: Point, joint: bool)
    requires e.p > 3 && P == Affine(t.g.0, t.g.1) && Affine(t.q.0, t.q.1) == Times(e, d, P)
    requires joint ==> Affine(t.sum.0, t.sum.1) == Times(e, 1 + d, P)
    ensures TableIs(t, d, e, P, joint)
  {
    hide Times;
  }

  // ------------------------------------------------------- the affine run

  /** The same loop on affine points, by the chord and tangent formulas; Infinity once they do not apply. */
  function AffineRun(u1: nat, u2: nat, top: nat, i: nat, t: Table, e: Elliptic): (A: Point)
    requires e.p > 3
    decreases top - i
  {
    if i >= top then
      var s := Select(t, Index(u1, u2, top));
      Affine(s.0, s.1)
    else
      AffineStep(AffineRun(u1, u2, top, i + 1, t, e), Index(u1, u2, i), t, e)
  }

  /** The tangent, then the chord to the table point. */
  function AffineStep(A: Point, index: nat, t: Table, e: Elliptic): (B: Point)
    requires e.p > 3
  {
    var D := Add(e, A, A);
    if index == 0 then D else ApartSum(e, D, Affine(Select(t, index).0, Select(t, index).1))
  }

  /** The chord sum of two points that differ in x. */
  function ApartSum(e: Elliptic, D: Point, T: Point): (B: Point)
    requires e.p > 3 && T.Affine?
  {
    if D.Infinity? || D.x == T.x then Infinity else Add(e, T, D)
  }

  /** The x that is left at the end: 0 for a run that was lost. */
  function XOf(P: Point): (x: nat)
  {
    if P.Affine? then P.x else 0
  }

  lemma StepIs(j: Jacobian, index: nat, t: Table, p: nat)
    requires p > 0
    ensures index == 0 ==> ShamirStep(j, index, t, p) == DoubleJacobian(j, p)
    ensures index != 0 ==> ShamirStep(j, index, t, p) == AddPoint(DoubleJacobian(j, p), Select(t, index), p)
  {
    hide DoubleJacobian, AddPoint, Select;
  }

  lemma ResidueRange(a: int, p: nat)
    requires p > 0
    ensures 0 <= a % p < p && (a % p) % p == a % p
  {
    ModIdem(a, p);
  }

  lemma AddPointIs(j: Jacobian, t: (nat, nat), p: nat, a: (nat, nat), r: Quad)
    requires p > 0 && a == ApplyZ(t.0, t.1, j.z, p) && r == CoZAdd(Quad(a.0, a.1, j.x, j.y), p)
    ensures AddPoint(j, t, p) == Jacobian(r.x2, r.y2, (j.z * ((j.x - a.0) % p)) % p)
  {
    hide ApplyZ, CoZAdd;
  }

  lemma ScaledZ(z: nat, d: int, p: nat)
    requires p > 0
    ensures ((z * (d % p)) % p) % p == (z * d) % p && (z * (d % p)) % p < p
    ensures d == 0 ==> (z * (d % p)) % p == 0
  {
    ModIdem(d, p);
    ModMulCong(z, z, d % p, d, p);
    ModIdem(z * (d % p), p);
    ModSmall(0, p);
    if d == 0 {
      assert z * 0 == 0;
    }
  }

  lemma FinalXIs(j: Jacobian, p: nat)
    requires p >= 2
    ensures FinalX(j, p) == ApplyZ(j.x, j.y, if j.z == 0 then 0 else FInv(j.z, p), p).0
  {
    hide ApplyZ, FInv;
  }

  lemma AffineRunUnfold(u1: nat, u2: nat, top: nat, i: nat, t: Table, e: Elliptic)
    requires e.p > 3
    ensures i < top ==>
              AffineRun(u1, u2, top, i, t, e) == AffineStep(AffineRun(u1, u2, top, i + 1, t, e), Index(u1, u2, i), t, e)
    ensures var s := Select(t, Index(u1, u2, top)); AffineRun(u1, u2, top, top, t, e) == Affine(s.0, s.1)
  {
    hide AffineStep, Index, Select;
  }

  lemma AffineStepIs(A: Point, index: nat, t: Table, e: Elliptic)
    requires e.p > 3
    ensures index == 0 ==> AffineStep(A, index, t, e) == Add(e, A, A)
    ensures index != 0 ==>
              AffineStep(A, index, t, e) == ApartSum(e, Add(e, A, A), Affine(Select(t, index).0, Select(t, index).1))
  {
    hide Add, ApartSum, Select;
  }

  /** All coordinates of the table are reduced. */
  predicate TableInPlane(t: Table, p: nat)
  {
    t.g.0 < p && t.g.1 < p && t.q.0 < p && t.q.1 < p && t.sum.0 < p && t.sum.1 < p
  }

  lemma SelectInPlane(t: Table, index: nat, p: nat)
    requires TableInPlane(t, p)
    ensures Select(t, index).0 < p && Select(t, index).1 < p
  {
  }

  /** The running point is A over its Z, and Z is 0 for a run that was lost. */
  ghost predicate Tracks(j: Jacobian, A: Point, p: nat)
    requires p > 0
  {
    if A.Affine? then j.z < p && Rep(j.x, j.y, j.z, A, p) && InPlane(A, p) else j.z == 0
  }

  lemma TracksIs(j: Jacobian, A: Point, p: nat)
    requires p > 0
    ensures A.Affine? ==> (Tracks(j, A, p) <==> j.z < p && Rep(j.x, j.y, j.z, A, p) && InPlane(A, p))
    ensures A.Infinity? ==> (Tracks(j, A, p) <==> j.z == 0)
  {
    hide Rep, InPlane;
  }

  lemma SumInPlane(e: Elliptic, P: Point, Q: Point)
    requires e.p > 3 && InPlane(P, e.p) && InPlane(Q, e.p)
    ensures InPlane(Add(e, P, Q), e.p)
  {
    hide ThirdPoint, ChordSlope, TangentSlope;
  }

  lemma InfinityTwice(e: Elliptic)
    requires e.p > 3
    ensures Add(e, Infinity, Infinity) == Infinity
  {
  }

  lemma DoublesIsSame(j: Jacobian, p: nat)
    requires p > 0 && j.z == 0
    ensures DoubleJacobian(j, p) == j
  {
  }

  /** Doubling follows the tangent formula. */
  lemma TracksDouble(j: Jacobian, A: Point, e: Elliptic)
    requires IsField(e) && e.p > 3 && Tracks(j, A, e.p)
    ensures Tracks(DoubleJacobian(j, e.p), Add(e, A, A), e.p)
  {
    hide *;
    var p, r := e.p, DoubleJacobian(j, e.p);
    TracksIs(j, A, p);
    TracksIs(r, Add(e, A, A), p);
    if A.Infinity? {
      InfinityTwice(e);
      DoublesIsSame(j, p);
    } else {
      ModSmall(j.z, p);
      DoubleCorrect(e, j, j.z, A);
      SumInPlane(e, A, A);
      ResidueRange(j.y * j.z, p);
      if A.y != 0 {
        RepParts(r.x, r.y, j.y * j.z, Add(e, A, A), p);
        RepCong(r.x, r.y, j.y * j.z, r.z, Add(e, A, A), p);
      }
    }
  }

  lemma ApartSumIs(e: Elliptic, D: Point, T: Point)
    requires e.p > 3 && T.Affine?
    ensures ApartSum(e, D, T) == if D.Infinity? || D.x == T.x then Infinity else Add(e, T, D)
  {
    hide Add;
  }

  /** Adding a table point follows the chord formula, and Z becomes 0 when the two points have one x. */
  lemma TracksAdd(j: Jacobian, D: Point, s: (nat, nat), e: Elliptic)
    requires IsField(e) && e.p > 3 && Tracks(j, D, e.p) && s.0 < e.p && s.1 < e.p
    ensures Tracks(AddPoint(j, s, e.p), ApartSum(e, D, Affine(s.0, s.1)), e.p)
  {
    hide *;
    FieldFacts(e);
    var p, T := e.p, Affine(s.0, s.1);
    var a := ApplyZ(s.0, s.1, j.z, p);
    var q := Quad(a.0, a.1, j.x, j.y);
    var r := CoZAdd(q, p);
    AddPointIs(j, s, p, a, r);
    TracksIs(j, D, p);
    TracksIs(AddPoint(j, s, p), ApartSum(e, D, T), p);
    ApartSumIs(e, D, T);
    ScaledZ(j.z, j.x - a.0, p);
    if D.Infinity? {
      ZeroTimes((j.x - a.0) % p, p);
    } else {
      InPlaneRange(D, p);
      RepParts(j.x, j.y, j.z, D, p);
      ModSmall(j.z, p);
      ApplyZScales(T, j.z, p);
      RepX(a.0, a.1, j.x, j.y, j.z, T, D, e);
      if T.x != D.x {
        PointInPlane(s.0, s.1, p);
        CoZAddCorrect(e, q, j.z, T, D);
        SumInPlane(e, T, D);
        RepParts(r.x2, r.y2, j.z * (j.x - a.0), Add(e, T, D), p);
        RepCong(r.x2, r.y2, j.z * (j.x - a.0), (j.z * ((j.x - a.0) % p)) % p, Add(e, T, D), p);
      }
    }
  }

  lemma PointInPlane(x: nat, y: nat, p: nat)
    requires x < p && y < p
    ensures InPlane(Affine(x, y), p)
  {
  }

  lemma ZeroTimes(a: int, p: nat)
    requires p > 0
    ensures (0 * a) % p == 0
  {
    assert 0 * a == 0;
    ModSmall(0, p);
  }

  /** Every iteration tracks the affine run. */
  lemma {:induction false} RunTracks(u1: nat, u2: nat, top: nat, i: nat, t: Table, e: Elliptic)
    requires IsField(e) && e.p > 3 && TableInPlane(t, e.p) && i <= top
    ensures Tracks(JointSum(u1, u2, top, i, t, e.p), AffineRun(u1, u2, top, i, t, e), e.p)
    decreases top - i
  {
    hide *;
    var p := e.p;
    JointSumUnfold(u1, u2, top, i, t, p);
    AffineRunUnfold(u1, u2, top, i, t, e);
    if i == top {
      var s := Select(t, Index(u1, u2, top));
      SelectInPlane(t, Index(u1, u2, top), p);
      PointInPlane(s.0, s.1, p);
      UnitRep(Affine(s.0, s.1), p);
      TracksIs(Jacobian(s.0, s.1, 1), Affine(s.0, s.1), p);
    } else {
      RunTracks(u1, u2, top, i + 1, t, e);
      var j, A, index := JointSum(u1, u2, top, i + 1, t, p), AffineRun(u1, u2, top, i + 1, t, e), Index(u1, u2, i);
      TracksDouble(j, A, e);
      StepIs(j, index, t, p);
      AffineStepIs(A, index, t, e);
      if index != 0 {
        SelectInPlane(t, index, p);
        TracksAdd(DoubleJacobian(j, p), Add(e, A, A), Select(t, index), e);
      }
    }
  }

  /**
   The loop with its own Z and one inversion computes, for every table, on the curve or not, the x that the
   affine formulas give, and 0 when they do not apply.
   */
  lemma LoopIsAffine(u1: nat, u2: nat, top: nat, t: Table, e: Elliptic)
    requires IsField(e) && e.p > 3 && TableInPlane(t, e.p)
    ensures FinalX(JointSum(u1, u2, top, 0, t, e.p), e.p) == XOf(AffineRun(u1, u2, top, 0, t, e))
  {
    hide *;
    FieldFacts(e);
    var p, j, A := e.p, JointSum(u1, u2, top, 0, t, e.p), AffineRun(u1, u2, top, 0, t, e);
    RunTracks(u1, u2, top, 0, t, e);
    TracksIs(j, A, p);
    FinalXIs(j, p);
    XOfIs(A);
    if A.Affine? {
      InPlaneRange(A, p);
      RepParts(j.x, j.y, j.z, A, p);
      ZeroResidue(p);
      InverseOf(j.z, p);
      ApplyInverseZ(j.x, j.y, j.z, FInv(j.z, p), A, p);
    } else {
      ApplyZero(j.x, j.y, p);
    }
  }

  lemma XOfIs(P: Point)
    ensures XOf(P) == if P.Affine? then P.x else 0
  {
  }

  // ---------------------------------------------------------- the invariant

  /** Either the running point is Reached(i) * G over its Z, or Z is zero. */
  ghost predicate ShamirState(j: Jacobian, u1: nat, u2: nat, d: nat, top: nat, i: nat, e: Elliptic, P: Point, n: nat)
    requires e.p > 3 && n > 0
  {
    if NonDegenerate(u1, u2, d, top, i, n) then
      j.z < e.p && Rep(j.x, j.y, j.z, Times(e, Reached(u1, u2, d, i), P), e.p) && Reached(u1, u2, d, i) % n != 0
    else
      j.z == 0
  }

  lemma StateCases(j: Jacobian, u1: nat, u2: nat, d: nat, top: nat, i: nat, e: Elliptic, P: Point, n: nat)
    requires e.p > 3 && n > 0
    ensures NonDegenerate(u1, u2, d, top, i, n) ==>
              (ShamirState(j, u1, u2, d, top, i, e, P, n) <==>
                 j.z < e.p && Rep(j.x, j.y, j.z, Times(e, Reached(u1, u2, d, i), P), e.p)
                 && Reached(u1, u2, d, i) % n != 0)
    ensures !NonDegenerate(u1, u2, d, top, i, n) ==>
              (ShamirState(j, u1, u2, d, top, i, e, P, n) <==> j.z == 0)
  {
    hide NonDegenerate, Rep, Times, Reached;
  }

  lemma StepAtZero(j: Jacobian, index: nat, t: Table, p: nat)
    requires p > 0 && j.z == 0
    ensures ShamirStep(j, index, t, p).z == 0
  {
    ModSmall(0, p);
    assert DoubleJacobian(j, p) == j;
    var s := Select(t, index);
    var a := ApplyZ(s.0, s.1, 0, p);
    assert 0 * FSub(j.x, a.0, p) == 0;
    hide ApplyZ, CoZAdd, FSub, DoubleJacobian, Select;
  }

  /** Doubling k*G for k not divisible by the odd order. */
  lemma DoubleRound(j: Jacobian, k: nat, e: Elliptic, P: Point, n: nat)
    requires IsGroup(e) && HasOrder(e, P, n) && k % n != 0 && e.p > 3
    requires j.z < e.p && Rep(j.x, j.y, j.z, Times(e, k, P), e.p)
    ensures var r := DoubleJacobian(j, e.p);
      r.z < e.p && Rep(r.x, r.y, r.z, Times(e, 2 * k, P), e.p) && (2 * k) % n != 0
  {
    OrderFacts(e, P, n);
    hide *;
    GroupIsField(e);
    var r, A := DoubleJacobian(j, e.p), Times(e, k, P);
    TimesOnCurve(e, k, P);
    OnCurveRange(e, A);
    RepParts(j.x, j.y, j.z, A, e.p);
    TracksIs(j, A, e.p);
    TracksDouble(j, A, e);
    TimesAdd(e, k, k, P);
    TwiceNotZero(k, n);
    TimesIsInfinity(e, 2 * k, P, n);
    TracksIs(r, Times(e, 2 * k, P), e.p);
  }

  /** Adding t*G to k*G: exact when they differ in x, and Z = 0 when they do not. */
  lemma AddRound(j: Jacobian, s: (nat, nat), k: nat, t: nat, e: Elliptic, P: Point, n: nat)
    requires IsGroup(e) && HasOrder(e, P, n) && k % n != 0 && t % n != 0 && e.p > 3
    requires j.z < e.p && Rep(j.x, j.y, j.z, Times(e, k, P), e.p) && Affine(s.0, s.1) == Times(e, t, P)
    ensures var r := AddPoint(j, s, e.p);
      if (k - t) % n != 0 && (k + t) % n != 0 then
        r.z < e.p && Rep(r.x, r.y, r.z, Times(e, k + t, P), e.p)
      else
        r.z == 0
  {
    OrderFacts(e, P, n);
    hide *;
    GroupIsField(e);
    var p, A, T, r := e.p, Times(e, k, P), Times(e, t, P), AddPoint(j, s, e.p);
    SameXMultiples(e, k, t, P, n);
    OnCurveRange(e, A);
    OnCurveRange(e, T);
    TracksIs(j, A, p);
    TracksAdd(j, A, s, e);
    ApartSumIs(e, A, T);
    TracksIs(r, ApartSum(e, A, T), p);
    TimesAdd(e, t, k, P);
    TimesIsInfinity(e, k + t, P, n);
  }

  lemma ApartIs(a: nat, t: nat, n: nat)
    requires n > 0
    ensures Apart(a, t, n) <==> (2 * a - t) % n != 0 && (2 * a + t) % n != 0
  {
  }

  /** The residues that the additions at position i rely on. */
  lemma UsableAt(u1: nat, u2: nat, d: nat, top: nat, n: nat, i: nat)
    requires SumUsable(u1, u2, d, top, n) && n > 2 && i <= top
    ensures d % n != 0 && (Index(u1, u2, i) == 3 ==> Ordinary(d, n) && (d + 1) % n != 0)
  {
    ModSmall(d, n);
    if Ordinary(d, n) {
      ModSmall(d + 1, n);
    }
    hide Index;
  }

  /** Every iteration keeps the invariant. */
  lemma ShamirRound(j: Jacobian, u1: nat, u2: nat, d: nat, top: nat, i: nat, t: Table, e: Elliptic, P: Point, n: nat)
    requires IsGroup(e) && HasOrder(e, P, n) && e.p > 3 && n > 2 && i < top
    requires SumUsable(u1, u2, d, top, n) && TableIs(t, d, e, P, Ordinary(d, n))
    requires ShamirState(j, u1, u2, d, top, i + 1, e, P, n)
    ensures ShamirState(ShamirStep(j, Index(u1, u2, i), t, e.p), u1, u2, d, top, i, e, P, n)
  {
    hide *;
    var index, k, added := Index(u1, u2, i), Reached(u1, u2, d, i + 1), Added(u1, u2, d, i);
    var r := ShamirStep(j, index, t, e.p);
    StateCases(j, u1, u2, d, top, i + 1, e, P, n);
    StateCases(r, u1, u2, d, top, i, e, P, n);
    NonDegenerateStep(u1, u2, d, top, i, n);
    ReachedStep(u1, u2, d, i);
    StepIs(j, index, t, e.p);
    UsableAt(u1, u2, d, top, n, i);
    if NonDegenerate(u1, u2, d, top, i + 1, n) {
      DoubleRound(j, k, e, P, n);
      if index == 0 {
        IndexCases(u1, u2, d, i);
      } else {
        Selected(t, u1, u2, d, i, e, P, Ordinary(d, n));
        AddedNonZero(u1, u2, d, i, n);
        AddRound(DoubleJacobian(j, e.p), Select(t, index), 2 * k, added, e, P, n);
        ApartIs(k, added, n);
      }
    } else {
      StepAtZero(j, index, t, e.p);
    }
  }

  lemma {:induction false} ShamirInvariant(u1: nat, u2: nat, d: nat, top: nat, i: nat, t: Table,
                                           e: Elliptic, P: Point, n: nat)
    requires IsGroup(e) && HasOrder(e, P, n) && e.p > 3 && n > 2 && i <= top
    requires SumUsable(u1, u2, d, top, n) && TableIs(t, d, e, P, Ordinary(d, n))
    requires u1 < Pow(2, top + 1) && u2 < Pow(2, top + 1) && Index(u1, u2, top) != 0
    ensures ShamirState(JointSum(u1, u2, top, i, t, e.p), u1, u2, d, top, i, e, P, n)
    decreases top - i
  {
    hide *;
    JointSumUnfold(u1, u2, top, i, t, e.p);
    if i == top {
      OrderFacts(e, P, n);
      GroupIsField(e);
      NothingAddedYet(u1, u2, d, top, n);
      UsableAt(u1, u2, d, top, n, top);
      Selected(t, u1, u2, d, top, e, P, Ordinary(d, n));
      AddedNonZero(u1, u2, d, top, n);
      ReachedTop(u1, u2, d, top);
      TimesOnCurve(e, Added(u1, u2, d, top), P);
      OnCurveRange(e, Times(e, Added(u1, u2, d, top), P));
      UnitRep(Times(e, Added(u1, u2, d, top), P), e.p);
      StateCases(JointSum(u1, u2, top, top, t, e.p), u1, u2, d, top, top, e, P, n);
    } else {
      ShamirInvariant(u1, u2, d, top, i + 1, t, e, P, n);
      ShamirRound(JointSum(u1, u2, top, i + 1, t, e.p), u1, u2, d, top, i, t, e, P, n);
    }
  }

  lemma NothingAddedYet(u1: nat, u2: nat, d: nat, top: nat, n: nat)
    requires n > 0
    ensures NonDegenerate(u1, u2, d, top, top, n)
  {
  }

  lemma TableReduced(t: Table, d: nat, e: Elliptic, P: Point)
    requires IsField(e) && e.p > 3 && OnCurve(e, P) && P.Affine? && t.g == (P.x, P.y)
    requires Affine(t.q.0, t.q.1) == Times(e, d, P) && t.sum == SumPoint(t.g, t.q, e.p)
    ensures TableInPlane(t, e.p)
  {
    TimesOnCurve(e, d, P);
    OnCurveRange(e, P);
    OnCurveRange(e, Times(e, d, P));
    SumPointRange(t.g, t.q, e.p);
    hide Times, OnCurve, SumPoint, IsField;
  }

  lemma SumPointRange(g: (nat, nat), q: (nat, nat), p: nat)
    requires p >= 2
    ensures SumPoint(g, q, p).0 < p && SumPoint(g, q, p).1 < p
  {
    hide CoZAdd, FInv, FSub;
  }

  /**
   Shamir's trick, for every private key d. It computes the x that the same loop gives on affine points. For
   d other than 1 and n - 1, and for those two as long as no bit is set in both scalars, that is the x of
   u1 * G + u2 * (d * G) when no addition is degenerate, and zero when one is.
   */
  lemma ShamirTheorem(u1: nat, u2: nat, d: nat, top: nat, t: Table, e: Elliptic, P: Point, n: nat)
    requires IsGroup(e) && HasOrder(e, P, n) && e.p > 3 && n > 2 && 0 < d < n
    requires P.Affine? && t.g == (P.x, P.y) && Affine(t.q.0, t.q.1) == Times(e, d, P)
    requires t.sum == SumPoint(t.g, t.q, e.p)
    requires u1 < Pow(2, top + 1) && u2 < Pow(2, top + 1) && Index(u1, u2, top) != 0
    ensures FinalX(JointSum(u1, u2, top, 0, t, e.p), e.p) == XOf(AffineRun(u1, u2, top, 0, t, e))
    ensures var S := Times(e, JointScalar(u1, u2, d), P);
      var x := FinalX(JointSum(u1, u2, top, 0, t, e.p), e.p);
      SumUsable(u1, u2, d, top, n) ==>
        if NonDegenerate(u1, u2, d, top, 0, n) then S.Affine? && x == S.x else x == 0
  {
    hide *;
    OrderKills(e, P, n);
    GroupIsField(e);
    TableReduced(t, d, e, P);
    LoopIsAffine(u1, u2, top, t, e);
    if SumUsable(u1, u2, d, top, n) {
      UsableTable(u1, u2, d, top, t, e, P, n);
    }
  }

  lemma UsableTable(u1: nat, u2: nat, d: nat, top: nat, t: Table, e: Elliptic, P: Point, n: nat)
    requires IsGroup(e) && HasOrder(e, P, n) && e.p > 3 && n > 2 && SumUsable(u1, u2, d, top, n)
    requires P.Affine? && t.g == (P.x, P.y) && Affine(t.q.0, t.q.1) == Times(e, d, P)
    requires t.sum == SumPoint(t.g, t.q, e.p)
    requires u1 < Pow(2, top + 1) && u2 < Pow(2, top + 1) && Index(u1, u2, top) != 0
    ensures var S := Times(e, JointScalar(u1, u2, d), P);
      var x := FinalX(JointSum(u1, u2, top, 0, t, e.p), e.p);
      if NonDegenerate(u1, u2, d, top, 0, n) then S.Affine? && x == S.x else x == 0
  {
    hide *;
    OrderFacts(e, P, n);
    GroupIsField(e);
    FieldFacts(e);
    assert 0 < d < n by { SumUsableRange(u1, u2, d, top, n); }
    TableLaw(t, d, e, P, n);
    ShamirInvariant(u1, u2, d, top, 0, t, e, P, n);
    ReachedEnd(u1, u2, d);
    var p, j, S := e.p, JointSum(u1, u2, top, 0, t, e.p), Times(e, JointScalar(u1, u2, d), P);
    StateCases(j, u1, u2, d, top, 0, e, P, n);
    FinalXIs(j, p);
    if NonDegenerate(u1, u2, d, top, 0, n) {
      RepParts(j.x, j.y, j.z, S, p);
      ZeroResidue(p);
      InverseOf(j.z, p);
      TimesOnCurve(e, JointScalar(u1, u2, d), P);
      OnCurveRange(e, S);
      ApplyInverseZ(j.x, j.y, j.z, FInv(j.z, p), S, p);
    } else {
      ApplyZero(j.x, j.y, p);
    }
  }

  lemma SumUsableRange(u1: nat, u2: nat, d: nat, top: nat, n: nat)
    requires SumUsable(u1, u2, d, top, n)
    ensures 0 < d < n
  {
  }

  // -------------------------------------------- the keys G and -G, joint at the top

  /** For Q = G and Q = -G the table entry "G + Q" is (0, 0), whatever the true sum. */
  lemma SumOfSameX(g: (nat, nat), q: (nat, nat), p: nat)
    requires p >= 2 && g.0 == q.0
    ensures SumPoint(g, q, p) == (0, 0)
  {
    var r := CoZAdd(Quad(g.0, g.1, q.0, q.1), p);
    ModSmall(0, p);
    ApplyZero(r.x2, r.y2, p);
    hide CoZAdd, ApplyZ, FInv;
  }

  /** Doubling (0, 0) gives Z = 0. */
  lemma DoubleOfOrigin(p: nat, index: nat, t: Table)
    requires p > 1
    ensures ShamirStep(Jacobian(0, 0, 1), index, t, p).z == 0
  {
    var d := DoubleJacobian(Jacobian(0, 0, 1), p);
    ModSmall(0, p);
    assert d.z == 0;
    var s := Select(t, index);
    var a := ApplyZ(s.0, s.1, 0, p);
    assert 0 * FSub(d.x, a.0, p) == 0;
    hide ApplyZ, CoZAdd, FSub, DoubleJacobian, Select;
  }

  lemma {:induction false} OriginStaysLost(u1: nat, u2: nat, top: nat, i: nat, t: Table, p: nat)
    requires p > 1 && i < top && Index(u1, u2, top) == 3 && t.sum == (0, 0)
    ensures JointSum(u1, u2, top, i, t, p).z == 0
    decreases top - i
  {
    JointSumUnfold(u1, u2, top, i, t, p);
    if i + 1 == top {
      assert Select(t, 3) == (0, 0);
      hide ShamirStep, JointSum;
      DoubleOfOrigin(p, Index(u1, u2, i), t);
    } else {
      hide *;
      OriginStaysLost(u1, u2, top, i + 1, t, p);
      StepAtZero(JointSum(u1, u2, top, i + 1, t, p), Index(u1, u2, i), t, p);
    }
  }

  /** A run that starts from the entry (0, 0) ends with x = 0. */
  lemma OriginAtTop(u1: nat, u2: nat, top: nat, t: Table, p: nat)
    requires p > 1 && Index(u1, u2, top) == 3 && t.sum == (0, 0)
    ensures FinalX(JointSum(u1, u2, top, 0, t, p), p) == 0
  {
    var j := JointSum(u1, u2, top, 0, t, p);
    FinalXIs(j, p);
    ModSmall(0, p);
    if top == 0 {
      JointSumUnfold(u1, u2, top, 0, t, p);
      assert j == Jacobian(0, 0, 1);
      OriginScaled(FInv(1, p), p);
    } else {
      hide *;
      OriginStaysLost(u1, u2, top, 0, t, p);
      ApplyZero(j.x, j.y, p);
    }
  }

  lemma OriginScaled(z: nat, p: nat)
    requires p > 1
    ensures ApplyZ(0, 0, z, p).0 == 0
  {
    ModSmall(0, p);
    assert 0 * FMul(z, z, p) == 0;
  }

  // -------------------------------------------------- the table on affine points

  function YOf(P: Point): (y: nat)
  {
    if P.Affine? then P.y else 0
  }

  /** The table by the affine formulas: the chord sum of G and the key, and (0, 0) when they have one x. */
  function AffineTable(g: (nat, nat), q: (nat, nat), e: Elliptic): (t: Table)
    requires e.p > 3
  {
    var S := ApartSum(e, Affine(q.0, q.1), Affine(g.0, g.1));
    Table(g, q, (XOf(S), YOf(S)))
  }

  /** The table of ecdsa_verify is that table, for any two points of the plane. */
  lemma TableIsAffine(g: (nat, nat), q: (nat, nat), e: Elliptic)
    requires IsField(e) && e.p > 3 && g.0 < e.p && g.1 < e.p && q.0 < e.p && q.1 < e.p
    ensures AffineTable(g, q, e) == Table(g, q, SumPoint(g, q, e.p))
    ensures TableInPlane(AffineTable(g, q, e), e.p)
  {
    var G, Q := Affine(g.0, g.1), Affine(q.0, q.1);
    ApartSumIs(e, Q, G);
    SumPointRange(g, q, e.p);
    if g.0 == q.0 {
      SumOfSameX(g, q, e.p);
    } else {
      SumIs(e, G, Q);
    }
    hide SumPoint, ApartSum, Add, IsField;
  }

  // ------------------------------------------- public keys that are not reduced

  /** The table for the residues of the public key's coordinates. */
  function ReducedKey(t: Table, p: nat): (r: Table)
    requires p > 0
  {
    t.(q := (t.q.0 % p, t.q.1 % p))
  }

  /** The field operations only see residues. */
  lemma OperandsReduced(a: int, b: int, p: nat)
    requires p > 0
    ensures FMul(a % p, b, p) == FMul(a, b, p) && FAdd(a % p, b, p) == FAdd(a, b, p)
    ensures FSub(a % p, b, p) == FSub(a, b, p)
  {
    ModIdem(a, p);
    ModMulCong(a % p, a, b, b, p);
    ModAddCong(a % p, a, b, b, p);
  }

  lemma ApplyZReduced(x: int, y: int, z: int, p: nat)
    requires p > 0
    ensures ApplyZ(x % p, y % p, z, p) == ApplyZ(x, y, z, p)
  {
    OperandsReduced(x, FMul(z, z, p), p);
    OperandsReduced(y, FMul(FMul(z, z, p), z, p), p);
    hide FMul;
  }

  lemma CoZAddReduced(x1: nat, y1: nat, x2: nat, y2: nat, p: nat)
    requires p > 0
    ensures CoZAdd(Quad(x1, y1, x2 % p, y2 % p), p) == CoZAdd(Quad(x1, y1, x2, y2), p)
  {
    var d := FSub(x2, x1, p);
    OperandsReduced(x2, x1, p);
    OperandsReduced(x2, FMul(d, d, p), p);
    OperandsReduced(y2, y1, p);
    hide FMul, FSub;
  }

  lemma DoubleReduced(x: nat, y: nat, z: nat, p: nat)
    requires p > 0 && z != 0
    ensures DoubleJacobian(Jacobian(x % p, y % p, z), p) == DoubleJacobian(Jacobian(x, y, z), p)
  {
    hide *;
    DoubleUnfold(x, y, z, p);
    DoubleUnfold(x % p, y % p, z, p);
    OperandsReduced(x, FMul(y, y, p), p);
    OperandsReduced(x, FMul(z, z, p), p);
    OperandsReduced(y, z, p);
    SquareReduced(y, p);
  }

  lemma SquareReduced(y: int, p: nat)
    requires p > 0
    ensures FMul(y % p, y % p, p) == FMul(y, y, p)
  {
    ModMul(y, y, p);
  }

  lemma SumPointReduced(g: (nat, nat), q: (nat, nat), p: nat)
    requires p >= 2
    ensures SumPoint(g, (q.0 % p, q.1 % p), p) == SumPoint(g, q, p)
  {
    CoZAddReduced(g.0, g.1, q.0, q.1, p);
    OperandsReduced(q.0, g.0, p);
    hide CoZAdd, ApplyZ, FInv, FSub;
  }

  lemma StepReduced(j: Jacobian, index: nat, t: Table, p: nat)
    requires p > 0
    ensures ShamirStep(j, index, ReducedKey(t, p), p) == ShamirStep(j, index, t, p)
  {
    ApplyZReduced(t.q.0, t.q.1, DoubleJacobian(j, p).z, p);
    hide DoubleJacobian, ApplyZ, CoZAdd, FSub, FMul;
  }

  /** From the second position on, the run for unreduced coordinates is the run for their residues. */
  lemma {:induction false} RunReduced(u1: nat, u2: nat, top: nat, i: nat, t: Table, p: nat)
    requires p > 0 && i < top
    ensures JointSum(u1, u2, top, i, ReducedKey(t, p), p) == JointSum(u1, u2, top, i, t, p)
    decreases top - i
  {
    hide *;
    var r, index := ReducedKey(t, p), Index(u1, u2, i);
    JointSumUnfold(u1, u2, top, i, t, p);
    JointSumUnfold(u1, u2, top, i, r, p);
    if i + 1 == top {
      FirstReduced(u1, u2, top, t, p);
      var s := Select(t, Index(u1, u2, top));
      var j := Jacobian(s.0, s.1, 1);
      StepReduced(j, index, t, p);
      StepReduced(Jacobian(s.0 % p, s.1 % p, 1), index, t, p);
      DoubleReduced(s.0, s.1, 1, p);
      SameDoubles(j, Jacobian(s.0 % p, s.1 % p, 1), index, t, p);
    } else {
      RunReduced(u1, u2, top, i + 1, t, p);
      StepReduced(JointSum(u1, u2, top, i + 1, t, p), index, t, p);
    }
  }

  lemma SameDoubles(j: Jacobian, k: Jacobian, index: nat, t: Table, p: nat)
    requires p > 0 && DoubleJacobian(j, p) == DoubleJacobian(k, p)
    ensures ShamirStep(j, index, t, p) == ShamirStep(k, index, t, p)
  {
    hide DoubleJacobian, AddPoint, Select;
  }

  /** The starting point is the same or has been reduced. */
  lemma FirstReduced(u1: nat, u2: nat, top: nat, t: Table, p: nat)
    requires p > 0
    ensures var s, r := Select(t, Index(u1, u2, top)), Select(ReducedKey(t, p), Index(u1, u2, top));
      r == s || r == (s.0 % p, s.1 % p)
  {
    hide Index;
  }

  /** The x the loop ends with depends on the residues of the public key's coordinates only. */
  lemma KeyReduced(u1: nat, u2: nat, top: nat, t: Table, p: nat)
    requires p >= 2
    ensures FinalX(JointSum(u1, u2, top, 0, ReducedKey(t, p), p), p) == FinalX(JointSum(u1, u2, top, 0, t, p), p)
  {
    hide *;
    if top > 0 {
      RunReduced(u1, u2, top, 0, t, p);
    } else {
      var r, s := ReducedKey(t, p), Select(t, Index(u1, u2, 0));
      JointSumUnfold(u1, u2, 0, 0, t, p);
      JointSumUnfold(u1, u2, 0, 0, r, p);
      FirstReduced(u1, u2, 0, t, p);
      FinalXIs(Jacobian(s.0, s.1, 1), p);
      FinalXIs(Jacobian(s.0 % p, s.1 % p, 1), p);
      ApplyZReduced(s.0, s.1, FInv(1, p), p);
    }
  }
}
