/**
 The affine group law of y^2 = x^3 - 3x + b modulo a prime, and multiples of a point.
 Closure, commutativity, identity and inverses are proved; associativity is a hypothesis
 (predicate Associative) of the lemmas that need it.
 */
module Curve {
  import opened Arith
  import opened Field

  datatype Point = Infinity | Affine(x: nat, y: nat)

  datatype Elliptic = Elliptic(p: nat, b: nat)

  /** x^3 - 3x + b */
  function Rhs(x: int, b: int): (r: int)
  {
    x * x * x - 3 * x + b
  }

  ghost predicate Satisfies(x: int, y: int, b: int, p: nat)
    requires p > 0
  {
    (y * y) % p == Rhs(x, b) % p
  }

  ghost predicate IsField(e: Elliptic)
  {
    IsPrime(e.p) && e.p > 3
  }

  lemma FieldFacts(e: Elliptic)
    requires IsField(e)
    ensures e.p > 3 && IsPrime(e.p)
  {
  }

  ghost predicate OnCurve(e: Elliptic, P: Point)
    requires e.p > 0
  {
    P.Affine? ==> P.x < e.p && P.y < e.p && Satisfies(P.x, P.y, e.b, e.p)
  }

  // --------------------------------------------------------- the group law

  /** The point where the line of slope l through (x1, y1) and (x2, .) meets the curve again, reflected. */
  function ThirdPoint(e: Elliptic, l: int, x1: int, y1: int, x2: int): (R: Point)
    requires e.p > 0
    ensures R.Affine? && R.x < e.p && R.y < e.p
  {
    Affine((l * l - x1 - x2) % e.p, (l * (x1 - (l * l - x1 - x2)) - y1) % e.p)
  }

  function ChordSlope(e: Elliptic, P: Point, Q: Point): (r: int)
    requires e.p > 3 && P.Affine? && Q.Affine?
  {
    (Q.y - P.y) * FInv((Q.x - P.x) % e.p, e.p)
  }

  function TangentSlope(e: Elliptic, P: Point): (r: int)
    requires e.p > 3 && P.Affine?
  {
    (3 * P.x * P.x - 3) * FInv(2 * P.y, e.p)
  }

  function Chord(e: Elliptic, P: Point, Q: Point): (r: Point)
    requires e.p > 3 && P.Affine? && Q.Affine?
  {
    ThirdPoint(e, ChordSlope(e, P, Q), P.x, P.y, Q.x)
  }

  function Tangent(e: Elliptic, P: Point): (r: Point)
    requires e.p > 3 && P.Affine?
  {
    ThirdPoint(e, TangentSlope(e, P), P.x, P.y, P.x)
  }

  function Neg(e: Elliptic, P: Point): (R: Point)
    requires e.p > 0
    ensures R.Affine? <==> P.Affine?
  {
    if P.Infinity? then Infinity else Affine(P.x, (-(P.y as int)) % e.p)
  }

  function Add(e: Elliptic, P: Point, Q: Point): (r: Point)
    requires e.p > 3
  {
    if P.Infinity? then Q
    else if Q.Infinity? then P
    else if P.x != Q.x then Chord(e, P, Q)
    else if P.y == Q.y && P.y != 0 then Tangent(e, P)
    else Infinity
  }

  // ------------------------------------------------------- line identities

  /** Any slope with the chord property gives the chord point. */
  lemma ThirdPointCong(e: Elliptic, l: int, k: int, x1: int, y1: int, x2: int)
    requires e.p > 0 && l % e.p == k % e.p
    ensures ThirdPoint(e, l, x1, y1, x2) == ThirdPoint(e, k, x1, y1, x2)
  {
    var p := e.p;
    var xl, xk := l * l - x1 - x2, k * k - x1 - x2;
    ModMulCong(l, k, l, k, p);
    ModAddCong(l * l, k * k, x1 + x2, x1 + x2, p);
    assert xl == l * l - (x1 + x2) && xk == k * k - (x1 + x2);
    ModAddCong(x1, x1, xl, xk, p);
    ModMulCong(l, k, x1 - xl, x1 - xk, p);
    ModAddCong(l * (x1 - xl), k * (x1 - xk), y1, y1, p);
  }

  lemma ChordSlopeLaw(e: Elliptic, P: Point, Q: Point)
    requires IsField(e) && P.Affine? && Q.Affine? && P.x < e.p && Q.x < e.p && P.x != Q.x
    ensures (Q.x - P.x) % e.p != 0
    ensures (ChordSlope(e, P, Q) * (Q.x - P.x)) % e.p == (Q.y - P.y) % e.p
  {
    var d := Q.x - P.x;
    ModDiff(Q.x, P.x, e.p);
    ModSmall(Q.x, e.p);
    ModSmall(P.x, e.p);
    SlopeTimesRun(Q.y - P.y, d, e.p);
  }

  lemma SlopeTimesRun(rise: int, run: int, p: nat)
    requires IsPrime(p) && run % p != 0
    ensures ((rise * FInv(run % p, p)) * run) % p == rise % p
  {
    var inv := FInv(run % p, p);
    ModIdem(run, p);
    InverseLaw(run % p, p);
    ModMul(run % p, inv, p);
    ModIdem(inv, p);
    hide FInv, IsPrime;
    ModMulCong(run % p, run, inv, inv, p);
    ModMulCong(rise, rise, run * inv, 1, p) by { ModSmall(1, p); }
    assert (rise * inv) * run == rise * (run * inv);
  }

  lemma TangentSlopeLaw(e: Elliptic, P: Point)
    requires IsField(e) && P.Affine? && 0 < P.y < e.p
    ensures (2 * P.y) % e.p != 0
    ensures (TangentSlope(e, P) * (2 * P.y)) % e.p == (3 * P.x * P.x - 3) % e.p
  {
    TwoNotZero(e.p);
    ModSmall(P.y, e.p);
    if (2 * P.y) % e.p == 0 {
      PrimeDividesProduct(2, P.y, e.p);
    }
    SlopeTimesRun(3 * P.x * P.x - 3, 2 * P.y, e.p);
    InverseOfResidue(2 * P.y, e.p);
  }

  lemma InverseOfResidue(a: nat, p: nat)
    requires IsPrime(p) && a % p != 0
    ensures FInv(a % p, p) == FInv(a, p)
  {
    var x := FInv(a % p, p);
    ModIdem(a, p);
    InverseLaw(a % p, p);
    ModMul(a % p, x, p);
    ModMul(a, x, p);
    hide FInv;
    InverseUnique(a, x, p);
  }

  lemma TwoNotZero(p: nat)
    requires p > 3
    ensures 2 % p == 2
  {
  }

  // -------------------------------------------------------------- closure

  /** The slack of the line: zero when the line of slope l through (x1, y1) also passes the curve at x2. */
  function LineSlack(l: int, x1: int, y1: int, x2: int): (r: int)
  {
    2 * y1 * l + l * l * (x2 - x1) - (x1 * x1 + x1 * x2 + x2 * x2 - 3)
  }

  lemma RhsDifference(x1: int, x2: int, b: int)
    ensures Rhs(x2, b) - Rhs(x1, b) == (x2 - x1) * (x1 * x1 + x1 * x2 + x2 * x2 - 3)
  {
  }

  lemma SquareDifference(y1: int, l: int, d: int, u: int)
    requires u == y1 + l * d
    ensures u * u - y1 * y1 == d * (2 * y1 * l + l * l * d)
  {
  }

  lemma LineTerms(l: int, x1: int, y1: int, x2: int, b: int, u: int, d: int, r: int, q: int)
    requires d == x2 - x1 && u == y1 + l * d
    requires r == 2 * y1 * l + l * l * d && q == x1 * x1 + x1 * x2 + x2 * x2 - 3
    ensures Rhs(x2, b) - Rhs(x1, b) == d * q && u * u - y1 * y1 == d * r && LineSlack(l, x1, y1, x2) == r - q
  {
    RhsDifference(x1, x2, b);
    SquareDifference(y1, l, d, u);
    hide Rhs;
  }

  lemma SpreadDifference(d: int, r: int, q: int)
    ensures d * (r - q) == d * r - d * q
  {
  }

  lemma LineAtSecond(l: int, x1: int, y1: int, x2: int, b: int, u: int)
    requires u == y1 + l * (x2 - x1)
    ensures u * u - Rhs(x2, b) == (y1 * y1 - Rhs(x1, b)) + (x2 - x1) * LineSlack(l, x1, y1, x2)
  {
    hide *;
    var d, r, q := x2 - x1, 2 * y1 * l + l * l * (x2 - x1), x1 * x1 + x1 * x2 + x2 * x2 - 3;
    LineTerms(l, x1, y1, x2, b, u, d, r, q);
    SpreadDifference(d, r, q);
  }

  /** The slack does not change when the third intersection takes the place of the second. */
  lemma SlackMoves(l: int, x1: int, y1: int, x2: int, x3: int)
    requires x3 == l * l - x1 - x2
    ensures LineSlack(l, x1, y1, x3) == LineSlack(l, x1, y1, x2)
  {
    SlackOver(l, x1, y1, x2, l * l);
    SlackOver(l, x1, y1, x3, l * l);
    hide *;
    SlackTerms(l * l, x1, x2, x3);
  }

  /** The slack with the squared slope as one value. */
  lemma SlackOver(l: int, x1: int, y1: int, x2: int, s: int)
    requires s == l * l
    ensures LineSlack(l, x1, y1, x2) == 2 * y1 * l - x1 * x1 + 3 + (s * (x2 - x1) - (x1 * x2 + x2 * x2))
  {
  }

  lemma SlackTerms(s: int, x1: int, x2: int, x3: int)
    requires s == x1 + x2 + x3
    ensures s * (x3 - x1) - (x1 * x3 + x3 * x3) == s * (x2 - x1) - (x1 * x2 + x2 * x2)
  {
    hide *;
  }

  lemma LineAtThird(l: int, x1: int, y1: int, x2: int, b: int, x3: int, y3: int)
    requires x3 == l * l - x1 - x2 && y3 == l * (x1 - x3) - y1
    ensures y3 * y3 - Rhs(x3, b) == (y1 * y1 - Rhs(x1, b)) + (x3 - x1) * LineSlack(l, x1, y1, x2)
  {
    var u := y1 + l * (x3 - x1);
    assert u == -y3;
    assert u * u == y3 * y3;
    hide *;
    LineAtSecond(l, x1, y1, x3, b, u);
    SlackMoves(l, x1, y1, x2, x3);
  }

  lemma SumOfZeros(a: int, h: int, c: int, k: int, p: nat)
    requires p > 0 && a == h + c * k && h % p == 0 && k % p == 0
    ensures a % p == 0
  {
    ModMulZero(k, c, p);
    ModAdd(h, c * k, p);
  }

  lemma SatisfiesResidues(x: int, y: int, b: int, p: nat)
    requires p > 0 && Satisfies(x, y, b, p)
    ensures Satisfies(x % p, y % p, b, p)
  {
    RhsCong(x, x % p, b, p) by { ModIdem(x, p); }
    ModMul(y, y, p);
  }

  lemma RhsCong(x: int, z: int, b: int, p: nat)
    requires p > 0 && x % p == z % p
    ensures Rhs(x, b) % p == Rhs(z, b) % p
  {
    ModMulCong(x, z, x, z, p);
    ModMulCong(x * x, z * z, x, z, p);
    ModMulCong(3, 3, x, z, p);
    ModAddCong(x * x * x, z * z * z, 3 * x, 3 * z, p);
    ModAddCong(x * x * x - 3 * x, z * z * z - 3 * z, b, b, p);
  }

  /** A line with no slack leaves the third point on the curve. */
  lemma ThirdPointOnCurve(e: Elliptic, l: int, x1: int, y1: int, x2: int)
    requires e.p > 0 && Satisfies(x1, y1, e.b, e.p) && LineSlack(l, x1, y1, x2) % e.p == 0
    ensures OnCurve(e, ThirdPoint(e, l, x1, y1, x2))
  {
    var x3 := l * l - x1 - x2;
    var y3 := l * (x1 - x3) - y1;
    LineAtThird(l, x1, y1, x2, e.b, x3, y3);
    ModDiff(y1 * y1, Rhs(x1, e.b), e.p);
    var k := LineSlack(l, x1, y1, x2);
    hide Rhs, LineSlack;
    SumOfZeros(y3 * y3 - Rhs(x3, e.b), y1 * y1 - Rhs(x1, e.b), x3 - x1, k, e.p);
    ModDiff(y3 * y3, Rhs(x3, e.b), e.p);
    SatisfiesResidues(x3, y3, e.b, e.p);
  }

  lemma ChordSlack(e: Elliptic, l: int, x1: int, y1: int, x2: int, y2: int)
    requires IsField(e) && Satisfies(x1, y1, e.b, e.p) && Satisfies(x2, y2, e.b, e.p)
    requires (x2 - x1) % e.p != 0 && (l * (x2 - x1)) % e.p == (y2 - y1) % e.p
    ensures LineSlack(l, x1, y1, x2) % e.p == 0
  {
    var p, u := e.p, y1 + l * (x2 - x1);
    ModAddCong(y1, y1, l * (x2 - x1), y2 - y1, p);
    ModMulCong(u, y2, u, y2, p);
    LineAtSecond(l, x1, y1, x2, e.b, u);
    var k := LineSlack(l, x1, y1, x2);
    hide Rhs, LineSlack, IsPrime;
    ModDiff(u * u, Rhs(x2, e.b), p);
    ModDiff(y1 * y1, Rhs(x1, e.b), p);
    ModAdd(u * u - Rhs(x2, e.b), y1 * y1 - Rhs(x1, e.b), p);
    assert (x2 - x1) * k == (u * u - Rhs(x2, e.b)) - (y1 * y1 - Rhs(x1, e.b));
    ModSmall(0, p);
    PrimeDividesProduct(x2 - x1, k, p);
  }

  lemma TangentSlack(e: Elliptic, l: int, x: int, y: int)
    requires e.p > 0 && (l * (2 * y)) % e.p == (3 * x * x - 3) % e.p
    ensures LineSlack(l, x, y, x) % e.p == 0
  {
    ModDiff(l * (2 * y), 3 * x * x - 3, e.p);
    assert LineSlack(l, x, y, x) == l * (2 * y) - (3 * x * x - 3);
  }

  lemma ChordOnCurve(e: Elliptic, P: Point, Q: Point)
    requires IsField(e) && OnCurve(e, P) && OnCurve(e, Q) && P.Affine? && Q.Affine? && P.x != Q.x
    ensures OnCurve(e, Chord(e, P, Q))
  {
    ChordSlopeLaw(e, P, Q);
    ChordSlack(e, ChordSlope(e, P, Q), P.x, P.y, Q.x, Q.y);
    ThirdPointOnCurve(e, ChordSlope(e, P, Q), P.x, P.y, Q.x);
  }

  lemma TangentOnCurve(e: Elliptic, P: Point)
    requires IsField(e) && OnCurve(e, P) && P.Affine? && P.y != 0
    ensures OnCurve(e, Tangent(e, P))
  {
    TangentSlopeLaw(e, P);
    TangentSlack(e, TangentSlope(e, P), P.x, P.y);
    ThirdPointOnCurve(e, TangentSlope(e, P), P.x, P.y, P.x);
  }

  /** The sum of two points of the curve is on the curve. */
  lemma AddOnCurve(e: Elliptic, P: Point, Q: Point)
    requires IsField(e) && OnCurve(e, P) && OnCurve(e, Q)
    ensures OnCurve(e, Add(e, P, Q))
  {
    hide Satisfies, Chord, Tangent;
    if P.Affine? && Q.Affine? {
      if P.x != Q.x {
        ChordOnCurve(e, P, Q);
      } else if P.y == Q.y && P.y != 0 {
        TangentOnCurve(e, P);
      }
    }
  }

  // --------------------------------------------- commutativity, inverses

  lemma ChordCommutes(e: Elliptic, P: Point, Q: Point)
    requires IsField(e) && P.Affine? && Q.Affine? && P.x < e.p && Q.x < e.p && P.x != Q.x
    ensures Chord(e, P, Q) == Chord(e, Q, P)
  {
    var l, k := ChordSlope(e, P, Q), ChordSlope(e, Q, P);
    assert Chord(e, P, Q) == ThirdPoint(e, l, P.x, P.y, Q.x) && Chord(e, Q, P) == ThirdPoint(e, k, Q.x, Q.y, P.x);
    assert IsPrime(e.p) && e.p > 0;
    hide *;
    ChordSlopeLaw(e, P, Q);
    ChordSlopeLaw(e, Q, P);
    OppositeSlope(l, k, Q.x - P.x, P.x - Q.x, Q.y - P.y, P.y - Q.y, e.p);
    ThirdPointCong(e, k, l, Q.x, Q.y, P.x);
    OtherEnd(e, l, P.x, P.y, Q.x, Q.y);
  }

  /** Slopes computed from the two ends of a chord agree. */
  lemma OppositeSlope(l: int, k: int, d: int, d': int, v: int, v': int, p: nat)
    requires IsPrime(p) && d % p != 0 && (l * d) % p == v % p && (k * d') % p == v' % p && d' == -d && v' == -v
    ensures p > 0 && l % p == k % p
  {
    PrimePositive(p);
    hide *;
    assert k * d' == -(k * d);
    NegCong(k * d', v', p);
    assert d * l == l * d && d * k == k * d;
    Cancel(d, l, k, p);
  }

  lemma PrimePositive(p: nat)
    requires IsPrime(p)
    ensures p > 1
  {
  }

  lemma NegCong(a: int, b: int, p: nat)
    requires p > 0 && a % p == b % p
    ensures (-a) % p == (-b) % p
  {
    ModAddCong(0, 0, a, b, p);
  }

  /** The same line seen from its other end. */
  lemma OtherEnd(e: Elliptic, l: int, x1: int, y1: int, x2: int, y2: int)
    requires e.p > 0 && (l * (x2 - x1)) % e.p == (y2 - y1) % e.p
    ensures ThirdPoint(e, l, x1, y1, x2) == ThirdPoint(e, l, x2, y2, x1)
  {
    var x3 := l * l - x1 - x2;
    ModAddCong(l * (x2 - x1), y2 - y1, l * (x1 - x3) - y2, l * (x1 - x3) - y2, e.p);
    assert l * (x2 - x3) - y2 == l * (x2 - x1) + (l * (x1 - x3) - y2);
    assert l * (x1 - x3) - y1 == (y2 - y1) + (l * (x1 - x3) - y2);
    assert x3 == l * l - x2 - x1;
  }

  lemma AddCommutes(e: Elliptic, P: Point, Q: Point)
    requires IsField(e) && OnCurve(e, P) && OnCurve(e, Q)
    ensures Add(e, P, Q) == Add(e, Q, P)
  {
    hide Satisfies, Chord;
    if P.Affine? && Q.Affine? && P.x != Q.x {
      ChordCommutes(e, P, Q);
    }
  }

  lemma NegOnCurve(e: Elliptic, P: Point)
    requires e.p > 0 && OnCurve(e, P)
    ensures OnCurve(e, Neg(e, P))
  {
    if P.Affine? {
      var y := -(P.y as int);
      assert y * y == P.y * P.y;
      ModMul(y, y, e.p);
    }
  }

  lemma NegatedY(y: int, p: nat)
    requires 0 <= y < p
    ensures (-y) % p == if y == 0 then 0 else p - y
  {
    if y == 0 { ModSmall(0, p); } else { DivModUnique(-y, p, -1, p - y); }
  }

  lemma AddNeg(e: Elliptic, P: Point)
    requires IsField(e) && OnCurve(e, P)
    ensures Add(e, P, Neg(e, P)) == Infinity
  {
    hide Satisfies, Tangent;
    if P.Affine? {
      NegatedY(P.y, e.p);
      OddPrime(e.p);
    }
  }

  lemma OddPrime(p: nat)
    requires IsPrime(p) && p > 3
    ensures p % 2 == 1
  {
  }

  /** Two points with the same x are equal or opposite. */
  lemma SameX(e: Elliptic, P: Point, Q: Point)
    requires IsField(e) && OnCurve(e, P) && OnCurve(e, Q) && P.Affine? && Q.Affine? && P.x == Q.x
    ensures P == Q || P == Neg(e, Q)
  {
    OnlyTwoRoots(P.y, Q.y, e.p);
    ModSmall(P.y, e.p);
    ModSmall(Q.y, e.p);
  }

  // --------------------------------------------------------- associativity

  /** A marker that lets associativity be used only where it is asked for. */
  predicate Triple(P: Point, Q: Point, R: Point) { true }

  /** The hypothesis: the group law is associative on the curve. */
  ghost predicate Associative(e: Elliptic)
    requires e.p > 3
  {
    forall P, Q, R {:trigger Triple(P, Q, R)} ::
      Triple(P, Q, R) ==> OnCurve(e, P) && OnCurve(e, Q) && OnCurve(e, R) ==>
        Add(e, Add(e, P, Q), R) == Add(e, P, Add(e, Q, R))
  }

  /** What every group argument below assumes of the curve. */
  ghost predicate IsGroup(e: Elliptic)
  {
    IsField(e) && Associative(e)
  }

  lemma AddAssoc(e: Elliptic, P: Point, Q: Point, R: Point)
    requires IsGroup(e) && OnCurve(e, P) && OnCurve(e, Q) && OnCurve(e, R)
    ensures Add(e, Add(e, P, Q), R) == Add(e, P, Add(e, Q, R))
  {
    assert Triple(P, Q, R);
    hide Add, OnCurve, IsField;
  }

  lemma GroupIsField(e: Elliptic)
    requires IsGroup(e)
    ensures IsField(e) && e.p > 3
  {
  }

  lemma AddInfinity(e: Elliptic, P: Point)
    requires e.p > 3
    ensures Add(e, P, Infinity) == P && Add(e, Infinity, P) == P && OnCurve(e, Infinity)
  {
  }

  /** P + Q = R + Q gives P = R. */
  lemma CancelRight(e: Elliptic, P: Point, R: Point, Q: Point)
    requires IsGroup(e) && OnCurve(e, P) && OnCurve(e, Q) && OnCurve(e, R)
    requires Add(e, P, Q) == Add(e, R, Q)
    ensures P == R
  {
    hide *;
    GroupIsField(e);
    NegOnCurve(e, Q);
    AddAssoc(e, P, Q, Neg(e, Q));
    AddAssoc(e, R, Q, Neg(e, Q));
    AddNeg(e, Q);
    AddInfinity(e, P);
    AddInfinity(e, R);
  }

  /** The inverse is unique. */
  lemma NegUnique(e: Elliptic, P: Point, Q: Point)
    requires IsGroup(e) && OnCurve(e, P) && OnCurve(e, Q) && Add(e, P, Q) == Infinity
    ensures P == Neg(e, Q)
  {
    hide *;
    GroupIsField(e);
    NegOnCurve(e, Q);
    AddNeg(e, Q);
    AddCommutes(e, Q, Neg(e, Q));
    CancelRight(e, P, Neg(e, Q), Q);
  }

  // ------------------------------------------------------------- multiples

  /** k * P */
  function Times(e: Elliptic, k: nat, P: Point): (r: Point)
    requires e.p > 3
  {
    if k == 0 then Infinity else Add(e, Times(e, k - 1, P), P)
  }

  lemma {:induction false} TimesOnCurve(e: Elliptic, k: nat, P: Point)
    requires IsField(e) && OnCurve(e, P)
    ensures OnCurve(e, Times(e, k, P))
  {
    if k == 0 {
    } else {
      TimesOnCurve(e, k - 1, P);
      hide Add, OnCurve;
      AddOnCurve(e, Times(e, k - 1, P), P);
    }
  }

  lemma TimesStep(e: Elliptic, k: nat, P: Point)
    requires e.p > 3
    ensures Times(e, 0, P) == Infinity && Times(e, k + 1, P) == Add(e, Times(e, k, P), P)
  {
    hide Add;
  }

  lemma {:induction false} TimesAdd(e: Elliptic, j: nat, k: nat, P: Point)
    requires IsGroup(e) && OnCurve(e, P)
    ensures Times(e, j + k, P) == Add(e, Times(e, j, P), Times(e, k, P))
  {
    hide *;
    GroupIsField(e);
    TimesStep(e, 0, P);
    if k == 0 {
      AddInfinity(e, Times(e, j, P));
    } else {
      TimesAdd(e, j, k - 1, P);
      TimesStep(e, j + k - 1, P);
      TimesStep(e, k - 1, P);
      TimesOnCurve(e, j, P);
      TimesOnCurve(e, k - 1, P);
      AddAssoc(e, Times(e, j, P), Times(e, k - 1, P), P);
    }
  }

  lemma {:induction false} TimesTimes(e: Elliptic, j: nat, k: nat, P: Point)
    requires IsGroup(e) && OnCurve(e, P)
    ensures Times(e, j * k, P) == Times(e, j, Times(e, k, P))
  {
    hide *;
    GroupIsField(e);
    TimesStep(e, 0, P);
    TimesStep(e, 0, Times(e, k, P));
    if j == 0 {
      assert j * k == 0;
    } else {
      TimesTimes(e, j - 1, k, P);
      assert j * k == (j - 1) * k + k;
      TimesAdd(e, (j - 1) * k, k, P);
      TimesStep(e, j - 1, Times(e, k, P));
    }
  }

  lemma TimesOne(e: Elliptic, P: Point)
    requires e.p > 3
    ensures Times(e, 1, P) == P
  {
    hide Add;
    TimesStep(e, 0, P);
    AddInfinity(e, P);
  }

  lemma {:induction false} TimesInfinity(e: Elliptic, k: nat)
    requires e.p > 3
    ensures Times(e, k, Infinity) == Infinity
  {
    if k == 0 {
    } else {
      TimesInfinity(e, k - 1);
    }
  }

  /** P has prime order n. */
  ghost predicate HasOrder(e: Elliptic, P: Point, n: nat)
    requires e.p > 3
  {
    IsPrime(n) && n > 2 && P != Infinity && OnCurve(e, P) && Times(e, n, P) == Infinity
  }

  /** n times any point of the curve is the point at infinity, as in a group of n elements. */
  ghost predicate KilledBy(e: Elliptic, n: nat)
    requires e.p > 3
  {
    forall P :: OnCurve(e, P) ==> Times(e, n, P) == Infinity
  }

  /** Multiples depend on the scalar modulo the order only. */
  lemma TimesMod(e: Elliptic, k: nat, P: Point, n: nat)
    requires IsGroup(e) && HasOrder(e, P, n)
    ensures Times(e, k, P) == Times(e, k % n, P)
  {
    OrderKills(e, P, n);
    hide *;
    QuotientIs(k, n, k / n, k % n);
    TimesModParts(e, k, k / n, k % n, P, n);
  }

  lemma OrderIntro(e: Elliptic, P: Point, n: nat)
    requires e.p > 3 && IsPrime(n) && n > 2 && P != Infinity && OnCurve(e, P) && Times(e, n, P) == Infinity
    ensures HasOrder(e, P, n)
  {
    hide Times, OnCurve, IsPrime;
  }

  lemma OrderKills(e: Elliptic, P: Point, n: nat)
    requires e.p > 3 && HasOrder(e, P, n)
    ensures n > 0 && OnCurve(e, P) && Times(e, n, P) == Infinity
  {
    hide Times, OnCurve, IsPrime;
  }

  lemma TimesModParts(e: Elliptic, k: nat, q: nat, r: nat, P: Point, n: nat)
    requires IsGroup(e) && OnCurve(e, P) && Times(e, n, P) == Infinity && k == q * n + r
    ensures Times(e, k, P) == Times(e, r, P)
  {
    hide *;
    GroupIsField(e);
    var m := q * n;
    TimesAdd(e, m, r, P);
    TimesTimes(e, q, n, P);
    TimesInfinity(e, q);
    AddInfinity(e, Times(e, r, P));
  }

  lemma OrderFacts(e: Elliptic, P: Point, n: nat)
    requires e.p > 3 && HasOrder(e, P, n)
    ensures n > 2 && IsPrime(n) && P.Affine? && OnCurve(e, P) && Times(e, n, P) == Infinity && n % 2 == 1
  {
  }

  lemma QuotientIs(n: nat, r: nat, q: nat, s: nat)
    requires r > 0 && q == n / r && s == n % r
    ensures n == q * r + s && s < r
  {
  }

  lemma PrimeRemainder(n: nat, r: nat)
    requires IsPrime(n) && 0 < r < n
    ensures r > 1 ==> n % r != 0
  {
  }

  /** If 0 < r < n and r * P is infinity then so is P; by descent on n mod r. */
  lemma {:induction false} OrderDescent(e: Elliptic, r: nat, P: Point, n: nat)
    requires IsGroup(e) && HasOrder(e, P, n) && 0 < r < n
    ensures Times(e, r, P) != Infinity
    decreases r
  {
    OrderFacts(e, P, n);
    PrimeRemainder(n, r);
    hide *;
    GroupIsField(e);
    if r == 1 {
      TimesOne(e, P);
    } else {
      var q, s := n / r, n % r;
      OrderDescent(e, s, P, n);
      QuotientIs(n, r, q, s);
      if Times(e, r, P) == Infinity {
        TimesModParts(e, n, q, s, P, r);
      }
    }
  }

  /** k * P is infinity exactly when n divides k. */
  lemma TimesIsInfinity(e: Elliptic, k: nat, P: Point, n: nat)
    requires IsGroup(e) && HasOrder(e, P, n)
    ensures Times(e, k, P) == Infinity <==> k % n == 0
  {
    OrderFacts(e, P, n);
    hide *;
    GroupIsField(e);
    TimesMod(e, k, P, n);
    TimesStep(e, 0, P);
    if k % n != 0 {
      OrderDescent(e, k % n, P, n);
    }
  }

  /** j * P and k * P are opposite exactly when n divides j + k. */
  lemma TimesOpposite(e: Elliptic, j: nat, k: nat, P: Point, n: nat)
    requires IsGroup(e) && HasOrder(e, P, n)
    ensures Times(e, j, P) == Neg(e, Times(e, k, P)) <==> (j + k) % n == 0
  {
    OrderFacts(e, P, n);
    hide *;
    GroupIsField(e);
    TimesIsInfinity(e, j + k, P, n);
    TimesAdd(e, j, k, P);
    TimesOnCurve(e, j, P);
    TimesOnCurve(e, k, P);
    AddNeg(e, Times(e, k, P));
    NegOnCurve(e, Times(e, k, P));
    AddCommutes(e, Times(e, k, P), Neg(e, Times(e, k, P)));
    if (j + k) % n == 0 {
      NegUnique(e, Times(e, j, P), Times(e, k, P));
    }
  }

  /** j * P and k * P are equal exactly when n divides their difference. */
  lemma TimesEqual(e: Elliptic, j: nat, k: nat, P: Point, n: nat)
    requires IsGroup(e) && HasOrder(e, P, n) && j <= k
    ensures Times(e, j, P) == Times(e, k, P) <==> (k - j) % n == 0
  {
    OrderKills(e, P, n);
    hide *;
    TimesIsInfinity(e, k - j, P, n);
    TimesApart(e, j, k - j, P);
    assert k - j + j == k;
  }

  /** Two multiples are equal when the multiple between them is the point at infinity. */
  lemma TimesApart(e: Elliptic, j: nat, d: nat, P: Point)
    requires IsGroup(e) && OnCurve(e, P)
    ensures Times(e, j, P) == Times(e, d + j, P) <==> Times(e, d, P) == Infinity
  {
    hide *;
    GroupIsField(e);
    TimesAdd(e, d, j, P);
    TimesOnCurve(e, j, P);
    TimesOnCurve(e, d, P);
    AddInfinity(e, Times(e, j, P));
    if Times(e, j, P) == Times(e, d + j, P) {
      CancelRight(e, Times(e, d, P), Infinity, Times(e, j, P));
    }
  }
}
