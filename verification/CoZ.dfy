/**
 Projective point formulas as functions on residues (XYcZ_add, XYcZ_addC, double_jacobian_default,
 apply_z), and the proof that they compute the affine group law over a common Z.
 */
module CoZ {
  import opened Arith
  import opened ModInv
  import opened Field
  import opened Curve

  datatype Quad = Quad(x1: nat, y1: nat, x2: nat, y2: nat)

  datatype Jacobian = Jacobian(x: nat, y: nat, z: nat)

  // ------------------------------------------------------------ the formulas

  /** apply_z: (x * z^2, y * z^3) */
  function ApplyZ(x: int, y: int, z: int, p: nat): (r: (nat, nat))
    requires p > 0
  {
    var zz := FMul(z, z, p);
    (FMul(x, zz, p), FMul(y, FMul(zz, z, p), p))
  }

  /** XYcZ_add: P rescaled, P + Q. */
  function CoZAdd(q: Quad, p: nat): (r: Quad)
    requires p > 0
  {
    var d := FSub(q.x2, q.x1, p);
    var a := FMul(d, d, p);
    var b, c := FMul(q.x1, a, p), FMul(q.x2, a, p);
    var e := FSub(q.y2, q.y1, p);
    var x3 := FSub(FSub(FMul(e, e, p), b, p), c, p);
    var s := FMul(q.y1, FSub(c, b, p), p);
    Quad(b, s, x3, FSub(FMul(e, FSub(b, x3, p), p), s, p))
  }

  /** XYcZ_addC: P - Q, P + Q. */
  function CoZAddC(q: Quad, p: nat): (r: Quad)
    requires p > 0
  {
    var d := FSub(q.x2, q.x1, p);
    var a := FMul(d, d, p);
    var b, c := FMul(q.x1, a, p), FMul(q.x2, a, p);
    var f, e := FAdd(q.y2, q.y1, p), FSub(q.y2, q.y1, p);
    var s := FMul(q.y1, FSub(c, b, p), p);
    var bc := FAdd(b, c, p);
    var x3 := FSub(FMul(e, e, p), bc, p);
    var x4 := FSub(FMul(f, f, p), bc, p);
    Quad(x4, FSub(FMul(FSub(x4, b, p), f, p), s, p),
         x3, FSub(FMul(e, FSub(b, x3, p), p), s, p))
  }

  /** double_jacobian_default: doubling for a = -3; a point with z = 0 is left alone. */
  function DoubleJacobian(j: Jacobian, p: nat): (r: Jacobian)
    requires p > 0
  {
    if j.z == 0 then j
    else
      var yy, zz := FMul(j.y, j.y, p), FMul(j.z, j.z, p);
      var a := FMul(j.x, yy, p);
      var sum := FAdd(j.x, zz, p);
      var m := FMul(sum, FSub(sum, FAdd(zz, zz, p), p), p);
      var b := HalfMod(FAdd(m, FAdd(m, m, p), p), p);
      var x3 := FSub(FSub(FMul(b, b, p), a, p), a, p);
      Jacobian(x3, FSub(FMul(b, FSub(a, x3, p), p), FMul(yy, yy, p), p), FMul(j.y, j.z, p))
  }

  // -------------------------------------------------- projective coordinates

  /** (x, y) are the coordinates of P scaled by z. */
  ghost predicate Rep(x: nat, y: nat, z: int, P: Point, p: nat)
    requires p > 0
  {
    P.Affine? && x == (P.x * (z * z)) % p && y == (P.y * (z * (z * z))) % p && z % p != 0
  }

  lemma RepCong(x: nat, y: nat, z: int, z': int, P: Point, p: nat)
    requires p > 0 && Rep(x, y, z, P, p) && z % p == z' % p
    ensures Rep(x, y, z', P, p)
  {
    ModMulCong(z, z', z, z', p);
    ModMulCong(z, z', z * z, z' * z', p);
    ModMulCong(P.x, P.x, z * z, z' * z', p);
    ModMulCong(P.y, P.y, z * (z * z), z' * (z' * z'), p);
  }

  lemma NonZeroProduct(a: int, b: int, p: nat)
    requires IsPrime(p) && a % p != 0 && b % p != 0
    ensures (a * b) % p != 0
  {
    if (a * b) % p == 0 {
      PrimeDividesProduct(a, b, p);
    }
  }

  /** Over a common z, different points have different scaled x. */
  lemma RepX(x1: nat, y1: nat, x2: nat, y2: nat, z: int, P: Point, Q: Point, e: Elliptic)
    requires IsField(e) && Rep(x1, y1, z, P, e.p) && Rep(x2, y2, z, Q, e.p) && P.x < e.p && Q.x < e.p
    ensures x1 == x2 <==> P.x == Q.x
  {
    NonZeroProduct(z, z, e.p);
    if x1 == x2 {
      assert (z * z) * P.x == P.x * (z * z) && (z * z) * Q.x == Q.x * (z * z);
      Cancel(z * z, P.x, Q.x, e.p);
      ModSmall(P.x, e.p);
      ModSmall(Q.x, e.p);
    }
  }

  lemma ApplyZScales(P: Point, z: int, p: nat)
    requires p > 0 && P.Affine? && z % p != 0
    ensures var s := ApplyZ(P.x, P.y, z % p, p); Rep(s.0, s.1, z, P, p)
  {
    ModMul(z, z, p);
    var zz := (z * z) % p;
    ModMul(z * z, z, p);
    ModIdem(z * z, p);
    ModMulCong(zz, z * z, z % p, z, p) by { ModIdem(z, p); }
    assert (z * z) * z == z * (z * z);
    ModMulCong(P.x, P.x, zz, z * z, p);
    var zzz := (zz * (z % p)) % p;
    ModIdem(zz * (z % p), p);
    ModMulCong(P.y, P.y, zzz, z * (z * z), p);
  }

  /** Applying 1/z to coordinates scaled by z gives the affine point back. */
  lemma ApplyInverseZ(x: nat, y: nat, z: int, v: nat, P: Point, p: nat)
    requires p > 1 && Rep(x, y, z, P, p) && (v * z) % p == 1 && P.x < p && P.y < p
    ensures ApplyZ(x, y, v, p) == (P.x, P.y)
  {
    var vv, vvv := FMul(v, v, p), FMul(FMul(v, v, p), v, p);
    ModIdem(v * v, p);
    ModMulCong(vv, v * v, v, v, p);
    ModIdem(vv * v, p);
    ModSmall(1, p);
    ModMulCong(v * z, 1, v * z, 1, p);
    ModMulCong((v * z) * (v * z), 1, v * z, 1, p);
    ModIdem(P.x * (z * z), p);
    ModIdem(P.y * (z * (z * z)), p);
    ModMulCong(x, P.x * (z * z), vv, v * v, p);
    ModMulCong(y, P.y * (z * (z * z)), vvv, (v * v) * v, p);
    Unscale2(P.x, z, v);
    Unscale3(P.y, z, v);
    var u, t := (v * z) * (v * z), ((v * z) * (v * z)) * (v * z);
    hide *;
    ModMulCong(P.x, P.x, u, 1, p);
    ModMulCong(P.y, P.y, t, 1, p);
    ModSmall(P.x, p);
    ModSmall(P.y, p);
  }

  lemma Unscale2(x: int, z: int, v: int)
    ensures (x * (z * z)) * (v * v) == x * ((v * z) * (v * z))
  {
  }

  lemma Unscale3(y: int, z: int, v: int)
    ensures (y * (z * (z * z))) * ((v * v) * v) == y * (((v * z) * (v * z)) * (v * z))
  {
    var a, b := z * z, v * v;
    assert a * b == (v * z) * (v * z);
    assert (z * a) * (b * v) == (a * b) * (v * z);
    assert (y * (z * a)) * (b * v) == y * ((z * a) * (b * v));
  }

  // ------------------------------------------------------- the chord formula

  /**
   Scaling the chord. With S = z^2, D = (x2 - x1) S, Z = z D: the numerator of x3 is
   (l^2 - x1 - x2) Z^2 and that of y3 is (l (x1 - x3) - y1) Z^3.
   */
  lemma ChordScaled(x1: int, y1: int, x2: int, y2: int, l: int, z: int, p: nat, n: int, s3: int, num: int, d: int)
    requires p > 0 && (l * (x2 - x1)) % p == (y2 - y1) % p
    requires d == (x2 - x1) * (z * z) && n == z * d && s3 == n * n
    requires num == (y2 - y1) * (z * (z * z))
    ensures num % p == (l * n) % p
    ensures (num * num - x1 * s3 - x2 * s3) % p == ((l * l - x1 - x2) * s3) % p
    ensures (num * (x1 * s3 - (num * num - x1 * s3 - x2 * s3)) - y1 * (n * s3)) % p
         == ((l * (x1 - (l * l - x1 - x2)) - y1) * (n * s3)) % p
  {
    var t := z * (z * z);
    assert (l * (x2 - x1)) * t == l * n by { SlopeScale(l, x2 - x1, z, d, n, t); }
    ModMulCong(y2 - y1, l * (x2 - x1), t, t, p);
    ChordNumerators(x1, y1, x2, l, n, s3, num, p);
  }

  lemma SlopeScale(l: int, run: int, z: int, d: int, n: int, t: int)
    requires d == run * (z * z) && n == z * d && t == z * (z * z)
    ensures (l * run) * t == l * n
  {
    assert run * t == n;
  }

  lemma ChordNumerators(x1: int, y1: int, x2: int, l: int, n: int, s3: int, num: int, p: nat)
    requires p > 0 && num % p == (l * n) % p && s3 == n * n
    ensures (num * num - x1 * s3 - x2 * s3) % p == ((l * l - x1 - x2) * s3) % p
    ensures (num * (x1 * s3 - (num * num - x1 * s3 - x2 * s3)) - y1 * (n * s3)) % p
         == ((l * (x1 - (l * l - x1 - x2)) - y1) * (n * s3)) % p
  {
    var k := x1 * s3 + x2 * s3;
    ModMulCong(num, l * n, num, l * n, p);
    SquareScale(l, n, s3);
    ModAddCong(num * num, (l * l) * s3, k, k, p);
    var x3, xi := l * l - x1 - x2, num * num - x1 * s3 - x2 * s3;
    Spread3(l * l, x1, x2, s3);
    hide *;
    ModAddCong(x1 * s3, x1 * s3, xi, x3 * s3, p);
    ModMulCong(num, l * n, x1 * s3 - xi, x1 * s3 - x3 * s3, p);
    ChordY(l, n, x1, x3, s3, y1);
    ModAddCong(num * (x1 * s3 - xi), (l * n) * (x1 * s3 - x3 * s3), y1 * (n * s3), y1 * (n * s3), p);
  }

  lemma SquareScale(l: int, n: int, s3: int)
    requires s3 == n * n
    ensures (l * n) * (l * n) == (l * l) * s3
  {
  }

  lemma Spread3(a: int, b: int, c: int, s: int)
    ensures (a - b - c) * s == a * s - b * s - c * s
  {
  }

  lemma ChordY(l: int, n: int, x1: int, x3: int, s3: int, y1: int)
    ensures (l * n) * (x1 * s3 - x3 * s3) - y1 * (n * s3) == (l * (x1 - x3) - y1) * (n * s3)
  {
    var t := n * s3;
    assert (l * n) * (x1 * s3) == (l * x1) * t;
    assert (l * n) * (x3 * s3) == (l * x3) * t;
  }

  /** The exact scaled quantities the co-Z formulas build: B, C, E and the common factor. */
  lemma ScaledParts(x1: int, y1: int, x2: int, z: int, d: int, n: int, s3: int)
    requires d == (x2 - x1) * (z * z) && n == z * d && s3 == n * n
    ensures x2 * (z * z) - x1 * (z * z) == d
    ensures (x1 * (z * z)) * (d * d) == x1 * s3 && (x2 * (z * z)) * (d * d) == x2 * s3
    ensures (y1 * (z * (z * z))) * (x2 * s3 - x1 * s3) == y1 * (n * s3)
  {
    var s := z * z;
    assert s * (d * d) == s3;
    assert (x1 * s) * (d * d) == x1 * (s * (d * d));
    assert (x2 * s) * (d * d) == x2 * (s * (d * d));
    var run := x2 - x1;
    assert x2 * s3 - x1 * s3 == run * s3;
    assert (z * s) * run == n;
    assert (y1 * (z * s)) * (run * s3) == y1 * (((z * s) * run) * s3);
  }

  /** What the formulas return on residues: residues of integer polynomials. */
  lemma CoZAddResidues(a1: int, c1: int, a2: int, c2: int, p: nat, d: int, b: int, c: int, e: int, x3: int, s: int)
    requires p > 0 && d == a2 - a1 && b == a1 * (d * d) && c == a2 * (d * d) && e == c2 - c1
    requires x3 == e * e - b - c && s == c1 * (c - b)
    ensures CoZAdd(Quad(a1 % p, c1 % p, a2 % p, c2 % p), p)
         == Quad(b % p, s % p, x3 % p, (e * (b - x3) - s) % p)
  {
    FieldOps(a2, a1, p);
    FieldOps(d, d, p);
    FieldOps(a1, d * d, p);
    FieldOps(a2, d * d, p);
    FieldOps(c2, c1, p);
    FieldOps(e, e, p);
    FieldOps(e * e, b, p);
    FieldOps(e * e - b, c, p);
    FieldOps(c, b, p);
    FieldOps(c1, c - b, p);
    FieldOps(b, x3, p);
    FieldOps(e, b - x3, p);
    FieldOps(e * (b - x3), s, p);
    hide FAdd, FSub, FMul;
  }

  lemma CoZAddCResidues(a1: int, c1: int, a2: int, c2: int, p: nat, d: int, b: int, c: int, e: int, f: int,
                        x3: int, x4: int, s: int)
    requires p > 0 && d == a2 - a1 && b == a1 * (d * d) && c == a2 * (d * d) && e == c2 - c1 && f == c2 + c1
    requires x3 == e * e - b - c && x4 == f * f - b - c && s == c1 * (c - b)
    ensures CoZAddC(Quad(a1 % p, c1 % p, a2 % p, c2 % p), p)
         == Quad(x4 % p, ((x4 - b) * f - s) % p, x3 % p, (e * (b - x3) - s) % p)
  {
    FieldOps(a2, a1, p);
    FieldOps(d, d, p);
    FieldOps(a1, d * d, p);
    FieldOps(a2, d * d, p);
    FieldOps(c2, c1, p);
    FieldOps(c, b, p);
    FieldOps(c1, c - b, p);
    FieldOps(b, c, p);
    FieldOps(e, e, p);
    FieldOps(e * e, b + c, p);
    assert e * e - (b + c) == x3 && f * f - (b + c) == x4;
    FieldOps(b, x3, p);
    FieldOps(e, b - x3, p);
    FieldOps(e * (b - x3), s, p);
    FieldOps(f, f, p);
    FieldOps(f * f, b + c, p);
    FieldOps(x4, b, p);
    FieldOps(x4 - b, f, p);
    FieldOps((x4 - b) * f, s, p);
    hide FAdd, FSub, FMul;
  }

  /** Residues of scaled integers are scaled residues. */
  lemma RepOfIntegers(x: int, y: int, n: int, P: Point, p: nat)
    requires p > 0 && P.Affine? && P.x == x % p && P.y == y % p && n % p != 0
    ensures Rep((x * (n * n)) % p, (y * (n * (n * n))) % p, n, P, p)
  {
    ModIdem(x, p);
    ModIdem(y, p);
    ModMulCong(x, P.x, n * n, n * n, p);
    ModMulCong(y, P.y, n * (n * n), n * (n * n), p);
  }

  lemma RepParts(x: nat, y: nat, z: int, P: Point, p: nat)
    requires p > 0 && Rep(x, y, z, P, p)
    ensures P.Affine? && x == (P.x * (z * z)) % p && y == (P.y * (z * (z * z))) % p && z % p != 0
  {
  }

  lemma RunScaled(x1: int, x2: int, z: int, p: nat)
    requires IsPrime(p) && z % p != 0 && (x2 - x1) % p != 0
    ensures (z * ((x2 - x1) * (z * z))) % p != 0
  {
    NonZeroProduct(z, z, p);
    NonZeroProduct(x2 - x1, z * z, p);
    NonZeroProduct(z, (x2 - x1) * (z * z), p);
  }

  /** The new common z, computed from the scaled coordinates. */
  lemma CommonZ(a1: int, a2: int, x1: nat, x2: nat, z: int, d: int, p: nat)
    requires p > 0 && x1 == a1 % p && x2 == a2 % p && d == a2 - a1
    ensures (z * (x2 - x1)) % p == (z * d) % p
  {
    ModIdem(a1, p);
    ModIdem(a2, p);
    ModAddCong(x2, a2, x1, a1, p);
    ModMulCong(z, z, x2 - x1, d, p);
  }

  /** The scaled chord is the point ThirdPoint gives. */
  lemma ScaledThirdPoint(e: Elliptic, l: int, x1: int, y1: int, x2: int, y2: int, z: int, n: int, s3: int,
                         num: int, d: int, x3: int, y3: int)
    requires e.p > 0 && (l * (x2 - x1)) % e.p == (y2 - y1) % e.p
    requires d == (x2 - x1) * (z * z) && n == z * d && s3 == n * n && n % e.p != 0
    requires num == (y2 - y1) * (z * (z * z))
    requires x3 == num * num - x1 * s3 - x2 * s3 && y3 == num * (x1 * s3 - x3) - y1 * (n * s3)
    ensures Rep(x3 % e.p, y3 % e.p, n, ThirdPoint(e, l, x1, y1, x2), e.p)
  {
    ChordScaled(x1, y1, x2, y2, l, z, e.p, n, s3, num, d);
    RepOfIntegers(l * l - x1 - x2, l * (x1 - (l * l - x1 - x2)) - y1, n, ThirdPoint(e, l, x1, y1, x2), e.p);
  }

  lemma SumIsChord(e: Elliptic, P: Point, Q: Point)
    requires IsField(e) && P.Affine? && Q.Affine? && P.x < e.p && Q.x < e.p && P.x != Q.x
    ensures var l := ChordSlope(e, P, Q);
      Add(e, P, Q) == ThirdPoint(e, l, P.x, P.y, Q.x) && (l * (Q.x - P.x)) % e.p == (Q.y - P.y) % e.p
    ensures (Q.x - P.x) % e.p != 0
  {
    ChordSlopeLaw(e, P, Q);
    hide ChordSlope, ThirdPoint;
  }

  /** The slope through P and -Q, written with y of Q negated as an integer. */
  lemma DifferenceIsChord(e: Elliptic, P: Point, Q: Point)
    requires IsField(e) && P.Affine? && Q.Affine? && P.x < e.p && Q.x < e.p && P.x != Q.x
    ensures var l := ChordSlope(e, P, Neg(e, Q)); var y := -(Q.y as int);
      Add(e, P, Neg(e, Q)) == ThirdPoint(e, l, P.x, P.y, Q.x) && (l * (Q.x - P.x)) % e.p == (y - P.y) % e.p
  {
    var y := -(Q.y as int);
    var N := Neg(e, Q);
    assert N.x == Q.x && N.y == y % e.p;
    ModIdem(y, e.p);
    ModAddCong(N.y, y, P.y, P.y, e.p);
    hide Neg;
    SumIsChord(e, P, N);
  }

  /** The coordinates are reduced; the point need not be on a curve. */
  predicate InPlane(P: Point, p: nat)
  {
    P.Affine? ==> P.x < p && P.y < p
  }

  lemma InPlaneRange(P: Point, p: nat)
    requires InPlane(P, p) && P.Affine?
    ensures P.x < p && P.y < p
  {
  }

  lemma OnCurveRange(e: Elliptic, P: Point)
    requires e.p > 0 && OnCurve(e, P)
    ensures InPlane(P, e.p) && (P.Affine? ==> P.x < e.p && P.y < e.p)
  {
  }

  /** The integers behind a pair of points scaled by z, and the new common factor n = z * d. */
  ghost predicate Scaled(x1: int, y1: int, x2: int, z: int, s: int, t: int, d: int, n: int, s3: int)
  {
    s == z * z && t == z * s && d == (x2 - x1) * s && n == z * d && s3 == n * n
  }

  /** XYcZ_add on scaled integers. */
  lemma CoZAddScaled(e: Elliptic, l: int, x1: int, y1: int, x2: int, y2: int, z: int,
                     s: int, t: int, d: int, n: int, s3: int)
    requires e.p > 0 && (l * (x2 - x1)) % e.p == (y2 - y1) % e.p
    requires Scaled(x1, y1, x2, z, s, t, d, n, s3) && n % e.p != 0
    ensures var r := CoZAdd(Quad((x1 * s) % e.p, (y1 * t) % e.p, (x2 * s) % e.p, (y2 * t) % e.p), e.p);
      r.x1 == (x1 * s3) % e.p && r.y1 == (y1 * (n * s3)) % e.p
      && Rep(r.x2, r.y2, n, ThirdPoint(e, l, x1, y1, x2), e.p)
  {
    var num := (y2 - y1) * t;
    var x3 := num * num - x1 * s3 - x2 * s3;
    var y3 := num * (x1 * s3 - x3) - y1 * (n * s3);
    ScaledParts(x1, y1, x2, z, d, n, s3);
    assert num == y2 * t - y1 * t;
    hide CoZAdd, ThirdPoint, Rep;
    CoZAddResidues(x1 * s, y1 * t, x2 * s, y2 * t, e.p, d, x1 * s3, x2 * s3, num, x3, y1 * (n * s3));
    ScaledThirdPoint(e, l, x1, y1, x2, y2, z, n, s3, num, d, x3, y3);
  }

  /** XYcZ_addC on scaled integers: k is the slope through (x1, y1) and (x2, -y2). */
  lemma CoZAddCScaled(e: Elliptic, l: int, k: int, x1: int, y1: int, x2: int, y2: int, z: int,
                      s: int, t: int, d: int, n: int, s3: int)
    requires e.p > 0 && (l * (x2 - x1)) % e.p == (y2 - y1) % e.p && (k * (x2 - x1)) % e.p == (-y2 - y1) % e.p
    requires Scaled(x1, y1, x2, z, s, t, d, n, s3) && n % e.p != 0
    ensures var r := CoZAddC(Quad((x1 * s) % e.p, (y1 * t) % e.p, (x2 * s) % e.p, (y2 * t) % e.p), e.p);
      && Rep(r.x1, r.y1, n, ThirdPoint(e, k, x1, y1, x2), e.p)
      && Rep(r.x2, r.y2, n, ThirdPoint(e, l, x1, y1, x2), e.p)
  {
    var num, sum, f := (y2 - y1) * t, (-y2 - y1) * t, y2 * t + y1 * t;
    SumNumerator(y1, y2, t);
    ScaledParts(x1, y1, x2, z, d, n, s3);
    hide CoZAddC, ThirdPoint, Rep;
    var b, c, m := x1 * s3, x2 * s3, y1 * (n * s3);
    CoZAddCScaledParts(e, l, k, x1, y1, x2, y2, z, n, s3, d, num, sum, f, b, c, m, s, t);
  }

  lemma CoZAddCScaledParts(e: Elliptic, l: int, k: int, x1: int, y1: int, x2: int, y2: int, z: int,
                           n: int, s3: int, d: int, num: int, sum: int, f: int, b: int, c: int, m: int, s: int, t: int)
    requires e.p > 0 && (l * (x2 - x1)) % e.p == (y2 - y1) % e.p && (k * (x2 - x1)) % e.p == (-y2 - y1) % e.p
    requires Scaled(x1, y1, x2, z, s, t, d, n, s3) && n % e.p != 0
    requires num == (y2 - y1) * t && sum == (-y2 - y1) * t && f == y2 * t + y1 * t
    requires sum == -f && num == y2 * t - y1 * t
    requires b == x1 * s3 && c == x2 * s3 && m == y1 * (n * s3)
    requires d == x2 * s - x1 * s && b == (x1 * s) * (d * d) && c == (x2 * s) * (d * d) && m == (y1 * t) * (c - b)
    ensures var r := CoZAddC(Quad((x1 * s) % e.p, (y1 * t) % e.p, (x2 * s) % e.p, (y2 * t) % e.p), e.p);
      && Rep(r.x1, r.y1, n, ThirdPoint(e, k, x1, y1, x2), e.p)
      && Rep(r.x2, r.y2, n, ThirdPoint(e, l, x1, y1, x2), e.p)
  {
    hide *;
    var x3, x4 := num * num - b - c, sum * sum - b - c;
    ScaledForThird(x1, y1, x2, y2, z, s, t, d, n, s3);
    ScaledThirdPoint(e, l, x1, y1, x2, y2, z, n, s3, num, d, x3, num * (b - x3) - m);
    ScaledThirdPoint(e, k, x1, y1, x2, -y2, z, n, s3, sum, d, x4, sum * (b - x4) - m);
    NegatedFactor(sum, f, x4, b);
    CoZAddCResidues(x1 * s, y1 * t, x2 * s, y2 * t, e.p, d, b, c, num, f, x3, x4, m);
  }

  lemma ScaledForThird(x1: int, y1: int, x2: int, y2: int, z: int, s: int, t: int, d: int, n: int, s3: int)
    requires Scaled(x1, y1, x2, z, s, t, d, n, s3)
    ensures d == (x2 - x1) * (z * z) && n == z * d && s3 == n * n && t == z * (z * z)
  {
  }

  /** XYcZ_add: over the new common z, the first point is P again and the second is P + Q. */
  lemma CoZAddCorrect(e: Elliptic, q: Quad, z: int, P: Point, Q: Point)
    requires IsField(e) && InPlane(P, e.p) && InPlane(Q, e.p)
    requires Rep(q.x1, q.y1, z, P, e.p) && Rep(q.x2, q.y2, z, Q, e.p) && P.x != Q.x
    ensures var r := CoZAdd(q, e.p); var z' := z * (q.x2 - q.x1);
      Rep(r.x1, r.y1, z', P, e.p) && Rep(r.x2, r.y2, z', Add(e, P, Q), e.p)
  {
    hide *;
    FieldFacts(e);
    RepParts(q.x1, q.y1, z, P, e.p);
    RepParts(q.x2, q.y2, z, Q, e.p);
    InPlaneRange(P, e.p);
    InPlaneRange(Q, e.p);
    SumIsChord(e, P, Q);
    var d, n, s3 := NewCommonZ(e, q, z, P, Q);
    CoZAddScaled(e, ChordSlope(e, P, Q), P.x, P.y, Q.x, Q.y, z, z * z, z * (z * z), d, n, s3);
    var r := CoZAdd(q, e.p);
    ModSmall(P.x, e.p);
    ModSmall(P.y, e.p);
    RepIntro(r.x1, r.y1, n, s3, P, e.p);
    RepCong(r.x1, r.y1, n, z * (q.x2 - q.x1), P, e.p);
    RepCong(r.x2, r.y2, n, z * (q.x2 - q.x1), Add(e, P, Q), e.p);
  }

  lemma RepIntro(x: nat, y: nat, n: int, s3: int, P: Point, p: nat)
    requires p > 0 && P.Affine? && s3 == n * n && n % p != 0
    requires x == (P.x * s3) % p && y == (P.y * (n * s3)) % p
    ensures Rep(x, y, n, P, p)
  {
  }

  /** n = z * (x2 - x1) z^2 is a common z congruent to the one computed from the scaled coordinates. */
  lemma NewCommonZ(e: Elliptic, q: Quad, z: int, P: Point, Q: Point) returns (d: int, n: int, s3: int)
    requires IsField(e) && InPlane(P, e.p) && InPlane(Q, e.p)
    requires Rep(q.x1, q.y1, z, P, e.p) && Rep(q.x2, q.y2, z, Q, e.p) && P.x != Q.x
    ensures P.Affine? && Q.Affine? && Scaled(P.x, P.y, Q.x, z, z * z, z * (z * z), d, n, s3) && s3 == n * n
    ensures n % e.p != 0 && n % e.p == (z * (q.x2 - q.x1)) % e.p
  {
    hide *;
    FieldFacts(e);
    RepParts(q.x1, q.y1, z, P, e.p);
    RepParts(q.x2, q.y2, z, Q, e.p);
    InPlaneRange(P, e.p);
    InPlaneRange(Q, e.p);
    SumIsChord(e, P, Q);
    var s := z * z;
    d := (Q.x - P.x) * s;
    n := z * d;
    s3 := n * n;
    ScaledIntro(P.x, P.y, Q.x, z, s, d, n, s3);
    RunScaled(P.x, Q.x, z, e.p);
    CommonZ(P.x * s, Q.x * s, q.x1, q.x2, z, d, e.p);
  }

  lemma ScaledIntro(x1: int, y1: int, x2: int, z: int, s: int, d: int, n: int, s3: int)
    requires s == z * z && d == (x2 - x1) * s && n == z * d && s3 == n * n
    ensures Scaled(x1, y1, x2, z, s, z * s, d, n, s3) && d == x2 * s - x1 * s
  {
  }

  lemma CoZAddCOver(e: Elliptic, q: Quad, z: int, P: Point, Q: Point, d: int, n: int, s3: int)
    requires IsField(e) && InPlane(P, e.p) && InPlane(Q, e.p) && P.Affine? && Q.Affine?
    requires Rep(q.x1, q.y1, z, P, e.p) && Rep(q.x2, q.y2, z, Q, e.p) && P.x != Q.x
    requires Scaled(P.x, P.y, Q.x, z, z * z, z * (z * z), d, n, s3) && n % e.p != 0
    ensures var r := CoZAddC(q, e.p);
      Rep(r.x1, r.y1, n, Add(e, P, Neg(e, Q)), e.p) && Rep(r.x2, r.y2, n, Add(e, P, Q), e.p)
  {
    hide *;
    FieldFacts(e);
    RepParts(q.x1, q.y1, z, P, e.p);
    RepParts(q.x2, q.y2, z, Q, e.p);
    InPlaneRange(P, e.p);
    InPlaneRange(Q, e.p);
    SumIsChord(e, P, Q);
    DifferenceIsChord(e, P, Q);
    CoZAddCScaled(e, ChordSlope(e, P, Q), ChordSlope(e, P, Neg(e, Q)), P.x, P.y, Q.x, Q.y, z,
                  z * z, z * (z * z), d, n, s3);
  }

  /** XYcZ_addC: over the new common z, the first point is P - Q and the second is P + Q. */
  lemma CoZAddCCorrect(e: Elliptic, q: Quad, z: int, P: Point, Q: Point)
    requires IsField(e) && InPlane(P, e.p) && InPlane(Q, e.p)
    requires Rep(q.x1, q.y1, z, P, e.p) && Rep(q.x2, q.y2, z, Q, e.p) && P.x != Q.x
    ensures var r := CoZAddC(q, e.p); var z' := z * (q.x2 - q.x1);
      Rep(r.x1, r.y1, z', Add(e, P, Neg(e, Q)), e.p) && Rep(r.x2, r.y2, z', Add(e, P, Q), e.p)
  {
    hide *;
    FieldFacts(e);
    var d, n, s3 := NewCommonZ(e, q, z, P, Q);
    CoZAddCOver(e, q, z, P, Q, d, n, s3);
    var r := CoZAddC(q, e.p);
    RepCong(r.x1, r.y1, n, z * (q.x2 - q.x1), Add(e, P, Neg(e, Q)), e.p);
    RepCong(r.x2, r.y2, n, z * (q.x2 - q.x1), Add(e, P, Q), e.p);
  }

  lemma SumNumerator(y1: int, y2: int, t: int)
    ensures (y2 - y1) * t == y2 * t - y1 * t && (-y2 - y1) * t == -(y2 * t + y1 * t)
  {
  }

  lemma NegatedFactor(sum: int, f: int, x4: int, b: int)
    requires sum == -f
    ensures sum * sum == f * f && sum * (b - x4) == (x4 - b) * f
  {
  }

  // ----------------------------------------------------- the tangent formula

  lemma DoubleResidues(x: int, y: int, z: int, p: nat, m: int, a: int, b: int, x3: int)
    requires p > 0 && z % p != 0
    requires m == (x + z * z) * ((x + z * z) - (z * z + z * z)) && a == x * (y * y)
    requires b % p == HalfMod((m + (m + m)) % p, p) && x3 == b * b - a - a
    ensures DoubleJacobian(Jacobian(x % p, y % p, z % p), p)
         == Jacobian(x3 % p, (b * (a - x3) - (y * y) * (y * y)) % p, (y * z) % p)
  {
    var yy, zz := y * y, z * z;
    DoubleUnfold(x % p, y % p, z % p, p);
    hide *;
    FieldOps(y, y, p);
    FieldOps(z, z, p);
    FieldOps(x, yy, p);
    FieldOps(x, zz, p);
    FieldOps(zz, zz, p);
    FieldOps(x + zz, zz + zz, p);
    FieldOps(x + zz, (x + zz) - (zz + zz), p);
    FieldOps(m, m, p);
    FieldOps(m, m + m, p);
    FieldOps(b, b, p);
    FieldOps(b * b, a, p);
    FieldOps(b * b - a, a, p);
    FieldOps(a, x3, p);
    FieldOps(b, a - x3, p);
    FieldOps(yy, yy, p);
    FieldOps(b * (a - x3), yy * yy, p);
    FieldOps(y, z, p);
  }

  lemma DoubleUnfold(x: nat, y: nat, z: nat, p: nat)
    requires p > 0 && z != 0
    ensures var yy, zz := FMul(y, y, p), FMul(z, z, p);
      var a := FMul(x, yy, p);
      var sum := FAdd(x, zz, p);
      var m := FMul(sum, FSub(sum, FAdd(zz, zz, p), p), p);
      var b := HalfMod(FAdd(m, FAdd(m, m, p), p), p);
      var x3 := FSub(FSub(FMul(b, b, p), a, p), a, p);
      DoubleJacobian(Jacobian(x, y, z), p)
      == Jacobian(x3, FSub(FMul(b, FSub(a, x3, p), p), FMul(yy, yy, p), p), FMul(y, z, p))
  {
    hide FMul, FAdd, FSub, HalfMod;
  }

  /** The numerator of the tangent slope: 3 (x^2 - z^4) is twice l times the new z. */
  lemma TangentNumerator(x: int, y: int, l: int, z: int, p: nat, m: int, n: int)
    requires p > 0 && (l * (2 * y)) % p == (3 * x * x - 3) % p
    requires m == (x * (z * z) + z * z) * ((x * (z * z) + z * z) - (z * z + z * z)) && n == (y * (z * (z * z))) * z
    ensures (m + (m + m)) % p == (2 * (l * n)) % p
  {
    hide *;
    var s, q := z * z, (z * z) * (z * z);
    Factor(x, s);
    TangentScale(y, z, s, q, n);
    assert x * s + s - (s + s) == x * s - s;
    ModMulCong(l * (2 * y), 3 * x * x - 3, q, q, p);
    ThreeTimes(x * x, q, 3 * x * x - 3, m);
    TwiceSlope(l, y, q, n);
    assert m + (m + m) == 3 * m;
  }

  lemma TangentScale(y: int, z: int, s: int, q: int, n: int)
    requires s == z * z && q == s * s && n == (y * (z * s)) * z
    ensures n == y * q
  {
    assert (z * s) * z == q;
    assert (y * (z * s)) * z == y * ((z * s) * z);
  }

  lemma ThreeTimes(xx: int, q: int, k: int, m: int)
    requires m == (xx - 1) * q && k == 3 * xx - 3
    ensures k * q == 3 * m
  {
  }

  lemma TwiceSlope(l: int, y: int, q: int, n: int)
    requires n == y * q
    ensures (l * (2 * y)) * q == 2 * (l * n)
  {
    assert l * n == (l * y) * q by { MulAssoc(l, y, q); }
    assert l * (2 * y) == 2 * (l * y);
  }

  lemma Factor(x: int, s: int)
    ensures (x * s + s) * (x * s - s) == (x * x - 1) * (s * s)
  {
    assert (x * s + s) == (x + 1) * s && (x * s - s) == (x - 1) * s;
    assert ((x + 1) * s) * ((x - 1) * s) == ((x + 1) * (x - 1)) * (s * s);
  }

  lemma TangentParts(x: int, y: int, z: int, n: int, s3: int)
    requires n == (y * (z * (z * z))) * z && s3 == n * n
    ensures (x * (z * z)) * ((y * (z * (z * z))) * (y * (z * (z * z)))) == x * s3
    ensures var c := y * (z * (z * z)); (c * c) * (c * c) == y * (n * s3)
  {
    var c, s := y * (z * (z * z)), z * z;
    assert n == c * z;
    assert s3 == (c * c) * s by { assert (c * z) * (c * z) == (c * c) * (z * z); }
    assert (x * s) * (c * c) == x * ((c * c) * s);
    FourthPower(y, z, s, c, n, s3);
  }

  lemma FourthPower(y: int, z: int, s: int, c: int, n: int, s3: int)
    requires c == y * (z * s) && s == z * z && n == c * z && s3 == (c * c) * s
    ensures (c * c) * (c * c) == y * (n * s3)
  {
    assert c * c == y * (z * s) * c;
    assert n * s3 == (c * z) * ((c * c) * s);
    assert (c * z) * ((c * c) * s) == (c * c) * (c * (z * s));
    assert y * ((c * c) * (c * (z * s))) == (c * c) * (c * (y * (z * s)));
  }

  lemma TangentNumerators(x: int, y: int, l: int, n: int, s3: int, b: int, p: nat)
    requires p > 0 && b % p == (l * n) % p && s3 == n * n
    ensures (b * b - x * s3 - x * s3) % p == ((l * l - x - x) * s3) % p
    ensures (b * (x * s3 - (b * b - x * s3 - x * s3)) - y * (n * s3)) % p
         == ((l * (x - (l * l - x - x)) - y) * (n * s3)) % p
  {
    ChordNumerators(x, y, x, l, n, s3, b, p);
  }

  lemma HalfOfDouble(m: int, k: int, b: nat, p: nat)
    requires p % 2 == 1 && m % p == (2 * k) % p && b == HalfMod(m % p, p)
    ensures b % p == k % p
  {
    var h := m % p;
    HalfModExact(h, p);
    ModIdem(m, p);
    CancelTwo(b, k, p);
  }

  lemma SumIsTangent(e: Elliptic, P: Point)
    requires IsField(e) && P.Affine? && 0 < P.y < e.p
    ensures var l := TangentSlope(e, P);
      Add(e, P, P) == ThirdPoint(e, l, P.x, P.y, P.x) && (l * (2 * P.y)) % e.p == (3 * P.x * P.x - 3) % e.p
  {
    TangentSlopeLaw(e, P);
    hide TangentSlope, ThirdPoint;
  }

  lemma DoubleTangent(e: Elliptic, j: Jacobian, z: int, P: Point)
    requires IsField(e) && InPlane(P, e.p) && Rep(j.x, j.y, z, P, e.p) && j.z == z % e.p && P.y != 0
    ensures var r := DoubleJacobian(j, e.p);
      r.z == (j.y * z) % e.p && Rep(r.x, r.y, j.y * z, Add(e, P, P), e.p)
  {
    OddPrime(e.p);
    hide *;
    var p := e.p;
    FieldFacts(e);
    RepParts(j.x, j.y, z, P, p);
    InPlaneRange(P, e.p);
    SumIsTangent(e, P);
    var x: int, y: int, l := P.x, P.y, TangentSlope(e, P);
    var xs, c := x * (z * z), y * (z * (z * z));
    var n := c * z;
    var s3 := n * n;
    var m := (xs + z * z) * ((xs + z * z) - (z * z + z * z));
    TangentNumerator(x, y, l, z, p, m, n);
    var b: nat := HalfMod((m + (m + m)) % p, p);
    HalfOfDouble(m + (m + m), l * n, b, p);
    HalfModBelow((m + (m + m)) % p, p);
    ModSmall(b, p);
    TangentParts(x, y, z, n, s3);
    TangentNumerators(x, y, l, n, s3, b, p);
    var x3 := b * b - x * s3 - x * s3;
    DoubleResidues(xs, c, z, p, m, x * s3, b, x3);
    ModSmall(y, p);
    NonZeroProduct(z, z, p);
    NonZeroProduct(z, z * z, p);
    NonZeroProduct(y, z * (z * z), p);
    NonZeroProduct(c, z, p);
    RepOfIntegers(l * l - x - x, l * (x - (l * l - x - x)) - y, n, Add(e, P, P), p) by { ThirdPointIs(e, l, x, y, x); }
    ModIdem(c, p);
    ModMulCong(j.y, c, z, z, p);
    RepCong(x3 % p, (b * (x * s3 - x3) - y * (n * s3)) % p, n, j.y * z, Add(e, P, P), p);
  }

  /** double_jacobian_default computes P + P, with Z3 = Y1 * Z1; for y = 0, where P + P is infinite, Z3 is 0. */
  lemma DoubleCorrect(e: Elliptic, j: Jacobian, z: int, P: Point)
    requires IsField(e) && InPlane(P, e.p) && Rep(j.x, j.y, z, P, e.p) && j.z == z % e.p
    ensures var r := DoubleJacobian(j, e.p);
      && r.z == (j.y * z) % e.p
      && if P.y == 0 then Add(e, P, P) == Infinity && r.z == 0 else Rep(r.x, r.y, j.y * z, Add(e, P, P), e.p)
  {
    hide *;
    FieldFacts(e);
    RepParts(j.x, j.y, z, P, e.p);
    if P.y == 0 {
      DoubleFlat(j, z, e.p);
      FlatSum(e, P);
    } else {
      DoubleTangent(e, j, z, P);
    }
  }

  lemma FlatSum(e: Elliptic, P: Point)
    requires e.p > 3 && P.Affine? && P.y == 0
    ensures Add(e, P, P) == Infinity
  {
  }

  lemma DoubleFlat(j: Jacobian, z: int, p: nat)
    requires p > 0 && z % p != 0 && j.z == z % p && j.y == (0 * (z * (z * z))) % p
    ensures DoubleJacobian(j, p).z == 0 == (j.y * z) % p
  {
    assert 0 * (z * (z * z)) == 0;
    ModSmall(0, p);
    assert j.y == 0;
    assert 0 * j.z == 0 && 0 * z == 0;
    DoubleUnfold(j.x, j.y, j.z, p);
    FMulZero(j.z, p);
  }

  lemma FMulZero(b: int, p: nat)
    requires p > 0
    ensures FMul(0, b, p) == 0
  {
    assert 0 * b == 0;
    ModSmall(0, p);
  }

  lemma ThirdPointIs(e: Elliptic, l: int, x1: int, y1: int, x2: int)
    requires e.p > 0
    ensures ThirdPoint(e, l, x1, y1, x2) == Affine((l * l - x1 - x2) % e.p, (l * (x1 - (l * l - x1 - x2)) - y1) % e.p)
  {
  }

  // ------------------------------------------------ collapse of the ladder

  /** (x, y) lies on the cuspidal curve y^2 = x^3. */
  ghost predicate OnCusp(x: nat, y: nat, p: nat)
    requires p > 0
  {
    x < p && y < p && (y * y) % p == (x * (x * x)) % p
  }

  /** What is left of a co-Z pair whose x coordinates met: (0, 0) and a point of y^2 = x^3. */
  ghost predicate Collapsed(q: Quad, p: nat)
    requires p > 0
  {
    OnCusp(q.x1, q.y1, p) && OnCusp(q.x2, q.y2, p)
    && ((q.x1 == 0 && q.y1 == 0) || (q.x2 == 0 && q.y2 == 0))
  }

  lemma SelfResidues(q: Quad, p: nat)
    requires q.x1 < p && q.y1 < p && q.x2 < p && q.y2 < p
    ensures q == Quad(q.x1 % p, q.y1 % p, q.x2 % p, q.y2 % p)
  {
    ModSmall(q.x1, p);
    ModSmall(q.y1, p);
    ModSmall(q.x2, p);
    ModSmall(q.y2, p);
  }

  /** XYcZ_addC of opposite points: P - Q degenerates to (0, 0) and P + Q to a point of the cusp. */
  lemma OppositePointsCollapse(q: Quad, p: nat)
    requires q.x1 == q.x2 < p && q.y1 < p && q.y2 < p && (q.y1 + q.y2) % p == 0
    ensures var r := CoZAddC(q, p); r.x1 == 0 && r.y1 == 0 && Collapsed(r, p)
  {
    SelfResidues(q, p);
    var e, f := q.y2 - q.y1, q.y2 + q.y1;
    var x4 := f * f;
    CoZAddCResidues(q.x1, q.y1, q.x2, q.y2, p, 0, 0, 0, e, f, e * e, x4, 0) by {
      assert q.x1 * (0 * 0) == 0 && q.x2 * (0 * 0) == 0 && q.y1 * (0 - 0) == 0;
    }
    hide CoZAddC;
    ModMulZero(f, f, p);
    ModMulZero(f, x4, p);
    assert x4 * f == (x4 - 0) * f - 0;
    CuspOfSlope(e, p);
  }

  lemma CuspOfSlope(e: int, p: nat)
    requires p > 0
    ensures OnCusp((e * e) % p, (e * (0 - e * e) - 0) % p, p) && OnCusp(0, 0, p)
  {
    var x, y := e * e, e * (0 - e * e) - 0;
    assert y * y == x * (x * x) by {
      assert y == -(e * x);
      assert (e * x) * (e * x) == (e * e) * (x * x);
    }
    ModMul(y, y, p);
    ModIdem(x, p);
    ModMulCong(x % p, x, x % p, x, p);
    ModMulCong(x % p, x, (x % p) * (x % p), x * x, p);
  }

  lemma CuspSlack(x: nat, y: nat, p: nat)
    requires p > 0 && OnCusp(x, y, p)
    ensures (y * y - x * (x * x)) % p == 0
  {
    ModDiff(y * y, x * (x * x), p);
  }

  /** The quantities of the formulas when the second point is (0, 0). */
  lemma SecondZeroParts(x: int, y: int, d: int, e: int, b: int, s: int)
    requires d == 0 - x && e == 0 - y && b == x * (x * x) && s == y * (0 - b)
    ensures x * (d * d) == b && 0 * (d * d) == 0 && e * e == y * y
  {
    assert d * d == x * x;
  }

  lemma CuspCancels(k: int, b: int, y: int, s: int, e: int)
    requires s == y * (0 - b) && e == 0 - y
    ensures (k - b) * y - s == k * y && e * (b - k) - s == k * y
  {
    assert (k - b) * y == k * y - b * y;
    assert e * (b - k) == k * y - y * b;
  }

  lemma FirstZeroAddC(x: nat, y: nat, p: nat)
    requires p > 0 && OnCusp(x, y, p)
    ensures CoZAddC(Quad(0, 0, x, y), p) == Quad(0, 0, 0, 0)
  {
    SelfResidues(Quad(0, 0, x, y), p);
    var c := x * (x * x);
    var k, e := y * y - c, 0 - y;
    CuspSlack(x, y, p);
    hide CoZAddC, OnCusp;
    CoZAddCResidues(0, 0, x, y, p, x, 0, c, y, y, k, k, 0);
    ModMulZero(k, y, p);
    ModMulZero(k, e, p);
    assert (k - 0) * y - 0 == k * y && y * (0 - k) - 0 == k * e;
  }

  lemma SecondZeroAddC(x: nat, y: nat, p: nat)
    requires p > 0 && OnCusp(x, y, p)
    ensures CoZAddC(Quad(x, y, 0, 0), p) == Quad(0, 0, 0, 0)
  {
    SelfResidues(Quad(x, y, 0, 0), p);
    var b := x * (x * x);
    var k, d, e := y * y - b, 0 - x, 0 - y;
    var s := y * (0 - b);
    CuspSlack(x, y, p);
    SecondZeroParts(x, y, d, e, b, s);
    hide *;
    CoZAddCResidues(x, y, 0, 0, p, d, b, 0, e, y, k, k, s);
    ModMulZero(k, y, p);
    CuspCancels(k, b, y, s, e);
  }

  /** XYcZ_addC of a collapsed pair is zero everywhere. */
  lemma CollapsedAddC(q: Quad, p: nat)
    requires p > 0 && Collapsed(q, p)
    ensures CoZAddC(q, p) == Quad(0, 0, 0, 0)
  {
    hide CoZAddC, OnCusp;
    if q.x1 == 0 && q.y1 == 0 {
      FirstZeroAddC(q.x2, q.y2, p);
    } else {
      SecondZeroAddC(q.x1, q.y1, p);
    }
  }

  lemma FirstZeroAdd(x: nat, y: nat, p: nat)
    requires p > 0 && OnCusp(x, y, p)
    ensures CoZAdd(Quad(0, 0, x, y), p) == Quad(0, 0, 0, 0)
  {
    SelfResidues(Quad(0, 0, x, y), p);
    var c := x * (x * x);
    var k, e := y * y - c, 0 - y;
    CuspSlack(x, y, p);
    hide CoZAdd, OnCusp;
    CoZAddResidues(0, 0, x, y, p, x, 0, c, y, k, 0);
    ModMulZero(k, e, p);
    assert y * (0 - k) - 0 == k * e;
  }

  lemma SecondZeroAdd(x: nat, y: nat, p: nat)
    requires p > 0 && OnCusp(x, y, p)
    ensures var r := CoZAdd(Quad(x, y, 0, 0), p); OnCusp(r.x1, r.y1, p) && r.x2 == 0 && r.y2 == 0
  {
    SelfResidues(Quad(x, y, 0, 0), p);
    var b := x * (x * x);
    var k, d, e := y * y - b, 0 - x, 0 - y;
    var s := y * (0 - b);
    CuspSlack(x, y, p);
    SecondZeroParts(x, y, d, e, b, s);
    hide *;
    CoZAddResidues(x, y, 0, 0, p, d, b, 0, e, k, s);
    CuspRescaled(x, y, b, s, p);
    ModMulZero(k, y, p);
    CuspCancels(k, b, y, s, e);
  }

  /** XYcZ_add keeps a pair collapsed, and leaves (0, 0) second. */
  lemma CollapsedAdd(q: Quad, p: nat)
    requires p > 0 && Collapsed(q, p)
    ensures var r := CoZAdd(q, p); Collapsed(r, p) && r.x2 == 0 && r.y2 == 0
  {
    CuspOfSlope(0, p);
    hide CoZAdd, OnCusp;
    if q.x1 == 0 && q.y1 == 0 {
      FirstZeroAdd(q.x2, q.y2, p);
    } else {
      SecondZeroAdd(q.x1, q.y1, p);
    }
  }

  lemma SquareOfProduct(y: int, b: int, s: int)
    requires s == y * (0 - b)
    ensures s * s == (y * y) * (b * b)
  {
    var u := y * b;
    assert s == -u;
    assert u * u == (y * y) * (b * b);
  }

  lemma CuspRescaled(x: nat, y: nat, b: int, s: int, p: nat)
    requires p > 0 && OnCusp(x, y, p) && b == x * (x * x) && s == y * (0 - b)
    ensures OnCusp(b % p, s % p, p)
  {
    SquareOfProduct(y, b, s);
    CubeResidue(b, p);
    ModMul(s, s, p);
    var t, bb := y * y, b * b;
    ModMulCong(t, b, bb, bb, p);
  }

  lemma CubeResidue(b: int, p: nat)
    requires p > 0
    ensures ((b % p) * ((b % p) * (b % p))) % p == (b * (b * b)) % p
  {
    ModIdem(b, p);
    ModMulCong(b % p, b, b % p, b, p);
    ModMulCong(b % p, b, (b % p) * (b % p), b * b, p);
  }
}
