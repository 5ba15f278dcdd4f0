/**
 ecdsa_verify, and the theorems about it: which signatures it accepts under the key d * G, and that it
 accepts what ecdsa_sign_with_k produced (SEC 1 v2 sections 4.1.3 and 4.1.4).
 */
module Verify {
  import opened Arith
  import opened Words
  import opened Bytes
  import opened Modular
  import opened P256
  import opened Field
  import opened Curve
  import opened CoZ
  import opened Points
  import opened Ladder
  import opened Keys
  import opened Compress
  import opened Digest
  import opened Shamir
  import opened Sign

  // ------------------------------------------------------ the decision

  function BitLength(v: nat): (r: nat)
  {
    if v == 0 then 0 else 1 + BitLength(v / 2)
  }

  lemma {:induction false} BitLengthIs(v: nat)
    ensures v < Pow(2, BitLength(v)) && (v > 0 ==> BitLength(v) >= 1 && Pow(2, BitLength(v) - 1) <= v)
  {
    if v == 0 {
      assert Pow(2, 0) == 1;
    } else {
      BitLengthIs(v / 2);
      Pow2Step(BitLength(v / 2));
      if v / 2 == 0 {
        assert Pow(2, 0) == 1;
      } else {
        Pow2Step(BitLength(v / 2) - 1);
      }
    }
  }

  lemma BitLengthUnique(v: nat, bits: nat)
    requires v == 0 ==> bits == 0
    requires v > 0 ==> bits >= 1 && Pow(2, bits - 1) <= v < Pow(2, bits)
    ensures bits == BitLength(v)
  {
    BitLengthIs(v);
    var b := BitLength(v);
    assert v == 0 ==> b == 0;
    hide BitLength;
    if v > 0 {
      if bits < b {
        PowMonotone(2, bits, b - 1);
      } else if b < bits {
        PowMonotone(2, b, bits - 1);
      }
    }
  }

  /** smax of the two bit counts. */
  function JointBits(u1: nat, u2: nat): (r: nat)
  {
    if BitLength(u1) > BitLength(u2) then BitLength(u1) else BitLength(u2)
  }

  /** The position the loop starts from, for scalars that are not both zero. */
  function TopOf(u1: nat, u2: nat): (r: nat)
  {
    if JointBits(u1, u2) == 0 then 0 else JointBits(u1, u2) - 1
  }

  lemma JointBitsAre(u1: nat, u2: nat)
    requires u2 > 0
    ensures JointBits(u1, u2) >= 1
    ensures TopOf(u1, u2) == JointBits(u1, u2) - 1
    ensures u1 < Pow(2, JointBits(u1, u2)) && u2 < Pow(2, JointBits(u1, u2))
    ensures Index(u1, u2, TopOf(u1, u2)) != 0
  {
    BitLengthIs(u1);
    BitLengthIs(u2);
    var b1, b2, b := BitLength(u1), BitLength(u2), JointBits(u1, u2);
    PowMonotone(2, b1, b);
    PowMonotone(2, b2, b);
    hide BitLength, Pow;
    if b1 == b {
      TopBit(u1, b1);
    } else {
      TopBit(u2, b2);
    }
    IndexIsZero(u1, u2, b - 1);
  }

  lemma IndexIsZero(u1: nat, u2: nat, i: nat)
    ensures Index(u1, u2, i) == 0 <==> Bit(u1, i) == 0 && Bit(u2, i) == 0
  {
    hide Bit;
  }

  lemma TopBit(v: nat, bits: nat)
    requires bits >= 1 && Pow(2, bits - 1) <= v < Pow(2, bits)
    ensures Bit(v, bits - 1) == 1
  {
    Pow2Step(bits - 1);
    var p := Pow(2, bits - 1);
    BitIs(v, bits - 1);
    hide *;
    DivModUnique(v, p, 1, v - p);
  }

  /** The table for a public key (x, y). */
  function KeyTable(x: nat, y: nat): (r: Table)
  {
    Table((GX(), GY()), (x, y), SumPoint((GX(), GY()), (x, y), PrimeP()))
  }

  /** The affine x of the sum that the loop computes. */
  function JointX(u1: nat, u2: nat, x: nat, y: nat): (r: nat)
  {
    FinalX(JointSum(u1, u2, TopOf(u1, u2), 0, KeyTable(x, y), PrimeP()), PrimeP())
  }

  function U1(e: nat, s: nat): (u: nat)
  {
    FMul(e, FInv(s, OrderN()), OrderN())
  }

  function U2(r: nat, s: nat): (u: nat)
  {
    FMul(r, FInv(s, OrderN()), OrderN())
  }

  function ReduceOnce(x: nat): (r: nat)
  {
    if x >= OrderN() then x - OrderN() else x
  }

  predicate InOrder(v: nat)
  {
    0 < v < OrderN()
  }

  /** What ecdsa_verify answers for the public key (x, y), the digest integer e and the signature (r, s). */
  predicate Accepts(x: nat, y: nat, e: nat, r: nat, s: nat)
  {
    InOrder(r) && InOrder(s) && U2(r, s) > 0 && ReduceOnce(JointX(U1(e, s), U2(r, s), x, y)) == r
  }

  lemma AcceptsIs(x: nat, y: nat, e: nat, r: nat, s: nat)
    ensures Accepts(x, y, e, r, s) ==> InOrder(r) && InOrder(s)
    ensures InOrder(r) && InOrder(s) && U2(r, s) > 0 ==>
              (Accepts(x, y, e, r, s) <==> ReduceOnce(JointX(U1(e, s), U2(r, s), x, y)) == r)
  {
    hide InOrder, U1, U2, JointX, ReduceOnce;
  }

  lemma InOrderIs(v: nat)
    ensures InOrder(v) <==> 0 < v < OrderN()
  {
    hide OrderN;
  }

  /** With a prime order the second scalar is never zero, so a table entry exists for the top bit. */
  lemma U2NotZero(r: nat, s: nat)
    requires IsPrime(OrderN()) && InOrder(r) && InOrder(s)
    ensures U2(r, s) > 0
  {
    var n := OrderN();
    OrderOdd();
    hide OrderN, FInv, IsPrime;
    ModSmall(r, n);
    ModSmall(s, n);
    InverseLaw(s, n);
    BothUnits(r, FInv(s, n), n);
  }

  // ------------------------------------------------------------ the loop

  /** Words of 256 bits exceed p by less than either coordinate of G. */
  lemma RawBound(s: seq<nat>, w: nat)
    requires Raw(s, w)
    ensures Val(s, w) + 1 < 2 * PrimeP() && Val(s, w) < GX() + PrimeP() && Val(s, w) < GY() + PrimeP()
  {
    hide *;
    RawFacts(s, w);
    SizeFacts(w);
    ValBound(s, w);
    BasePow(w, NumWords(w));
    TwoTo256Is();
    SlackBelowGenerator();
    assert w * NumWords(w) == NumWords(w) * w;
  }

  /** The words of points[1..4] hold the table; the public key's need not be reduced. */
  ghost predicate TableWords(px: seq<array<nat>>, py: seq<array<nat>>, t: Table, w: nat)
    reads px, py
    requires |px| == |py| == 3
  {
    && (forall i :: 0 <= i < 3 ==> Raw(px[i][..], w) && Raw(py[i][..], w))
    && t == Table((Val(px[0][..], w), Val(py[0][..], w)), (Val(px[1][..], w), Val(py[1][..], w)),
                  (Val(px[2][..], w), Val(py[2][..], w)))
  }

  lemma TableEntry(px: seq<array<nat>>, py: seq<array<nat>>, t: Table, w: nat, index: nat)
    requires |px| == |py| == 3 && TableWords(px, py, t, w) && 1 <= index <= 3
    ensures Raw(px[index - 1][..], w) && Raw(py[index - 1][..], w)
    ensures Select(t, index) == (Val(px[index - 1][..], w), Val(py[index - 1][..], w))
  {
    hide Raw, Val;
  }

  lemma AddPointSteps(j: Jacobian, t: (nat, nat), p: nat, a: (nat, nat), r: Quad)
    requires p > 0 && a == ApplyZ(t.0, t.1, j.z, p) && r == CoZAdd(Quad(a.0, a.1, j.x, j.y), p)
    ensures AddPoint(j, t, p) == Jacobian(r.x2, r.y2, FMul(j.z, FSub(j.x, a.0, p), p))
  {
    hide ApplyZ, CoZAdd, FMul, FSub;
  }

  lemma QuadParts(x1: nat, y1: nat, x2: nat, y2: nat, q: Quad)
    requires Quad(x1, y1, x2, y2) == q
    ensures q.x1 == x1 && q.y1 == y1 && q.x2 == x2 && q.y2 == y2
  {
  }

  lemma TuplePair(x: nat, y: nat, t: (nat, nat))
    requires (x, y) == t
    ensures t.0 == x && t.1 == y
  {
  }

  /** The body of "if (point)": a copy of the point over the running Z, added to the running point. */
  method AddPointInPlace(rx: array<nat>, ry: array<nat>, z: array<nat>, px: array<nat>, py: array<nat>, w: nat)
    requires Fe(rx[..], w) && Fe(ry[..], w) && Fe(z[..], w) && Raw(px[..], w) && Raw(py[..], w)
    requires rx != ry && rx != z && ry != z
    modifies rx, ry, z
    ensures Fe(rx[..], w) && Fe(ry[..], w) && Fe(z[..], w)
    ensures Jacobian(Val(rx[..], w), Val(ry[..], w), Val(z[..], w))
         == old(AddPoint(Jacobian(Val(rx[..], w), Val(ry[..], w), Val(z[..], w)),
                         (Val(px[..], w), Val(py[..], w)), PrimeP()))
  {
    hide *;
    FeFacts(rx[..], w);
    PrimeConstant(w);
    ghost var j := Jacobian(Val(rx[..], w), Val(ry[..], w), Val(z[..], w));
    ghost var t := (Val(px[..], w), Val(py[..], w));
    var tx := Clone(px);
    var ty := Clone(py);
    ApplyZWords(tx, ty, z, w);
    ghost var a := ApplyZ(t.0, t.1, j.z, PrimeP());
    TuplePair(Val(tx[..], w), Val(ty[..], w), a);
    var tz := new nat[rx.Length];
    FieldSub(tz, rx, tx, w);   // the factor that the common Z grows by
    XYcZAdd(tx, ty, rx, ry, w);
    ghost var r := CoZAdd(Quad(a.0, a.1, j.x, j.y), PrimeP());
    QuadParts(Val(tx[..], w), Val(ty[..], w), Val(rx[..], w), Val(ry[..], w), r);
    FeFacts(z[..], w);
    FieldMult(z, z, tz, w);
    AddPointSteps(j, t, PrimeP(), a, r);
  }

  /** The index of the point to add for bit i. */
  method PointIndex(u1: array<nat>, u2: array<nat>, i: nat, w: nat) returns (index: nat)
    requires w >= 1 && u1.Length == u2.Length && i < w * u1.Length && IsWords(u1[..], w) && IsWords(u2[..], w)
    ensures index == Index(Val(u1[..], w), Val(u2[..], w), i)
  {
    hide *;
    var b1 := VliTestBit(u1, i, w);
    var b2 := VliTestBit(u2, i, w);
    index := BitOr(if b1 then 1 else 0, if b2 then 2 else 0);
    IndexOfTests(Val(u1[..], w), Val(u2[..], w), i, b1, b2);
  }

  lemma IndexOfTests(u1: nat, u2: nat, i: nat, b1: bool, b2: bool)
    requires (b1 <==> Bit(u1, i) == 1) && (b2 <==> Bit(u2, i) == 1)
    ensures BitOr(if b1 then 1 else 0, if b2 then 2 else 0) == Index(u1, u2, i)
  {
    BitCases(u1, i);
    BitCases(u2, i);
    assert BitOr(1, 2) == 3;
    hide Bit;
  }

  /** A running point: reduced, or a table point as it stands, over Z = 1. */
  ghost predicate Running(x: seq<nat>, y: seq<nat>, z: seq<nat>, w: nat)
  {
    Raw(x, w) && Raw(y, w) && Fe(z, w) && (Val(z, w) == 1 || (Fe(x, w) && Fe(y, w)))
  }

  lemma RunningIs(x: seq<nat>, y: seq<nat>, z: seq<nat>, w: nat)
    ensures Running(x, y, z, w) <==> Raw(x, w) && Raw(y, w) && Fe(z, w) && (Val(z, w) == 1 || (Fe(x, w) && Fe(y, w)))
    ensures Fe(x, w) && Fe(y, w) && Fe(z, w) ==> Running(x, y, z, w)
  {
    RawFacts(x, w);
    RawFacts(y, w);
    hide Raw, Fe, Val;
  }

  /** A running point can be doubled. */
  lemma RunningDoubles(x: seq<nat>, y: seq<nat>, z: seq<nat>, w: nat)
    requires Running(x, y, z, w)
    ensures PrimeP() > 0 && (Val(z, w) == 0 ==> Fe(x, w) && Fe(y, w))
    ensures Val(x, w) + FMul(Val(z, w), Val(z, w), PrimeP()) < 2 * PrimeP()
  {
    hide *;
    RunningIs(x, y, z, w);
    RawFacts(x, w);
    RawFacts(z, w);
    PrimeConstant(w);
    RawBound(x, w);
    if Val(z, w) == 1 {
      FieldOpsAre(1, 1, PrimeP());
      ModSmall(1, PrimeP());
    } else {
      FMulBelow(Val(z, w), Val(z, w), PrimeP());
    }
  }

  /** One iteration of the loop. */
  method ShamirStepInPlace(rx: array<nat>, ry: array<nat>, z: array<nat>, px: seq<array<nat>>, py: seq<array<nat>>,
                           index: nat, w: nat, ghost t: Table)
    requires Running(rx[..], ry[..], z[..], w)
    requires rx != ry && rx != z && ry != z && |px| == |py| == 3 && index <= 3
    requires TableWords(px, py, t, w)
    requires rx !in px && ry !in px && z !in px && rx !in py && ry !in py && z !in py
    modifies rx, ry, z
    ensures Fe(rx[..], w) && Fe(ry[..], w) && Fe(z[..], w)
    ensures PrimeP() > 0
    ensures Jacobian(Val(rx[..], w), Val(ry[..], w), Val(z[..], w))
         == ShamirStep(old(Jacobian(Val(rx[..], w), Val(ry[..], w), Val(z[..], w))), index, t, PrimeP())
  {
    hide *;
    RunningIs(rx[..], ry[..], z[..], w);
    RunningDoubles(rx[..], ry[..], z[..], w);
    ghost var j := Jacobian(Val(rx[..], w), Val(ry[..], w), Val(z[..], w));
    DoubleWords(rx, ry, z, w);
    StepIs(j, index, t, PrimeP());
    if index != 0 {
      TableEntry(px, py, t, w, index);
      AddPointInPlace(rx, ry, z, px[index - 1], py[index - 1], w);
    }
  }

  /** Shamir's trick: from the point of the top bit down to bit 0. */
  method RunShamir(u1: array<nat>, u2: array<nat>, px: seq<array<nat>>, py: seq<array<nat>>, numBits: nat, w: nat,
                   ghost t: Table) returns (rx: array<nat>, ry: array<nat>, z: array<nat>)
    requires WordSize(w) && |px| == |py| == 3 && TableWords(px, py, t, w)
    requires w >= 1 && u1.Length == u2.Length && 1 <= numBits <= w * u1.Length
    requires IsWords(u1[..], w) && IsWords(u2[..], w)
    requires Index(Val(u1[..], w), Val(u2[..], w), numBits - 1) != 0
    ensures fresh(rx) && fresh(ry) && fresh(z) && rx != ry && rx != z && ry != z
    ensures Running(rx[..], ry[..], z[..], w)
    ensures PrimeP() > 0
    ensures Jacobian(Val(rx[..], w), Val(ry[..], w), Val(z[..], w))
         == JointSum(Val(u1[..], w), Val(u2[..], w), numBits - 1, 0, t, PrimeP())
  {
    hide *;
    PrimeConstant(w);
    ghost var v1, v2, top := Val(u1[..], w), Val(u2[..], w), numBits - 1;
    var index := PointIndex(u1, u2, numBits - 1, w);
    IndexRange(v1, v2, top);
    TableEntry(px, py, t, w, index);
    rx := Clone(px[index - 1]);
    ry := Clone(py[index - 1]);
    z := SmallNumber(1, w);
    RunningIs(rx[..], ry[..], z[..], w);
    JointSumUnfold(v1, v2, top, top, t, PrimeP());
    var i := numBits - 1;
    while i > 0
      invariant 0 <= i <= top
      invariant Running(rx[..], ry[..], z[..], w) && TableWords(px, py, t, w)
      invariant Jacobian(Val(rx[..], w), Val(ry[..], w), Val(z[..], w)) == JointSum(v1, v2, top, i, t, PrimeP())
    {
      i := i - 1;
      index := PointIndex(u1, u2, i, w);
      IndexRange(v1, v2, i);
      ShamirStepInPlace(rx, ry, z, px, py, index, w, t);
      RunningIs(rx[..], ry[..], z[..], w);
      JointSumUnfold(v1, v2, top, i, t, PrimeP());
    }
  }

  lemma IndexRange(u1: nat, u2: nat, i: nat)
    ensures Index(u1, u2, i) <= 3
  {
    hide Bit;
  }

  // ---------------------------------------------------------- ecdsa_verify

  lemma SumPointSteps(g: (nat, nat), q: (nat, nat), p: nat, r: Quad, z: nat, a: (nat, nat))
    requires p >= 2 && z == FSub(q.0, g.0, p) && r == CoZAdd(Quad(g.0, g.1, q.0, q.1), p)
    requires a == ApplyZ(r.x2, r.y2, if z == 0 then 0 else FInv(z, p), p)
    ensures a == SumPoint(g, q, p)
  {
    hide CoZAdd, ApplyZ, FInv, FSub;
  }

  /** sum = G + Q, beside the other two points of the table. */
  method BuildTable(publicX: array<nat>, publicY: array<nat>, w: nat)
    returns (px: seq<array<nat>>, py: seq<array<nat>>)
    requires IsPrime(PrimeP()) && Raw(publicX[..], w) && Raw(publicY[..], w)
    ensures |px| == |py| == 3
    ensures TableWords(px, py, KeyTable(Val(publicX[..], w), Val(publicY[..], w)), w)
  {
    hide *;
    RawFacts(publicX[..], w);
    PrimeConstant(w);
    SizeFacts(w);
    RawBound(publicX[..], w);
    RawBound(publicY[..], w);
    ghost var q := (Val(publicX[..], w), Val(publicY[..], w));
    var sumX := Clone(publicX);
    var sumY := Clone(publicY);
    AddGenerator(sumX, sumY, w);
    FeFacts(sumX[..], w);
    FeFacts(sumY[..], w);
    var gx, gy := LoadGenerator(w);
    FeFacts(gx[..], w);
    FeFacts(gy[..], w);
    RawFacts(sumX[..], w);
    RawFacts(sumY[..], w);
    RawFacts(gx[..], w);
    RawFacts(gy[..], w);
    px, py := [gx, publicX, sumX], [gy, publicY, sumY];
    TableBuilt(px, py, w);
  }

  /** From the public key's coordinates to those of G + Q, affine. */
  method AddGenerator(sumX: array<nat>, sumY: array<nat>, w: nat)
    requires IsPrime(PrimeP()) && Raw(sumX[..], w) && Raw(sumY[..], w) && sumX != sumY && PrimeP() >= 2
    requires Val(sumX[..], w) < GX() + PrimeP() && Val(sumY[..], w) < GY() + PrimeP()
    modifies sumX, sumY
    ensures Fe(sumX[..], w) && Fe(sumY[..], w)
    ensures (Val(sumX[..], w), Val(sumY[..], w))
         == SumPoint((GX(), GY()), old((Val(sumX[..], w), Val(sumY[..], w))), PrimeP())
  {
    hide *;
    RawFacts(sumX[..], w);
    ghost var g, q := (GX(), GY()), (Val(sumX[..], w), Val(sumY[..], w));
    var tx, ty := LoadGenerator(w);
    var z := new nat[NumWords(w)];
    FieldSubWords(z, sumX, tx, w);   // z holds the difference of the x coordinates
    ghost var zv := Val(z[..], w);
    XYcZAddWords(tx, ty, sumX, sumY, w);
    ghost var r := CoZAdd(Quad(g.0, g.1, q.0, q.1), PrimeP());
    QuadParts(Val(tx[..], w), Val(ty[..], w), Val(sumX[..], w), Val(sumY[..], w), r);
    FeFacts(z[..], w);
    FieldInv(z, z, w);
    ApplyZInPlace(sumX, sumY, z, w);
    SumPointSteps(g, q, PrimeP(), r, zv, (Val(sumX[..], w), Val(sumY[..], w)));
  }

  lemma TableBuilt(px: seq<array<nat>>, py: seq<array<nat>>, w: nat)
    requires |px| == |py| == 3 && Raw(px[0][..], w) && Raw(px[1][..], w) && Raw(px[2][..], w)
    requires Raw(py[0][..], w) && Raw(py[1][..], w) && Raw(py[2][..], w)
    requires Val(px[0][..], w) == GX() && Val(py[0][..], w) == GY() && PrimeP() >= 2
    requires (Val(px[2][..], w), Val(py[2][..], w))
          == SumPoint((GX(), GY()), (Val(px[1][..], w), Val(py[1][..], w)), PrimeP())
    ensures TableWords(px, py, KeyTable(Val(px[1][..], w), Val(py[1][..], w)), w)
  {
    hide Raw, Val, GX, GY, SumPoint, PrimeP;
  }

  /** The joint loop and its return to an affine x. */
  method JointAffineX(u1: array<nat>, u2: array<nat>, publicX: array<nat>, publicY: array<nat>, w: nat)
    returns (rx: array<nat>)
    requires IsPrime(PrimeP()) && Raw(publicX[..], w) && Raw(publicY[..], w)
    requires u1.Length == u2.Length == NumWords(w) && IsWords(u1[..], w) && IsWords(u2[..], w)
    requires Val(u2[..], w) > 0
    ensures fresh(rx) && Fe(rx[..], w)
    ensures Val(rx[..], w) == JointX(Val(u1[..], w), Val(u2[..], w), Val(publicX[..], w), Val(publicY[..], w))
  {
    hide *;
    RawFacts(publicX[..], w);
    PrimeConstant(w);
    SizeFacts(w);
    ghost var v1, v2, x, y := Val(u1[..], w), Val(u2[..], w), Val(publicX[..], w), Val(publicY[..], w);
    var bits1 := VliNumBits(u1, w);
    var bits2 := VliNumBits(u2, w);
    BitLengthUnique(v1, bits1);
    BitLengthUnique(v2, bits2);
    var numBits := if bits1 > bits2 then bits1 else bits2;
    JointBitsAre(v1, v2);
    JointBitsIs(v1, v2);
    var px, py := BuildTable(publicX, publicY, w);
    ghost var t := KeyTable(x, y);
    var ry, z;
    rx, ry, z := RunShamir(u1, u2, px, py, numBits, w, t);
    ghost var j := Jacobian(Val(rx[..], w), Val(ry[..], w), Val(z[..], w));
    RunningIs(rx[..], ry[..], z[..], w);
    FeFacts(z[..], w);
    FieldInv(z, z, w);
    ApplyZWords(rx, ry, z, w);
    FinalXIs(j, PrimeP());
    TuplePair(Val(rx[..], w), Val(ry[..], w),
              ApplyZ(j.x, j.y, if j.z == 0 then 0 else FInv(j.z, PrimeP()), PrimeP()));
    JointXIs(v1, v2, x, y);
  }

  lemma JointBitsIs(u1: nat, u2: nat)
    ensures JointBits(u1, u2) == if BitLength(u1) > BitLength(u2) then BitLength(u1) else BitLength(u2)
  {
    hide BitLength;
  }

  lemma JointXIs(u1: nat, u2: nat, x: nat, y: nat)
    ensures PrimeP() >= 2
    ensures JointX(u1, u2, x, y) == FinalX(JointSum(u1, u2, TopOf(u1, u2), 0, KeyTable(x, y), PrimeP()), PrimeP())
  {
    hide TopOf, FinalX, JointSum, KeyTable, PrimeP;
  }

  /** The affine x brought below n, by one subtraction. */
  method ReduceInPlace(rx: array<nat>, w: nat)
    requires WordSize(w) && rx.Length == NumWords(w) && IsWords(rx[..], w)
    modifies rx
    ensures IsWords(rx[..], w) && Val(rx[..], w) == ReduceOnce(old(Val(rx[..], w)))
  {
    hide *;
    OrderConstant(w);
    var n := Constant(OrderWords(w));
    ghost var x := Val(rx[..], w);
    ReduceIs(x);
    var c := VliCmp(n, rx, w);
    if c != 1 {
      var borrow := VliSub(rx, rx, n, w);
      ValBound(rx[..], w);
      NoBorrow(Val(rx[..], w), borrow, x - OrderN(), Pow(Base(w), NumWords(w)));
    }
  }

  lemma ReduceIs(x: nat)
    ensures ReduceOnce(x) == if x >= OrderN() then x - OrderN() else x
  {
    hide OrderN;
  }

  /** The range test on r and s. */
  method TestOrder(v: array<nat>, w: nat) returns (inside: bool)
    requires WordSize(w) && v.Length == NumWords(w) && IsWords(v[..], w)
    ensures inside <==> InOrder(Val(v[..], w))
  {
    hide *;
    OrderConstant(w);
    InOrderIs(Val(v[..], w));
    var zero := VliIsZero(v, w);
    if zero {
      return false;
    }
    var n := Constant(OrderWords(w));
    var c := VliCmp(n, v, w);
    inside := c == 1;
  }

  /** The two scalars of the verification, U1 and U2. */
  method JointScalars(r: array<nat>, s: array<nat>, messageHash: array<nat>, hashSize: nat, w: nat)
    returns (u1: array<nat>, u2: array<nat>)
    requires WordSize(w) && IsPrime(OrderN()) && r.Length == s.Length == NumWords(w)
    requires IsWords(r[..], w) && IsWords(s[..], w) && InOrder(Val(s[..], w))
    requires hashSize <= messageHash.Length && IsBytes(messageHash[..hashSize])
    ensures u1.Length == u2.Length == NumWords(w) && IsWords(u1[..], w) && IsWords(u2[..], w)
    ensures Val(u1[..], w) == U1(DigestInt(messageHash[..hashSize], OrderN(), 256), Val(s[..], w))
    ensures Val(u2[..], w) == U2(Val(r[..], w), Val(s[..], w))
  {
    hide *;
    OrderConstant(w);
    WordBytes(w);
    ScalarsAre(DigestInt(messageHash[..hashSize], OrderN(), 256), Val(r[..], w), Val(s[..], w));
    InOrderIs(Val(s[..], w));
    var n := Constant(OrderWords(w));
    var z := new nat[NumWords(w)];
    OrderInv(z, s, w);   // z holds the inverse of s
    u1, u2 := new nat[NumWords(w)], new nat[NumWords(w)];
    Bits2Int(u1, messageHash, hashSize, n, 256, w / 8);
    OrderMult(u1, u1, z, w);
    OrderMult(u2, r, z, w);
  }

  lemma ScalarsAre(e: nat, r: nat, s: nat)
    ensures OrderN() >= 2 && U1(e, s) == FMul(e, FInv(s, OrderN()), OrderN())
    ensures U2(r, s) == FMul(r, FInv(s, OrderN()), OrderN())
  {
    hide OrderN, FInv, FMul;
  }

  /** ecdsa_verify, for any 64 bytes as the public key: its coordinates need not be below p. */
  method EcdsaVerify(publicKey: array<nat>, messageHash: array<nat>, hashSize: nat, signature: array<nat>, w: nat)
    returns (accepted: bool)
    requires WordSize(w) && IsPrime(PrimeP()) && IsPrime(OrderN())
    requires publicKey.Length == 64 && IsBytes(publicKey[0..32]) && IsBytes(publicKey[32..64])
    requires signature.Length == 64 && IsBytes(signature[0..32]) && IsBytes(signature[32..64])
    requires hashSize <= messageHash.Length && IsBytes(messageHash[..hashSize])
    ensures accepted <==> Accepts(BigEndian(publicKey[0..32]), BigEndian(publicKey[32..64]),
                                  DigestInt(messageHash[..hashSize], OrderN(), 256),
                                  BigEndian(signature[0..32]), BigEndian(signature[32..64]))
  {
    hide *;
    SizeFacts(w);
    ghost var e := DigestInt(messageHash[..hashSize], OrderN(), 256);
    var publicX, publicY := new nat[NumWords(w)], new nat[NumWords(w)];
    var r, s := new nat[NumWords(w)], new nat[NumWords(w)];
    LoadBytes(publicX, publicKey, 0, w);
    LoadBytes(publicY, publicKey, 32, w);
    LoadBytes(r, signature, 0, w);
    LoadBytes(s, signature, 32, w);
    RawFacts(publicX[..], w);
    RawFacts(publicY[..], w);
    ghost var x, y, rv, sv := Val(publicX[..], w), Val(publicY[..], w), Val(r[..], w), Val(s[..], w);
    AcceptsIs(x, y, e, rv, sv);
    var inside := TestOrder(r, w);
    if !inside {
      return false;
    }
    inside := TestOrder(s, w);
    if !inside {
      return false;
    }
    accepted := Decide(publicX, publicY, r, s, messageHash, hashSize, w);
  }

  /** The part of ecdsa_verify after the range tests. */
  method Decide(publicX: array<nat>, publicY: array<nat>, r: array<nat>, s: array<nat>, messageHash: array<nat>,
                hashSize: nat, w: nat) returns (accepted: bool)
    requires IsPrime(PrimeP()) && IsPrime(OrderN()) && Raw(publicX[..], w) && Raw(publicY[..], w)
    requires r.Length == s.Length == NumWords(w) && IsWords(r[..], w) && IsWords(s[..], w)
    requires InOrder(Val(r[..], w)) && InOrder(Val(s[..], w))
    requires hashSize <= messageHash.Length && IsBytes(messageHash[..hashSize])
    ensures accepted <==> Accepts(Val(publicX[..], w), Val(publicY[..], w),
                                  DigestInt(messageHash[..hashSize], OrderN(), 256), Val(r[..], w), Val(s[..], w))
  {
    hide *;
    ghost var e := DigestInt(messageHash[..hashSize], OrderN(), 256);
    ghost var rv, sv := Val(r[..], w), Val(s[..], w);
    AcceptsIs(Val(publicX[..], w), Val(publicY[..], w), e, rv, sv);
    U2NotZero(rv, sv);
    RawFacts(publicX[..], w);
    var u1, u2 := JointScalars(r, s, messageHash, hashSize, w);
    var rx := JointAffineX(u1, u2, publicX, publicY, w);
    FeFacts(rx[..], w);
    ReduceInPlace(rx, w);
    accepted := VliEqual(rx, r, w);
  }

  // ------------------------------------------------------------ theorems

  /** ecdsa_verify reads the coordinates of the public key modulo p. */
  lemma UnreducedKey(x: nat, y: nat, e: nat, r: nat, s: nat)
    ensures PrimeP() > 0
    ensures Accepts(x, y, e, r, s) <==> Accepts(x % PrimeP(), y % PrimeP(), e, r, s)
  {
    hide *;
    var p, u1, u2 := PrimeP(), U1(e, s), U2(r, s);
    KeyTableIs(x, y);
    KeyTableIs(x % p, y % p);
    SumPointReduced((GX(), GY()), (x, y), p);
    ReducedKeyIs(KeyTable(x, y), KeyTable(x % p, y % p), p);
    KeyReduced(u1, u2, TopOf(u1, u2), KeyTable(x, y), p);
    JointXIs(u1, u2, x, y);
    JointXIs(u1, u2, x % p, y % p);
    AcceptsOnly(x, y, x % p, y % p, e, r, s);
  }

  lemma ReducedKeyIs(t: Table, r: Table, p: nat)
    requires p > 0 && r.g == t.g && r.q == (t.q.0 % p, t.q.1 % p) && r.sum == t.sum
    ensures r == ReducedKey(t, p)
  {
  }

  /** The public key enters the decision through the x of the sum only. */
  lemma AcceptsOnly(x: nat, y: nat, x': nat, y': nat, e: nat, r: nat, s: nat)
    requires JointX(U1(e, s), U2(r, s), x, y) == JointX(U1(e, s), U2(r, s), x', y')
    ensures Accepts(x, y, e, r, s) <==> Accepts(x', y', e, r, s)
  {
    hide InOrder, U1, U2, JointX, ReduceOnce;
  }

  /** The loop over u1 and u2 for the key d * G meets no degenerate addition. */
  ghost predicate CleanScalars(d: nat, u1: nat, u2: nat)
  {
    NonDegenerate(u1, u2, d, TopOf(u1, u2), 0, OrderN())
  }

  lemma CleanScalarsAre(d: nat, u1: nat, u2: nat)
    ensures OrderN() > 0
    ensures CleanScalars(d, u1, u2) <==> NonDegenerate(u1, u2, d, TopOf(u1, u2), 0, OrderN())
  {
    hide OrderN, NonDegenerate, TopOf;
  }

  /** The run of ecdsa_verify for the key d * G meets no degenerate addition. */
  ghost predicate CleanRun(d: nat, e: nat, r: nat, s: nat)
  {
    CleanScalars(d, U1(e, s), U2(r, s))
  }

  lemma CleanRunIs(d: nat, e: nat, r: nat, s: nat)
    ensures CleanRun(d, e, r, s) <==> CleanScalars(d, U1(e, s), U2(r, s))
  {
    hide CleanScalars, U1, U2;
  }

  /** The public key of d. */
  function KeyPoint(d: nat): (Q: Point)
  {
    Times(Secp(), d, Generator())
  }

  /** u1 * G + u2 * (d * G) */
  function JointPoint(d: nat, u1: nat, u2: nat): (S: Point)
  {
    Times(Secp(), JointScalar(u1, u2, d), Generator())
  }

  /** u1 * G + u2 * Q, for the scalars of a signature and Q = d * G. */
  function SignaturePoint(d: nat, e: nat, r: nat, s: nat): (S: Point)
  {
    JointPoint(d, U1(e, s), U2(r, s))
  }

  /** x(S) mod n = r */
  predicate HasX(S: Point, r: nat)
  {
    S.Affine? && S.x % OrderN() == r
  }

  /** ecdsa_verify accepts (r, s) under the public key Q. */
  predicate AcceptsUnder(Q: Point, e: nat, r: nat, s: nat)
  {
    Q.Affine? && Accepts(Q.x, Q.y, e, r, s)
  }

  lemma PointsAre(d: nat, u1: nat, u2: nat)
    ensures Secp().p > 3 && KeyPoint(d) == Times(Secp(), d, Generator())
    ensures JointPoint(d, u1, u2) == Times(Secp(), JointScalar(u1, u2, d), Generator())
  {
    hide Times, Generator, PrimeP, CurveB;
  }

  lemma SignaturePointIs(d: nat, e: nat, r: nat, s: nat)
    ensures SignaturePoint(d, e, r, s) == JointPoint(d, U1(e, s), U2(r, s))
  {
    hide JointPoint, U1, U2;
  }

  lemma HasXIs(S: Point, r: nat)
    ensures OrderN() > 0 && (HasX(S, r) <==> S.Affine? && S.x % OrderN() == r)
  {
    hide OrderN;
  }

  lemma AcceptsUnderIs(Q: Point, e: nat, r: nat, s: nat)
    ensures AcceptsUnder(Q, e, r, s) <==> Q.Affine? && Accepts(Q.x, Q.y, e, r, s)
  {
    hide Accepts;
  }

  lemma ReduceIsMod(x: nat)
    requires x < PrimeP()
    ensures ReduceOnce(x) == x % OrderN()
  {
    var n := OrderN();
    CurveConstants();
    ReduceIs(x);
    hide *;
    if x >= n {
      DivModUnique(x, n, 1, x - n);
    } else {
      ModSmall(x, n);
    }
  }

  lemma KeyTableIs(x: nat, y: nat)
    ensures PrimeP() >= 2
    ensures KeyTable(x, y) == Table((GX(), GY()), (x, y), SumPoint((GX(), GY()), (x, y), PrimeP()))
  {
    hide PrimeP, GX, GY, SumPoint;
  }

  /** The run only uses table entries that hold what they should: always, unless d is 1 or n - 1. */
  ghost predicate UsableRun(d: nat, e: nat, r: nat, s: nat)
  {
    var u1, u2 := U1(e, s), U2(r, s);
    SumUsable(u1, u2, d, TopOf(u1, u2), OrderN())
  }

  lemma UsableRunIs(d: nat, e: nat, r: nat, s: nat)
    ensures UsableRun(d, e, r, s) <==> SumUsable(U1(e, s), U2(r, s), d, TopOf(U1(e, s), U2(r, s)), OrderN())
  {
    hide SumUsable, U1, U2, TopOf, OrderN;
  }

  /** For d = 1 and d = n - 1: the run starts from the entry "G + Q", which is (0, 0). */
  predicate LostRun(d: nat, e: nat, r: nat, s: nat)
  {
    var u1, u2 := U1(e, s), U2(r, s);
    (d == 1 || d == OrderN() - 1) && Index(u1, u2, TopOf(u1, u2)) == 3
  }

  lemma LostRunIs(d: nat, e: nat, r: nat, s: nat)
    requires LostRun(d, e, r, s)
    ensures (d == 1 || d == OrderN() - 1) && Index(U1(e, s), U2(r, s), TopOf(U1(e, s), U2(r, s))) == 3
  {
    hide U1, U2, TopOf, OrderN, Index;
  }

  /** Every d except 1 and n - 1 makes the run usable. */
  lemma OrdinaryKeys(d: nat, e: nat, r: nat, s: nat)
    requires 1 < d < OrderN() - 1
    ensures UsableRun(d, e, r, s)
  {
    UsableRunIs(d, e, r, s);
    hide UsableRun, U1, U2, TopOf, OrderN, NoJoint;
  }

  /**
   The x the verifier's loop gives on affine points, by the chord and tangent formulas alone: for any
   coordinates, read modulo p, whether or not they are on the curve.
   */
  function FormulaX(x: nat, y: nat, u1: nat, u2: nat): (x': nat)
  {
    var t := AffineTable((GX(), GY()), (x % PrimeP(), y % PrimeP()), Secp());
    XOf(AffineRun(u1, u2, TopOf(u1, u2), 0, t, Secp()))
  }

  lemma FormulaXIs(x: nat, y: nat, u1: nat, u2: nat, q: (nat, nat))
    requires PrimeP() > 0 && q == (x % PrimeP(), y % PrimeP())
    ensures Secp().p > 3
    ensures FormulaX(x, y, u1, u2)
         == XOf(AffineRun(u1, u2, TopOf(u1, u2), 0, AffineTable((GX(), GY()), q, Secp()), Secp()))
  {
    hide AffineRun, AffineTable, TopOf, XOf, PrimeP, CurveB, GX, GY;
  }

  lemma FormulaXBelow(x: nat, y: nat, u1: nat, u2: nat)
    requires IsPrime(PrimeP())
    ensures FormulaX(x, y, u1, u2) < PrimeP()
    ensures JointX(u1, u2, x % PrimeP(), y % PrimeP()) == FormulaX(x, y, u1, u2)
  {
    hide *;
    var e, q := Secp(), (x % PrimeP(), y % PrimeP());
    SecpIsSuitable();
    SecpIs();
    CurveConstants();
    ResidueRange(x, PrimeP());
    ResidueRange(y, PrimeP());
    FormulaXIs(x, y, u1, u2, q);
    TableIsAffine((GX(), GY()), q, e);
    KeyTableIs(q.0, q.1);
    JointXIs(u1, u2, q.0, q.1);
    LoopIsAffine(u1, u2, TopOf(u1, u2), AffineTable((GX(), GY()), q, e), e);
    FinalXBelow(JointSum(u1, u2, TopOf(u1, u2), 0, KeyTable(q.0, q.1), PrimeP()), PrimeP());
  }

  lemma FinalXBelow(j: Jacobian, p: nat)
    requires p >= 2
    ensures FinalX(j, p) < p
  {
    hide FInv;
  }

  /**
   For every 64 bytes as the public key: ecdsa_verify accepts (r, s) exactly when both are in [1, n-1] and the
   loop on affine points ends with an x that is r modulo n.
   */
  lemma AnyKeyTheorem(x: nat, y: nat, e: nat, r: nat, s: nat)
    requires IsPrime(PrimeP()) && IsPrime(OrderN())
    ensures OrderN() > 0
    ensures Accepts(x, y, e, r, s)
       <==> InOrder(r) && InOrder(s) && FormulaX(x, y, U1(e, s), U2(r, s)) % OrderN() == r
  {
    hide *;
    OrderOdd();
    UnreducedKey(x, y, e, r, s);
    AcceptsIs(x % PrimeP(), y % PrimeP(), e, r, s);
    FormulaXBelow(x, y, U1(e, s), U2(r, s));
    ReduceIsMod(FormulaX(x, y, U1(e, s), U2(r, s)));
    if InOrder(r) && InOrder(s) {
      U2NotZero(r, s);
    }
  }

  /**
   The public key d * G, for every private key d: ecdsa_verify accepts (r, s) exactly when both are in [1, n-1]
   and the affine loop gives r modulo n. For d other than 1 and n - 1, and for those two when u1 and u2 share no
   bit position, that is: when no addition of the run is degenerate and x(u1 * G + u2 * Q) mod n is r. For
   those two keys, when u1 and u2 share the top position, the signature is refused.
   */
  lemma VerifyTheorem(d: nat, e: nat, r: nat, s: nat)
    requires CurveFacts() && 0 < d < OrderN()
    ensures var Q := KeyPoint(d);
      AcceptsUnder(Q, e, r, s)
      <==> InOrder(r) && InOrder(s) && FormulaX(XOf(Q), YOf(Q), U1(e, s), U2(r, s)) % OrderN() == r
    ensures UsableRun(d, e, r, s) ==>
              (AcceptsUnder(KeyPoint(d), e, r, s)
               <==> InOrder(r) && InOrder(s) && CleanRun(d, e, r, s) && HasX(SignaturePoint(d, e, r, s), r))
    ensures LostRun(d, e, r, s) ==> !AcceptsUnder(KeyPoint(d), e, r, s)
  {
    hide *;
    var Q, u1, u2 := KeyPoint(d), U1(e, s), U2(r, s);
    CurveFactsAre();
    AcceptsUnderIs(Q, e, r, s);
    AcceptsIs(XOf(Q), YOf(Q), e, r, s);
    AnyKeyTheorem(XOf(Q), YOf(Q), e, r, s);
    KeyIsFinite(d);
    if InOrder(r) && InOrder(s) {
      U2NotZero(r, s);
      CleanRunIs(d, e, r, s);
      SignaturePointIs(d, e, r, s);
      InOrderIs(r);
      HasXIs(JointPoint(d, u1, u2), r);
      ReduceIs(0);
      UsableRunIs(d, e, r, s);
      if UsableRun(d, e, r, s) {
        JointXTheorem(d, u1, u2);
        if CleanRun(d, e, r, s) {
          ReduceIsMod(XOf(JointPoint(d, u1, u2)));
        }
      }
      if LostRun(d, e, r, s) {
        LostRunIs(d, e, r, s);
        LostX(d, u1, u2);
      }
    }
  }

  lemma Coordinates(P: Point)
    ensures P.Affine? ==> XOf(P) == P.x && YOf(P) == P.y
  {
  }

  lemma KeyIsFinite(d: nat)
    requires CurveFacts() && 0 < d < OrderN()
    ensures KeyPoint(d).Affine? && KeyPoint(d).x == XOf(KeyPoint(d)) && KeyPoint(d).y == YOf(KeyPoint(d))
  {
    hide *;
    CurveFactsAre();
    PointsAre(d, 0, 0);
    ModSmall(d, OrderN());
    TimesIsInfinity(Secp(), d, Generator(), OrderN());
    Coordinates(KeyPoint(d));
  }

  /** The x the verifier computes for the key d * G. */
  lemma JointXTheorem(d: nat, u1: nat, u2: nat)
    requires CurveFacts() && u2 > 0 && SumUsable(u1, u2, d, TopOf(u1, u2), OrderN())
    ensures CleanScalars(d, u1, u2) ==>
              JointPoint(d, u1, u2).Affine? && JointPoint(d, u1, u2).x == XOf(JointPoint(d, u1, u2)) < PrimeP()
              && JointX(u1, u2, XOf(KeyPoint(d)), YOf(KeyPoint(d))) == XOf(JointPoint(d, u1, u2))
    ensures !CleanScalars(d, u1, u2) ==> JointX(u1, u2, XOf(KeyPoint(d)), YOf(KeyPoint(d))) == 0
  {
    hide *;
    CurveFactsAre();
    OrderOdd();
    GeneratorIs();
    SecpIs();
    PointsAre(d, u1, u2);
    SumUsableRange(u1, u2, d, TopOf(u1, u2), OrderN());
    KeyIsFinite(d);
    CleanScalarsAre(d, u1, u2);
    var n, c, g, Q, S := OrderN(), Secp(), Generator(), KeyPoint(d), JointPoint(d, u1, u2);
    Coordinates(S);
    JointBitsAre(u1, u2);
    JointXIs(u1, u2, Q.x, Q.y);
    KeyTableIs(Q.x, Q.y);
    ShamirTheorem(u1, u2, d, TopOf(u1, u2), KeyTable(Q.x, Q.y), c, g, n);
    TimesOnCurve(c, JointScalar(u1, u2, d), g);
    if S.Affine? {
      OnCurveRange(c, S);
    }
  }

  /** For Q = G and Q = -G and scalars that share their top bit, the verifier's x is 0. */
  lemma LostX(d: nat, u1: nat, u2: nat)
    requires CurveFacts() && (d == 1 || d == OrderN() - 1) && u2 > 0 && Index(u1, u2, TopOf(u1, u2)) == 3
    ensures JointX(u1, u2, XOf(KeyPoint(d)), YOf(KeyPoint(d))) == 0
  {
    hide *;
    OrderOdd();
    KeyIsFinite(d);
    SameXAsGenerator(d);
    var Q := KeyPoint(d);
    JointXIs(u1, u2, Q.x, Q.y);
    KeyTableIs(Q.x, Q.y);
    SumOfSameX((GX(), GY()), (Q.x, Q.y), PrimeP());
    OriginAtTop(u1, u2, TopOf(u1, u2), KeyTable(Q.x, Q.y), PrimeP());
  }

  lemma SameXAsGenerator(d: nat)
    requires CurveFacts() && (d == 1 || d == OrderN() - 1)
    ensures KeyPoint(d).Affine? && KeyPoint(d).x == GX()
  {
    hide *;
    CurveFactsAre();
    OrderOdd();
    GeneratorIs();
    PointsAre(d, 0, 0);
    TimesOne(Secp(), Generator());
    ModSmall(1, OrderN());
    ModSmall(d, OrderN());
    DividedBySelf(OrderN());
    SameXMultiples(Secp(), d, 1, Generator(), OrderN());
    assert d == 1 ==> d - 1 == 0;
    ModSmall(0, OrderN());
  }

  lemma DividedBySelf(n: nat)
    requires n > 0
    ensures n % n == 0
  {
    ModMultiple(1, n);
  }

  /** u1 + d * u2 is the nonce, for the s that signs. */
  lemma ScalarsGiveNonce(d: nat, e: nat, r: nat, s: nat, k: nat)
    requires IsPrime(OrderN()) && 0 < k < OrderN() && 0 < s && Signs(s, k, e, r, d, OrderN())
    ensures JointScalar(U1(e, s), U2(r, s), d) % OrderN() == k
  {
    var n := OrderN();
    SignsAre(s, k, e, r, d, n);
    OrderOdd();
    hide *;
    ModSmall(s, n);
    ModSmall(k, n);
    ModSmall(1, n);
    InverseLaw(s, n);
    ScalarsAre(e, r, s);
    var z := FInv(s, n);
    FieldOpsAre(e, z, n);
    FieldOpsAre(r, z, n);
    JointScalarIs(U1(e, s), U2(r, s), d);
    NonceSum(d, e, r, s, k, z, n);
  }

  lemma SignsAre(s: nat, k: nat, e: nat, r: nat, d: nat, n: nat)
    requires n > 0 && Signs(s, k, e, r, d, n)
    ensures s < n && (s * k) % n == (e + r * d) % n
  {
  }

  lemma NonceSum(d: nat, e: nat, r: nat, s: nat, k: nat, z: nat, n: nat)
    requires n > 1 && (s * z) % n == 1 && (s * k) % n == (e + r * d) % n && k < n && 1 % n == 1
    ensures ((e * z) % n + d * ((r * z) % n)) % n == k
  {
    ModIdem(e * z, n);
    ModIdem(r * z, n);
    ModMulCong(d, d, (r * z) % n, r * z, n);
    ModAddCong((e * z) % n, e * z, d * ((r * z) % n), d * (r * z), n);
    NonceTerms(d, e, r, z);
    ModMulCong(s * k, e + r * d, z, z, n);
    ModMulCong(s * z, 1, k, k, n);
    assert (s * k) * z == (s * z) * k by { MulAssoc(s, k, z); MulAssoc(s, z, k); }
    ModSmall(k, n);
    assert 1 * k == k;
  }

  lemma NonceTerms(d: nat, e: nat, r: nat, z: nat)
    ensures e * z + d * (r * z) == (e + r * d) * z
  {
  }

  /**
   Sign, then verify. For every private key d and every nonce that signs, the signature r = x(k * G),
   s = (e + r * d) / k is accepted under d * G exactly when r is below n, s is not zero and the affine loop
   gives r modulo n. For keys other than 1 and n - 1, and for those two when u1 and u2 share no bit position,
   the last condition is that the run meets no degenerate addition; for those two keys the signature is refused
   when u1 and u2 share the top position.
   */
  lemma SignThenVerify(d: nat, k: nat, blinding: Blinding, e: nat, s: nat)
    requires CurveFacts() && 0 < d < OrderN() && CanSign(k, blinding)
    requires Signs(s, k, e, BaseMult(k).0, d, OrderN())
    ensures var r, Q := BaseMult(k).0, KeyPoint(d);
      AcceptsUnder(Q, e, r, s)
      <==> r < OrderN() && s != 0 && FormulaX(XOf(Q), YOf(Q), U1(e, s), U2(r, s)) % OrderN() == r
    ensures var r := BaseMult(k).0;
      UsableRun(d, e, r, s) ==>
        (AcceptsUnder(KeyPoint(d), e, r, s) <==> r < OrderN() && s != 0 && CleanRun(d, e, r, s))
    ensures var r := BaseMult(k).0;
      LostRun(d, e, r, s) ==> !AcceptsUnder(KeyPoint(d), e, r, s)
  {
    hide *;
    var n, c, g, r := OrderN(), Secp(), Generator(), BaseMult(k).0;
    CurveFactsAre();
    OrderOdd();
    NonceX(k, blinding);
    VerifyTheorem(d, e, r, s);
    InOrderIs(r);
    InOrderIs(s);
    SignsBelow(s, k, e, r, d, n);
    PointsAre(d, U1(e, s), U2(r, s));
    SignaturePointIs(d, e, r, s);
    if s != 0 {
      ScalarsGiveNonce(d, e, r, s, k);
      TimesMod(c, JointScalar(U1(e, s), U2(r, s), d), g, n);
      HasXIs(SignaturePoint(d, e, r, s), r);
      if r < n {
        ModSmall(r, n);
      }
    }
  }

  /** The r of a signature is the x of k * G, and not zero. */
  lemma NonceX(k: nat, blinding: Blinding)
    requires CurveFacts() && CanSign(k, blinding)
    ensures 0 < k < OrderN() && BaseMult(k).0 > 0 && Secp().p > 3
    ensures Times(Secp(), k, Generator()) == Affine(BaseMult(k).0, BaseMult(k).1)
  {
    hide *;
    GeneratorIs();
    CanSignIs(k, blinding);
    BaseMultTheorem(k);
  }

  /** For every private key but 1 and n - 1 the equivalence needs no further condition. */
  lemma OrdinarySignThenVerify(d: nat, k: nat, blinding: Blinding, e: nat, s: nat)
    requires CurveFacts() && 1 < d < OrderN() - 1 && CanSign(k, blinding)
    requires Signs(s, k, e, BaseMult(k).0, d, OrderN())
    ensures var r := BaseMult(k).0;
      AcceptsUnder(KeyPoint(d), e, r, s) <==> r < OrderN() && s != 0 && CleanRun(d, e, r, s)
  {
    hide *;
    OrdinaryKeys(d, e, BaseMult(k).0, s);
    SignThenVerify(d, k, blinding, e, s);
  }

  /**
   ecdsa_compute_public_key, ecdsa_sign_with_k and ecdsa_verify in turn, on bytes: a key that has a public key
   and a nonce that signs give a signature that is accepted exactly when r < n, s is not zero and the run is clean.
   */
  method SignAndVerify(privateKey: array<nat>, messageHash: array<nat>, hashSize: nat, k: array<nat>,
                       blinding: Blinding, w: nat) returns (signed: bool, accepted: bool, signature: array<nat>)
    requires WordSize(w) && CurveFacts() && ValidBlinding(blinding, w)
    requires privateKey.Length >= 32 && IsBytes(privateKey[0..32])
    requires hashSize <= messageHash.Length && IsBytes(messageHash[..hashSize])
    requires k.Length == NumWords(w) && IsWords(k[..], w) && k != privateKey && k != messageHash
    modifies k
    ensures fresh(signature) && signature.Length == 64 && (accepted ==> signed)
    ensures signed <==> GoodPrivate(BigEndian(privateKey[0..32])) && CanSign(old(Val(k[..], w)), blinding)
    ensures signed ==> IsBytes(signature[0..32]) && IsBytes(signature[32..64])
    ensures signed ==>
              var d, e := BigEndian(privateKey[0..32]), DigestInt(messageHash[..hashSize], OrderN(), 256);
              var r, s := BigEndian(signature[0..32]), BigEndian(signature[32..64]);
              && r == BaseMult(old(Val(k[..], w))).0 && Signs(s, old(Val(k[..], w)), e, r, d, OrderN())
              && (accepted <==> r < OrderN() && s != 0 && CleanRun(d, e, r, s))
  {
    hide *;
    CurveFactsAre();
    ghost var d, e := BigEndian(privateKey[0..32]), DigestInt(messageHash[..hashSize], OrderN(), 256);
    ghost var kv := Val(k[..], w);
    signature := new nat[64];
    var publicKey := new nat[64];
    var keyed := EcdsaComputePublicKey(privateKey, publicKey, w);
    if !keyed {
      return false, false, signature;
    }
    signed := SignWithK(privateKey, messageHash, hashSize, k, blinding, signature, w);
    if !signed {
      return false, false, signature;
    }
    assert publicKey[0..64] == publicKey[..];
    KeyOfBytes(publicKey[..], d);
    accepted := EcdsaVerify(publicKey, messageHash, hashSize, signature, w);
    GoodKeysAreOrdinary(d);
    OrdinarySignThenVerify(d, kv, blinding, e, BigEndian(signature[32..64]));
    AcceptsUnderIs(KeyPoint(d), e, BigEndian(signature[0..32]), BigEndian(signature[32..64]));
  }

  lemma GoodKeysAreOrdinary(d: nat)
    requires GoodPrivate(d)
    ensures 1 < d < OrderN() - 1
  {
    GoodPrivateIs(d);
    DegenerateIs(d);
    hide GoodPrivate, Degenerate, OrderN;
  }

  lemma KeyOfBytes(key: seq<nat>, d: nat)
    requires |key| == 64 && IsBytes(key) && PublicKey(key) == Times(Secp(), d, Generator())
    ensures IsBytes(key[0..32]) && IsBytes(key[32..64])
    ensures KeyPoint(d) == Affine(BigEndian(key[0..32]), BigEndian(key[32..64]))
  {
    PointsAre(d, 0, 0);
    assert key[..32] == key[0..32] && key[32..] == key[32..64];
    hide BigEndian, Times, Generator, Secp, KeyPoint;
  }
}
