/**
 Signatures that ecdsa_sign_with_k makes and ecdsa_verify refuses under the signer's own key: one with s = 0
 for every nonce, one with a degenerate run for every key up to n - 3, and one with all its numbers.
 */
module Refused {
  import opened Arith
  import opened Words
  import opened Bytes
  import opened Modular
  import opened P256
  import opened Field
  import opened Curve
  import opened CoZ
  import opened Points
  import opened Ladder
  import opened OrderChain
  import opened Keys
  import opened Compress
  import opened Digest
  import opened Shamir
  import opened Sign
  import opened Verify

  // ------------------------------------------------------------------- s = 0

  /** The digest integer for which a nonce yields s = 0: the equation holds, and the signature is refused. */
  lemma ZeroSignature(d: nat, k: nat, blinding: Blinding) returns (e: nat)
    requires CurveFacts() && 0 < d < OrderN() && CanSign(k, blinding)
    ensures e < OrderN() && Signs(0, k, e, BaseMult(k).0, d, OrderN())
    ensures !AcceptsUnder(KeyPoint(d), e, BaseMult(k).0, 0)
  {
    hide *;
    var n, r := OrderN(), BaseMult(k).0;
    OrderOdd();
    e := Cancelling(r * d, n);
    ZeroSigns(k, e, r, d, n);
    AcceptsUnderIs(KeyPoint(d), e, r, 0);
    AcceptsIs(XOf(KeyPoint(d)), YOf(KeyPoint(d)), e, r, 0);
    InOrderIs(0);
    Coordinates(KeyPoint(d));
  }

  lemma Cancelling(a: int, n: nat) returns (e: nat)
    requires n > 0
    ensures e < n && (e + a) % n == 0
  {
    e := (-a) % n;
    ModIdem(-a, n);
    ModAddCong(e, -a, a, a, n);
    ModSmall(0, n);
  }

  lemma ZeroSigns(k: nat, e: nat, r: nat, d: nat, n: nat)
    requires n > 0 && (e + r * d) % n == 0
    ensures Signs(0, k, e, r, d, n)
  {
    assert 0 * k == 0;
    ModSmall(0, n);
  }

  // ------------------------------------------------------ a degenerate run

  /** The first scalar of the run below: d, or d + 2 for an odd d. */
  function FirstScalar(d: nat): (u: nat)
  {
    d + 2 * (d % 2)
  }

  /** Reading d (or d + 2) and 1 together ends with the sum of two equal points. */
  lemma MeetsAtTheEnd(d: nat)
    requires 1 < d < OrderN() - 2
    ensures !CleanScalars(d, FirstScalar(d), 1)
  {
    hide *;
    var u, n := FirstScalar(d), OrderN();
    CleanScalarsAre(d, u, 1);
    LastBits(d, u);
    ReachedStep(u, 1, d, 0);
    ReachedEnd(u, 1, d);
    JointScalarIs(u, 1, d);
    IndexCases(u, 1, d, 0);
    ZeroResidue(n);
    ApartIs(Reached(u, 1, d, 1), Added(u, 1, d, 0), n);
    NonDegenerateStep(u, 1, d, TopOf(u, 1), 0, n);
    FirstScalarIs(d);
  }

  lemma FirstScalarIs(d: nat)
    ensures FirstScalar(d) == if d % 2 == 0 then d else d + 2
  {
  }

  lemma LastBits(d: nat, u: nat)
    requires u == FirstScalar(d) && d > 1
    ensures Index(u, 1, 0) == if d % 2 == 0 then 2 else 3
    ensures TopOf(u, 1) > 0
  {
    hide *;
    FirstScalarIs(d);
    LowestBit(u);
    LowestBit(1);
    IndexIs(u, 1, 0);
    TwoBits(u);
    TopIs(u, 1);
  }

  lemma LowestBit(v: nat)
    ensures Bit(v, 0) == v % 2
  {
    BitIs(v, 0);
    PowZero();
    DividedByOne(v);
    hide Bit;
  }

  lemma IndexIs(u1: nat, u2: nat, i: nat)
    ensures Index(u1, u2, i) == Bit(u1, i) + 2 * Bit(u2, i)
  {
    hide Bit;
  }

  lemma TwoBits(v: nat)
    requires v > 1
    ensures BitLength(v) >= 2
  {
    assert BitLength(v / 2) >= 1;
  }

  lemma TopIs(u1: nat, u2: nat)
    ensures BitLength(u1) >= 2 ==> TopOf(u1, u2) > 0
  {
    hide BitLength;
  }

  /**
   Every private key d with 1 < d < n - 2 has a digest integer for which the signature made with the nonce
   2d (or 2d + 2, for an odd d) is refused: u1 is FirstScalar(d), u2 is 1 and the verifier's last addition
   meets two equal points, unless r is n or more, for which it is refused as well.
   */
  lemma DegenerateSignature(d: nat, blinding: Blinding) returns (k: nat, e: nat, s: nat)
    requires CurveFacts() && 1 < d < OrderN() - 2
    ensures 0 < k < OrderN() && k == (FirstScalar(d) + d) % OrderN()
    ensures e == (FirstScalar(d) * BaseMult(k).0) % OrderN() && s == BaseMult(k).0 % OrderN()
    ensures Signs(s, k, e, BaseMult(k).0, d, OrderN())
    ensures CanSign(k, blinding) ==> !AcceptsUnder(KeyPoint(d), e, BaseMult(k).0, s)
    ensures CanSign(k, blinding) && BaseMult(k).0 < OrderN() ==> !CleanRun(d, e, BaseMult(k).0, s)
  {
    hide *;
    var n, u := OrderN(), FirstScalar(d);
    OrderOdd();
    FirstScalarIs(d);
    k := (u + d) % n;
    NonceIs(d, u, k, n);
    var r := BaseMult(k).0;
    ResidueRange(r, n);
    ResidueRange(u * r, n);
    s, e := r % n, (u * r) % n;
    EqualParts(d, k, u, e, r, s, n);
    if CanSign(k, blinding) {
      NonceX(k, blinding);
      if r < n {
        ModSmall(r, n);
        CurveFactsAre();
        ScalarsOfEqual(u, e, r);
        CleanRunIs(d, e, r, r);
        MeetsAtTheEnd(d);
      }
      OrdinarySignThenVerify(d, k, blinding, e, s);
    }
  }

  lemma NonceIs(d: nat, u: nat, k: nat, n: nat)
    requires n > 2 && n % 2 == 1 && 1 < d < n - 2 && u == (if d % 2 == 0 then d else d + 2) && k == (u + d) % n
    ensures 0 < k < n && u < n
  {
    if u + d < n {
      ModSmall(u + d, n);
    } else {
      DivModUnique(u + d, n, 1, u + d - n);
    }
  }

  /** s = r solves the signing equation for the nonce u + d and the digest integer u * r. */
  lemma EqualParts(d: nat, k: nat, u: nat, e: nat, r: nat, s: nat, n: nat)
    requires n > 0 && k == (u + d) % n && e == (u * r) % n && s == r % n
    ensures Signs(s, k, e, r, d, n)
  {
    ModIdem(u * r, n);
    ModIdem(r, n);
    ModIdem(u + d, n);
    hide *;
    ModMulCong(s, r, k, u + d, n);
    ModAddCong(e, u * r, r * d, r * d, n);
    Spread(r, u, d);
    SignsFrom(s, k, e, r, d, n);
  }

  lemma Spread(r: int, u: int, d: int)
    ensures r * (u + d) == u * r + r * d
  {
  }

  lemma SignsFrom(s: nat, k: nat, e: nat, r: nat, d: nat, n: nat)
    requires n > 0 && s < n && (s * k) % n == (e + r * d) % n
    ensures Signs(s, k, e, r, d, n)
  {
  }

  /** The scalars of the signature (r, r) for the digest integer u * r are u and 1. */
  lemma ScalarsOfEqual(u: nat, e: nat, r: nat)
    requires IsPrime(OrderN()) && 0 < r < OrderN() && u < OrderN() && e == (u * r) % OrderN()
    ensures U1(e, r) == u && U2(r, r) == 1
  {
    hide *;
    var n := OrderN();
    OrderOdd();
    ScalarsAre(e, r, r);
    ModSmall(r, n);
    ModSmall(u, n);
    ModSmall(1, n);
    InverseLaw(r, n);
    var z := FInv(r, n);
    FieldOpsAre(e, z, n);
    FieldOpsAre(r, z, n);
    ModIdem(u * r, n);
    ModMulCong(e, u * r, z, z, n);
    ModMulCong(u, u, r * z, 1, n);
    assert (u * r) * z == u * (r * z) by { MulAssoc(u, r, z); }
    assert u * 1 == u;
  }

  // ------------------------------------------------------------ one signature

  /** The coordinates of 4 * G. */
  const X_4: nat := 0xe2534a3532d08fbba02dde659ee62bd0031fe2db785596ef509302446b030852
  const Y_4: nat := 0xe0f1575a4c633cc719dfee5fda862d764efc96c3f30ee0055c42c23f184ed8c6

  lemma TwiceTwiceG(R: (nat, Point) -> bool, m: nat)
    requires Closed(R, PrimeP()) && R(m, T_2)
    ensures R(2 * m, Affine(X_4, Y_4))
  {
    hide Closed;
    Twice(R, PrimeP(), m,
          0x7cf27b188d034f7e8a52380304b51ac3c08969e277f21b35a60b48fc47669978,
          0x07775510db8ed040293d9ac69f7430dbba7dade63ce982299e04b79d227873d1,
          0xc2489a9eef61dfa06d3741ff3b405300988bd0db42a937859069b9cefb576e35,
          0xe2534a3532d08fbba02dde659ee62bd0031fe2db785596ef509302446b030852,
          0xe0f1575a4c633cc719dfee5fda862d764efc96c3f30ee0055c42c23f184ed8c6,
          -0xab9e4db4a865c5d9faa5ffc347a001265457740d67c4105697320488b09397cd,
          0x93721ef0cd0cb79b4714ba2c81dc32cce646a0350aa32bf6c06d0cf8f458a449,
          -0x4cf01d696fc77cd660b950563834767fc99586c7873df1c1e82cf2a1c41e1447);
  }

  lemma NumberRanges()
    ensures 0 < X_4 < OrderN() && 8 < OrderN()
  {
  }

  lemma FourTimesG()
    requires CurveFacts()
    ensures Secp().p > 3 && Times(Secp(), 4, Generator()) == Affine(X_4, Y_4)
    ensures 0 < X_4 < OrderN() && 8 < OrderN()
  {
    hide *;
    CurveFactsAre();
    NumberRanges();
    SecpIs();
    var R := MultiplesOf(Secp(), Generator());
    MultiplesAreClosed(Secp(), Generator());
    Chain0(R, 1);
    TwiceTwiceG(R, 2);
    MultiplesAre(Secp(), Generator(), 4, Affine(X_4, Y_4));
  }

  /** The nonce 4 signs. */
  lemma FourSigns(blinding: Blinding)
    requires CurveFacts() && !blinding.RngFailed?
    ensures 4 < OrderN() && CanSign(4, blinding) && BaseMult(4) == (X_4, Y_4) && 0 < X_4 < OrderN()
  {
    hide *;
    FourTimesG();
    BaseMultTheorem(4);
    DegenerateIs(4);
    CanSignIs(4, blinding);
  }

  /** Private key 2, nonce 4, r = s = x(4 * G) and digest integer 2r: made, in range, and refused. */
  lemma RefusedSignature(blinding: Blinding) returns (e: nat)
    requires CurveFacts() && !blinding.RngFailed?
    ensures OrderN() > 2 && e == (2 * X_4) % OrderN() && CanSign(4, blinding) && BaseMult(4).0 == X_4
    ensures InOrder(X_4) && Signs(X_4, 4, e, X_4, 2, OrderN())
    ensures !CleanRun(2, e, X_4, X_4) && !AcceptsUnder(KeyPoint(2), e, X_4, X_4)
  {
    hide *;
    FourSigns(blinding);
    FourTimesG();
    InOrderIs(X_4);
    OrderOdd();
    FirstScalarIs(2);
    ModSmall(4, OrderN());
    ModSmall(X_4, OrderN());
    e := (2 * X_4) % OrderN();
    var k, e', s := DegenerateSignature(2, blinding);
  }
}
