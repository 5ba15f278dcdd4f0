/**
 Point validation, compression and decompression: x_side_default, mod_sqrt_default,
 ecdsa_valid_point, ecdsa_compress and ecdsa_decompress (SEC 1 v2 sections 2.3.3 and 2.3.4).
 */
module Compress {
  import opened Arith
  import opened Words
  import opened Bytes
  import opened Modular
  import opened P256
  import opened Field
  import opened Curve
  import opened Points
  import opened Ladder
  import opened Keys

  // ------------------------------------------------------------- x_side

  lemma RhsSteps(x: nat, b: nat, p: nat)
    requires p > 3 && b < p
    ensures FAdd(FMul(FSub(FMul(x, x, p), 3, p), x, p), b, p) == Rhs(x, b) % p
  {
    var s := FMul(x, x, p);
    var t := FSub(s, 3, p);
    FieldOpsAre(x, x, p);
    FieldOpsAre(s, 3, p);
    FieldOpsAre(t, x, p);
    FieldOpsAre(FMul(t, x, p), b, p);
    RhsFactored(x, b);
    hide *;
    RhsResidues(x, x * x, b, p, s, t, FMul(t, x, p));
  }

  lemma RhsResidues(x: nat, xx: nat, b: nat, p: nat, s: nat, t: nat, u: nat)
    requires p > 0 && s == xx % p && t == (s - 3) % p && u == (t * x) % p
    ensures (u + b) % p == ((xx - 3) * x + b) % p
  {
    hide *;
    ModIdem(xx, p);
    ModAddCong(s, xx, 3, 3, p);
    ModIdem(s - 3, p);
    ModMulCong(t, xx - 3, x, x, p);
    ModIdem(t * x, p);
    ModAddCong(u, (xx - 3) * x, b, b, p);
  }

  lemma RhsFactored(x: int, b: int)
    ensures (x * x - 3) * x + b == Rhs(x, b)
  {
  }

  lemma SmallConstants(w: nat)
    requires WordSize(w)
    ensures IsWords(BWords(w), w) && |BWords(w)| == NumWords(w) && Val(BWords(w), w) == CurveB() < PrimeP()
  {
    BWordsValue(w);
    SizeFacts(w);
    hide Val, IsWords;
  }

  /** x_side_default: the right-hand side of the curve equation; x need not be reduced. */
  method XSide(result: array<nat>, x: array<nat>, w: nat)
    requires WordSize(w) && result != x && result.Length == x.Length == NumWords(w) && IsWords(x[..], w)
    modifies result
    ensures Fe(result[..], w) && Val(result[..], w) == Rhs(Val(x[..], w), CurveB()) % PrimeP()
  {
    hide *;
    SmallConstants(w);
    SizeFacts(w);
    PrimeAbove4();
    var three := SmallNumber(3, w);
    var b := Constant(BWords(w));
    ghost var xv := Val(x[..], w);
    RhsSteps(xv, CurveB(), PrimeP());
    FieldMultWords(result, x, x, w);
    FieldSub(result, result, three, w);
    FeFacts(result[..], w);
    FieldMultWords(result, result, x, w);   // result holds all of Rhs but the constant
    FeFacts(b[..], w);
    FieldAdd(result, result, b, w);
  }

  // -------------------------------------------------------- valid points

  lemma OnCurveIs(x: nat, y: nat)
    ensures OnCurve(Secp(), Affine(x, y))
       <==> x < PrimeP() && y < PrimeP() && FMul(y, y, PrimeP()) == Rhs(x, CurveB()) % PrimeP()
  {
    hide PrimeP, CurveB, Rhs;
  }

  /** ecdsa_valid_point: exactly the affine points of the curve. */
  method ValidPoint(pointX: array<nat>, pointY: array<nat>, w: nat) returns (valid: bool)
    requires WordSize(w) && pointX.Length == pointY.Length == NumWords(w)
    requires IsWords(pointX[..], w) && IsWords(pointY[..], w)
    ensures valid <==> OnCurve(Secp(), Affine(Val(pointX[..], w), Val(pointY[..], w)))
  {
    hide *;
    PrimeConstant(w);
    OnCurveIs(Val(pointX[..], w), Val(pointY[..], w));
    var zeroX := VliIsZero(pointX, w);
    var zeroY := VliIsZero(pointY, w);
    if zeroX && zeroY {
      OriginOffCurve();
      return false;
    }
    var p := Constant(PrimeWords(w));
    var cx := VliCmp(p, pointX, w);
    if cx != 1 {
      return false;
    }
    var cy := VliCmp(p, pointY, w);
    if cy != 1 {
      return false;
    }
    var tmp1, tmp2 := new nat[NumWords(w)], new nat[NumWords(w)];
    FieldMultWords(tmp1, pointY, pointY, w);
    XSide(tmp2, pointX, w);   // tmp2 holds the right-hand side of the curve equation, tmp1 the left-hand side
    FeFacts(tmp1[..], w);
    FeFacts(tmp2[..], w);
    valid := VliEqual(tmp1, tmp2, w);
  }

  // --------------------------------------------------------- square roots

  /** The candidate root a^((p + 1) / 4). */
  function SqrtPower(a: nat, p: nat): (r: nat)
    requires p > 0
    ensures r < p
  {
    Pow(a, (p + 1) / 4) % p
  }

  lemma ModSquare(a: nat, p: nat)
    requires p > 0
    ensures ((a % p) * (a % p)) % p == (a * a) % p
  {
    ModMul(a, a, p);
  }

  lemma {:induction false} PowMod(a: nat, b: nat, m: nat, p: nat)
    requires p > 0 && a % p == b % p
    ensures Pow(a, m) % p == Pow(b, m) % p
  {
    if m == 0 {
    } else {
      PowMod(a, b, m - 1, p);
      hide *;
      PowStep(a, m - 1);
      PowStep(b, m - 1);
      ModMulCong(a, b, Pow(a, m - 1), Pow(b, m - 1), p);
    }
  }

  /** For p = 3 mod 4, a^((p+1)/4) squares to a when a is a square at all. */
  lemma SqrtLaw(a: nat, y: nat, p: nat)
    requires IsPrime(p) && p % 4 == 3 && a % p == (y * y) % p
    ensures (SqrtPower(a, p) * SqrtPower(a, p)) % p == a % p
  {
    hide *;
    PrimePositive(p);
    var m := (p + 1) / 4;
    SqrtPowerIs(a, p);
    assert 2 * (2 * m) == p - 1 + 2;
    ModSquare(Pow(a, m), p);
    PowSquare(a, m);
    PowMod(a, y * y, 2 * m, p);
    SquareAsPower(y);
    PowMul(y, 2, 2 * m);
    PowAdd(y, p - 1, 2);
    RootPower(y, Pow(y, p - 1), p);
  }

  lemma SqrtPowerIs(a: nat, p: nat)
    requires p > 0
    ensures SqrtPower(a, p) == Pow(a, (p + 1) / 4) % p
  {
    hide Pow;
  }

  lemma SquareAsPower(y: nat)
    ensures Pow(y, 2) == y * y
  {
    assert Pow(y, 1) == y;
  }

  /** y^(p-1) * y^2 = y^2 in the field, for zero and for units. */
  lemma RootPower(y: nat, u: nat, p: nat)
    requires IsPrime(p) && u == Pow(y, p - 1)
    ensures p > 1 && (u * Pow(y, 2)) % p == (y * y) % p
  {
    PrimePositive(p);
    SquareAsPower(y);
    hide *;
    if y % p == 0 {
      ModMulZero(y, y, p);
      ModMulZero(y * y, u, p);
    } else {
      Fermat(y, p);
      ModSmallOne(p);
      ModMulCong(u, 1, y * y, y * y, p);
    }
  }

  /** The root the bit loop finds before position i of p + 1. */
  lemma SqrtStep(a: nat, p: nat, q: nat, i: nat, l: nat)
    requires p > 0 && l == Pow(a, Prefix(q, i + 1)) % p
    ensures Pow(a, Prefix(q, i)) % p == if Bit(q, i) == 1 then FMul(FMul(l, l, p), a, p) else FMul(l, l, p)
  {
    var m, u := Prefix(q, i + 1), Pow(a, Prefix(q, i + 1));
    PrefixBit(q, i);
    PowSquare(a, m);
    PowStep(a, 2 * m);
    FieldOpsAre(l, l, p);
    hide *;
    ModSquare(u, p);
    FieldOpsAre(FMul(l, l, p), a, p);
    ModIdem(u * u, p);
    ModMulCong((u * u) % p, u * u, a, a, p);
    assert a * (u * u) == (u * u) * a;
    BitCases(q, i);
  }

  lemma BitCases(q: nat, i: nat)
    ensures Bit(q, i) == 0 || Bit(q, i) == 1
  {
  }

  lemma SqrtStart(a: nat, p: nat, q: nat, bits: nat)
    requires p > 1 && q < Pow(2, bits)
    ensures Pow(a, Prefix(q, bits)) % p == 1
  {
    SmallQuotient(q, Pow(2, bits));
    ModSmall(1, p);
  }

  lemma SqrtEnd(a: nat, p: nat)
    requires p > 0
    ensures Pow(a, Prefix(p + 1, 2)) % p == SqrtPower(a, p)
  {
    PrefixOneTwo(p + 1);
    hide Prefix, Pow;
  }

  /** p + 1 needs no carry word. */
  lemma PrimeSuccessor(w: nat)
    requires WordSize(w)
    ensures PrimeP() + 1 < Pow(Base(w), NumWords(w))
  {
    SizeFacts(w);
    TwoTo256Is();
    PrimeRoom();
    hide *;
    assert w * NumWords(w) == NumWords(w) * w;
    BasePow(w, NumWords(w));
  }

  lemma PrimeRoom()
    ensures PrimeP() + 1 < TwoTo256()
  {
  }

  /** mod_sqrt_default */
  method ModSqrt(a: array<nat>, w: nat)
    requires WordSize(w) && Fe(a[..], w)
    modifies a
    ensures Fe(a[..], w) && Val(a[..], w) == SqrtPower(old(Val(a[..], w)), PrimeP())
  {
    hide *;
    PrimeConstant(w);
    SizeFacts(w);
    PrimeSuccessor(w);
    FeFacts(a[..], w);
    ghost var av, p, q := Val(a[..], w), PrimeP(), PrimeP() + 1;
    var p1 := SmallNumber(1, w);
    var l := SmallNumber(1, w);
    var curveP := Constant(PrimeWords(w));
    FeFacts(p1[..], w);
    FeFacts(l[..], w);
    var carry := VliAdd(p1, curveP, p1, w);   // p1 holds four times the exponent of the root
    ValBound(p1[..], w);
    NoCarryLeft(Val(p1[..], w), carry, Pow(Base(w), NumWords(w)), q);
    var bits := VliNumBits(p1, w);
    SqrtStart(av, p, q, bits);
    AtLeastTwoBits(q, bits);
    assert bits <= w * p1.Length;
    var i := bits - 1;
    while i > 1
      invariant 1 <= i < bits && a[..] == old(a[..]) && Fe(a[..], w) && av == Val(a[..], w)
      invariant IsWords(p1[..], w) && Val(p1[..], w) == q
      invariant Fe(l[..], w) && Val(l[..], w) == Pow(av, Prefix(q, i + 1)) % p
    {
      SqrtStep(av, p, q, i, Val(l[..], w));
      FieldMult(l, l, l, w);
      var on := VliTestBit(p1, i, w);
      if on {
        FieldMult(l, l, a, w);
      }
      i := i - 1;
    }
    SqrtEnd(av, p);
    FeFacts(l[..], w);
    Copy(a, l);
  }

  lemma AtLeastTwoBits(q: nat, bits: nat)
    requires q > 3 && q < Pow(2, bits)
    ensures bits >= 3
  {
    assert Pow(2, 0) == 1 && Pow(2, 1) == 2 && Pow(2, 2) == 4;
  }

  // ------------------------------------------------------------ compression

  /** The 33 bytes ecdsa_compress writes for 64 public key bytes. */
  function Compressed(key: seq<nat>): (c: seq<nat>)
    requires |key| == 64
    ensures |c| == 33
  {
    [2 + key[63] % 2] + key[..32]
  }

  lemma OddByte(key: seq<nat>)
    requires |key| == 64 && IsBytes(key)
    ensures BigEndian(key[32..]) % 2 == key[63] % 2
  {
    var y := key[32..];
    BigEndianSnoc(y, 31);
    assert y[..32] == y && y[31] == key[63];
    hide BigEndian;
  }

  /**
   ecdsa_compress: the tag is 2 for an even and 3 for an odd y, and x follows (SEC 1 v2 section 2.3.3).
   */
  method EcdsaCompress(publicKey: array<nat>, compressed: array<nat>)
    requires publicKey.Length == 64 && compressed.Length == 33 && publicKey != compressed
    modifies compressed
    ensures compressed[..] == Compressed(publicKey[..])
    ensures compressed[1..] == publicKey[..32]
    ensures IsBytes(publicKey[..]) ==> compressed[0] == 2 + BigEndian(publicKey[32..]) % 2
  {
    hide BigEndian, IsBytes;
    for i := 0 to 32
      invariant forall j :: 0 <= j < i ==> compressed[j + 1] == publicKey[j]
    {
      compressed[i + 1] := publicKey[i];
    }
    compressed[0] := 2 + publicKey[63] % 2;
    ghost var c := Compressed(publicKey[..]);
    forall j | 0 <= j < 33
      ensures compressed[j] == c[j]
    {
      if j > 0 {
        assert compressed[(j - 1) + 1] == publicKey[j - 1];
      }
    }
    if IsBytes(publicKey[..]) {
      OddByte(publicKey[..]);
    }
  }

  /** The y that decompression settles on: the candidate root, or p minus it when the parity differs. */
  function RecoveredY(x: nat, tag: nat, e: Elliptic): (y: nat)
    requires e.p > 0
    ensures y <= e.p
  {
    var r := SqrtPower(Rhs(x, e.b) % e.p, e.p);
    if r % 2 == tag % 2 then r else e.p - r
  }

  lemma RecoveredIs(x: nat, tag: nat, e: Elliptic, r: nat)
    requires e.p > 0 && r == SqrtPower(Rhs(x, e.b) % e.p, e.p)
    ensures RecoveredY(x, tag, e) == if r % 2 == tag % 2 then r else e.p - r
  {
    hide SqrtPower, Rhs;
  }

  /** What ecdsa_decompress does with a 33-byte string: x unchanged, y recovered from x and the tag. */
  ghost predicate DecompressesTo(c: seq<nat>, key: seq<nat>, e: Elliptic)
    requires |c| == 33 && |key| == 64 && e.p > 0
  {
    IsBytes(key) && key[..32] == c[1..] && BigEndian(key[32..]) == RecoveredY(BigEndian(c[1..]), c[0], e)
  }

  /** A number's parity is that of its lowest word. */
  method IsOdd(y: array<nat>, w: nat) returns (odd: nat)
    requires WordSize(w) && y.Length == NumWords(w) && IsWords(y[..], w)
    ensures odd == Val(y[..], w) % 2
  {
    SizeFacts(w);
    LowBit(y[..], w);
    hide *;
    odd := y[0] % 2;
  }

  /** ecdsa_decompress, for every 33-byte input. */
  method EcdsaDecompress(compressed: array<nat>, publicKey: array<nat>, w: nat)
    requires WordSize(w) && compressed.Length == 33 && publicKey.Length == 64 && compressed != publicKey
    requires IsBytes(compressed[..])
    modifies publicKey
    ensures Secp().p > 0 && DecompressesTo(compressed[..], publicKey[..], Secp())
  {
    hide *;
    SizeFacts(w);
    PrimeConstant(w);
    GeneratorIs();
    ghost var c := compressed[..];
    var x, y := new nat[NumWords(w)], new nat[NumWords(w)];
    BytesSuffix(c);
    assert compressed[1..1 + 32] == c[1..];
    LoadBytes(x, compressed, 1, w);
    XSide(y, x, w);
    ModSqrt(y, w);
    ghost var r := Val(y[..], w);
    SecpIs();
    RecoveredIs(Val(x[..], w), c[0], Secp(), r);
    FeFacts(y[..], w);
    var odd := IsOdd(y, w);
    if odd != compressed[0] % 2 {
      var p := Constant(PrimeWords(w));
      var borrow := VliSub(y, p, y, w);
      ValBound(y[..], w);
      NoBorrow(Val(y[..], w), borrow, PrimeP() - r, Pow(Base(w), NumWords(w)));
    }
    StoreBytes(publicKey, 0, x, w);
    ghost var first := publicKey[0..32];
    BigEndianInjective(first, c[1..]);
    StoreBytes(publicKey, 32, y, w);
    DecompressedParts(c, publicKey[..], first, publicKey[32..64], Secp());
  }

  lemma BytesSuffix(c: seq<nat>)
    requires |c| == 33 && IsBytes(c)
    ensures IsBytes(c[1..])
  {
  }

  lemma DecompressedParts(c: seq<nat>, key: seq<nat>, x: seq<nat>, y: seq<nat>, e: Elliptic)
    requires |c| == 33 && |x| == 32 && |y| == 32 && key == x + y && IsBytes(x) && IsBytes(y) && x == c[1..] && e.p > 0
    ensures DecompressesTo(c, key, e) <==> BigEndian(y) == RecoveredY(BigEndian(x), c[0], e)
  {
    assert key[..32] == x && key[32..] == y;
    hide BigEndian, Base, RecoveredY;
  }

  // ---------------------------------------------------------- round trips

  /** Parity separates y from p - y, so decompression finds the y the point was compressed from. */
  lemma RecoversY(e: Elliptic, x: nat, y: nat, tag: nat)
    requires IsField(e) && e.p % 4 == 3 && OnCurve(e, Affine(x, y)) && tag % 2 == y % 2
    ensures RecoveredY(x, tag, e) == y
  {
    hide *;
    FieldIs(e);
    var p, a := e.p, Rhs(x, e.b) % e.p;
    var r := SqrtPower(a, p);
    RecoveredIs(x, tag, e, r);
    PointSquare(e, x, y);
    SqrtLaw(a, y, p);
    OnlyTwoRoots(r, y, p);
    ModSmall(r, p);
    ModSmall(y, p);
    NegatedY(y, p);
  }

  lemma PointSquare(e: Elliptic, x: nat, y: nat)
    requires e.p > 0 && OnCurve(e, Affine(x, y))
    ensures y < e.p && (y * y) % e.p == (Rhs(x, e.b) % e.p) % e.p
  {
    ModIdem(Rhs(x, e.b), e.p);
    hide Rhs;
  }

  lemma FieldIs(e: Elliptic)
    requires IsField(e)
    ensures IsPrime(e.p) && e.p > 3
  {
  }

  /** decompress(compress(P)) = P for every point of the curve, over every prime p = 3 mod 4. */
  lemma CompressRoundTrip(e: Elliptic, key: seq<nat>, out: seq<nat>)
    requires IsField(e) && e.p % 4 == 3 && |key| == 64 && IsBytes(key) && OnCurve(e, PublicKey(key))
    requires |out| == 64 && DecompressesTo(Compressed(key), out, e)
    ensures out == key
  {
    var c := Compressed(key);
    var x, y := BigEndian(key[..32]), BigEndian(key[32..]);
    assert c[1..] == key[..32];
    assert c[0] % 2 == key[63] % 2;
    assert PublicKey(key) == Affine(x, y);
    assert IsBytes(key[32..]) && IsBytes(out[32..]);
    OddByte(key);
    RecoversY(e, x, y, c[0]);
    hide BigEndian, RecoveredY, IsBytes;
    BigEndianInjective(out[32..], key[32..]);
    assert out == out[..32] + out[32..] && key == key[..32] + key[32..];
  }

  lemma CompressedBytes(key: seq<nat>)
    requires |key| == 64 && IsBytes(key)
    ensures IsBytes(Compressed(key))
  {
    ByteBase();
    hide Base;
  }

  lemma SecpIsSuitable()
    requires IsPrime(PrimeP())
    ensures IsField(Secp()) && Secp().p % 4 == 3
  {
    PrimeAbove4();
    SecpIs();
    hide PrimeP, IsPrime;
  }

  /**
   Compression and decompression in turn, for secp256r1: the tag in between is 2 or 3, and every point of the
   curve comes back.
   */
  method CompressAndBack(publicKey: array<nat>, w: nat) returns (compressed: array<nat>, back: array<nat>)
    requires WordSize(w) && IsPrime(PrimeP()) && publicKey.Length == 64 && IsBytes(publicKey[..])
    ensures fresh(compressed) && compressed.Length == 33 && fresh(back) && back.Length == 64 && Secp().p > 0
    ensures compressed[0] == (if BigEndian(publicKey[32..]) % 2 == 0 then 2 else 3)
    ensures compressed[1..] == publicKey[..32]
    ensures OnCurve(Secp(), PublicKey(publicKey[..])) ==> back[..] == publicKey[..]
  {
    hide *;
    ghost var key := publicKey[..];
    SecpIs();
    CompressedBytes(key);
    compressed := new nat[33];
    EcdsaCompress(publicKey, compressed);
    back := new nat[64];
    EcdsaDecompress(compressed, back, w);
    if OnCurve(Secp(), PublicKey(key)) {
      SecpIsSuitable();
      CompressRoundTrip(Secp(), key, back[..]);
    }
  }

  /** Every square residue and its parity bit decompress to a point of the curve, except p for a zero root. */
  lemma DecompressedValid(e: Elliptic, x: nat, tag: nat)
    requires IsField(e) && e.p % 4 == 3
    ensures OnCurve(e, Affine(x, RecoveredY(x, tag, e)))
       <==> x < e.p && (exists y: nat :: (y * y) % e.p == Rhs(x, e.b) % e.p)
            && !(Rhs(x, e.b) % e.p == 0 && tag % 2 == 1)
  {
    var p, a := e.p, Rhs(x, e.b) % e.p;
    var r, v := SqrtPower(a, p), RecoveredY(x, tag, e);
    RecoveredIs(x, tag, e, r);
    FieldIs(e);
    assert OnCurve(e, Affine(x, v)) <==> x < p && v < p && (v * v) % p == a;
    hide *;
    RootsOfZero(a, r, p);
    SquareOfMinus(r, p);
    ModIdem(Rhs(x, e.b), p);
    if y: nat :| (y * y) % p == a {
      SqrtLaw(a, y, p);
      ModSmall(a, p);
      SquareOfMinus(r, p);
    }
  }

  /** x^3 - 3x + b is a square modulo p. */
  ghost predicate HasRoot(e: Elliptic, x: nat)
    requires e.p > 0
  {
    exists y: nat :: (y * y) % e.p == Rhs(x, e.b) % e.p
  }

  lemma DecompressedValidIs(e: Elliptic, x: nat, tag: nat)
    requires IsField(e) && e.p % 4 == 3
    ensures OnCurve(e, Affine(x, RecoveredY(x, tag, e)))
       <==> x < e.p && HasRoot(e, x) && !(Rhs(x, e.b) % e.p == 0 && tag % 2 == 1)
  {
    DecompressedValid(e, x, tag);
    hide Rhs, RecoveredY, OnCurve;
  }

  /** On a curve with a prime number of points no right-hand side is zero. */
  lemma NoZeroRoot(e: Elliptic, n: nat, x: nat)
    requires IsGroup(e) && IsPrime(n) && n > 2 && KilledBy(e, n) && x < e.p
    ensures Rhs(x, e.b) % e.p != 0
  {
    if Rhs(x, e.b) % e.p == 0 {
      var T := Affine(x, 0);
      ModSmall(0, e.p);
      assert OnCurve(e, T);
      hide *;
      GroupIsField(e);
      KilledPoint(e, n, T);
      OrderIntro(e, T, n);
      YNotZero(e, T, n);
    }
  }

  lemma KilledPoint(e: Elliptic, n: nat, P: Point)
    requires e.p > 3 && KilledBy(e, n) && OnCurve(e, P)
    ensures Times(e, n, P) == Infinity
  {
    hide Times, OnCurve;
  }

  /** There, exactly the square right-hand sides decompress to points of the curve, for either tag. */
  lemma DecompressedOnCurve(e: Elliptic, n: nat, x: nat, tag: nat)
    requires IsGroup(e) && e.p % 4 == 3 && IsPrime(n) && n > 2 && KilledBy(e, n)
    ensures OnCurve(e, Affine(x, RecoveredY(x, tag, e))) <==> x < e.p && HasRoot(e, x)
  {
    hide *;
    GroupIsField(e);
    DecompressedValidIs(e, x, tag);
    if x < e.p {
      NoZeroRoot(e, n, x);
    }
  }

  /** ecdsa_valid_public_key */
  method ValidPublicKey(publicKey: array<nat>, w: nat) returns (valid: bool)
    requires WordSize(w) && publicKey.Length == 64 && IsBytes(publicKey[..])
    ensures valid <==> OnCurve(Secp(), PublicKey(publicKey[..]))
  {
    hide *;
    SizeFacts(w);
    ghost var key := publicKey[..];
    BytesSplit(key);
    assert publicKey[0..0 + 32] == key[..32] && publicKey[32..32 + 32] == key[32..];
    var x, y := new nat[NumWords(w)], new nat[NumWords(w)];
    LoadBytes(x, publicKey, 0, w);
    LoadBytes(y, publicKey, 32, w);
    PublicKeyJoined(key, key[..32], key[32..]);
    valid := ValidPoint(x, y, w);
  }

  lemma BytesSplit(key: seq<nat>)
    requires |key| == 64 && IsBytes(key)
    ensures IsBytes(key[..32]) && IsBytes(key[32..]) && key == key[..32] + key[32..]
  {
  }

  /** Decompression, then validation: on secp256r1 the key is valid exactly when x is reduced and has a root. */
  method DecompressAndValidate(compressed: array<nat>, w: nat) returns (valid: bool)
    requires WordSize(w) && compressed.Length == 33 && IsBytes(compressed[..])
    requires CurveFacts() && KilledBy(Secp(), OrderN())
    ensures valid <==> BigEndian(compressed[1..33]) < PrimeP() && HasRoot(Secp(), BigEndian(compressed[1..33]))
  {
    hide *;
    ghost var c := compressed[..];
    assert c[1..] == compressed[1..33];
    CurveFactsAre();
    OrderSize();
    SecpIs();
    SecpIsSuitable();
    var publicKey := new nat[64];
    EcdsaDecompress(compressed, publicKey, w);
    DecompressedPoint(c, publicKey[..], Secp());
    DecompressedOnCurve(Secp(), OrderN(), BigEndian(c[1..]), c[0]);
    valid := ValidPublicKey(publicKey, w);
  }

  lemma DecompressedPoint(c: seq<nat>, key: seq<nat>, e: Elliptic)
    requires |c| == 33 && |key| == 64 && e.p > 0 && DecompressesTo(c, key, e)
    ensures IsBytes(key) && PublicKey(key) == Affine(BigEndian(c[1..]), RecoveredY(BigEndian(c[1..]), c[0], e))
  {
    hide BigEndian, RecoveredY, IsBytes;
  }

  lemma SquareOfMinus(r: nat, p: nat)
    requires r < p
    ensures ((p - r) * (p - r)) % p == (r * r) % p
  {
    assert (p - r) * (p - r) == r * r + (p - 2 * r) * p;
    ModAddMultiple(r * r, p - 2 * r, p);
  }

  /** The candidate root is zero just for zero. */
  lemma RootsOfZero(a: nat, r: nat, p: nat)
    requires IsPrime(p) && p > 3 && a < p && r == SqrtPower(a, p)
    ensures a == 0 <==> r == 0
  {
    SqrtPowerIs(a, p);
    hide *;
    if a == 0 {
      ZeroPower((p + 1) / 4);
      ModSmall(0, p);
    } else {
      ModSmall(a, p);
      PowerOfUnit(a, (p + 1) / 4, p);
    }
  }

  lemma ZeroPower(m: nat)
    requires m > 0
    ensures Pow(0, m) == 0
  {
  }

  lemma {:induction false} PowerOfUnit(a: nat, m: nat, p: nat)
    requires IsPrime(p) && a % p != 0
    ensures Pow(a, m) % p != 0
  {
    if m == 0 {
      ModSmallOne(p);
    } else {
      PowerOfUnit(a, m - 1, p);
      if Pow(a, m) % p == 0 {
        PowStep(a, m - 1);
        PrimeDividesProduct(a, Pow(a, m - 1), p);
      }
    }
  }
}
