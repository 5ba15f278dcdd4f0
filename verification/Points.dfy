/**
 Point operations on word arrays for secp256r1: the field operations on curve_p, apply_z,
 double_jacobian_default, XYcZ_add, XYcZ_addC and XYcZ_initial_double, coordinates
 overwritten in place. The curve's constants are immutable, so a pointer to one is
 modelled by a fresh array holding its words.
 */
module Points {
  import opened Arith
  import opened Words
  import opened Mult
  import opened Modular
  import opened ModInv
  import opened P256
  import opened Field
  import opened Curve
  import opened CoZ

  predicate WordSize(w: nat)
  {
    w == 32 || w == 64
  }

  /** num_words_secp256r1 */
  function NumWords(w: nat): (n: nat)
    requires WordSize(w)
    ensures n * w == 256 && 4 <= n <= 8
  {
    if w == 32 then 8 else 4
  }

  /** The words hold a reduced field element. */
  ghost predicate Fe(s: seq<nat>, w: nat)
  {
    WordSize(w) && |s| == NumWords(w) && IsWords(s, w) && Val(s, w) < PrimeP()
  }

  lemma FeFacts(s: seq<nat>, w: nat)
    ensures Fe(s, w) <==> WordSize(w) && |s| == NumWords(w) && IsWords(s, w) && Val(s, w) < PrimeP()
  {
    hide NumWords, WordSize, IsWords, Val, PrimeP;
  }

  lemma SizeFacts(w: nat)
    requires WordSize(w)
    ensures w >= 1 && 4 <= NumWords(w) <= 8 && NumWords(w) * w == 256 && NumWords(w) <= Base(w)
    ensures w == 32 ==> NumWords(w) == 8
    ensures w != 32 ==> w == 64 && NumWords(w) == 4
  {
    Bases();
    hide Base;
  }

  /** A pointer to a constant of the curve. */
  method Constant(s: seq<nat>) returns (a: array<nat>)
    ensures fresh(a) && a.Length == |s| && a[..] == s
  {
    a := new nat[|s|](i requires 0 <= i < |s| => s[i]);
    assert a[..] == s;
  }

  lemma PrimeConstant(w: nat)
    requires WordSize(w)
    ensures |PrimeWords(w)| == NumWords(w) && IsWords(PrimeWords(w), w) && Val(PrimeWords(w), w) == PrimeP()
    ensures PrimeP() > 3 && PrimeP() % 2 == 1
    ensures PrimeWords(w)[NumWords(w) - 1] > 0
  {
    PrimeWordsValue(w);
    hide Val, IsWords;
  }

  // ------------------------------------------------------- field operations

  /** Words of any value, reduced or not. */
  ghost predicate Raw(s: seq<nat>, w: nat)
  {
    WordSize(w) && |s| == NumWords(w) && IsWords(s, w)
  }

  lemma RawFacts(s: seq<nat>, w: nat)
    ensures Raw(s, w) <==> WordSize(w) && |s| == NumWords(w) && IsWords(s, w)
    ensures Fe(s, w) <==> Raw(s, w) && Val(s, w) < PrimeP()
  {
    hide NumWords, WordSize, IsWords, Val, PrimeP;
  }

  /** One subtraction of p brings a sum below 2p into the field. */
  lemma SumOnce(a: nat, b: nat, p: nat)
    requires p > 0 && a + b < 2 * p
    ensures (a + b) % p == if a + b < p then a + b else a + b - p
  {
    DivModUnique(a + b, p, if a + b < p then 0 else 1, if a + b < p then a + b else a + b - p);
  }

  lemma DifferenceOnce(a: nat, b: nat, p: nat)
    requires p > 0 && a < b + p && b < p
    ensures (a - b) % p == if a >= b then a - b else a - b + p
  {
    DivModUnique(a - b, p, if a >= b then 0 else -1, if a >= b then a - b else a - b + p);
  }

  /** ecdsa_vli_modAdd with curve_p, for operands whose sum is below 2p. */
  method FieldAddWords(result: array<nat>, left: array<nat>, right: array<nat>, w: nat)
    requires Raw(left[..], w) && Raw(right[..], w) && result.Length == left.Length
    requires Val(left[..], w) + Val(right[..], w) < 2 * PrimeP()
    modifies result
    ensures Fe(result[..], w)
    ensures Val(result[..], w) == FAdd(old(Val(left[..], w)), old(Val(right[..], w)), PrimeP())
  {
    hide *;
    RawFacts(left[..], w);
    RawFacts(right[..], w);
    PrimeConstant(w);
    SizeFacts(w);
    var p := Constant(PrimeWords(w));
    ghost var l, r := Val(left[..], w), Val(right[..], w);
    SumOnce(l, r, PrimeP());
    FieldOpsAre(l, r, PrimeP());
    ValBound(p[..], w);
    VliModAdd(result, left, right, p, w);
    FeFacts(result[..], w);
  }

  /** ecdsa_vli_modSub with curve_p, for operands whose difference is below p. */
  method FieldSubWords(result: array<nat>, left: array<nat>, right: array<nat>, w: nat)
    requires Raw(left[..], w) && Fe(right[..], w) && result.Length == left.Length
    requires Val(left[..], w) < Val(right[..], w) + PrimeP()
    modifies result
    ensures Fe(result[..], w)
    ensures Val(result[..], w) == FSub(old(Val(left[..], w)), old(Val(right[..], w)), PrimeP())
  {
    hide *;
    RawFacts(left[..], w);
    RawFacts(right[..], w);
    PrimeConstant(w);
    SizeFacts(w);
    var p := Constant(PrimeWords(w));
    ghost var l, r := Val(left[..], w), Val(right[..], w);
    DifferenceOnce(l, r, PrimeP());
    FieldOpsAre(l, r, PrimeP());
    VliModSub(result, left, right, p, w);
    FeFacts(result[..], w);
  }

  /** ecdsa_vli_modAdd with curve_p */
  method FieldAdd(result: array<nat>, left: array<nat>, right: array<nat>, w: nat)
    requires WordSize(w) && Fe(left[..], w) && Fe(right[..], w) && result.Length == NumWords(w)
    modifies result
    ensures Fe(result[..], w)
    ensures Val(result[..], w) == FAdd(old(Val(left[..], w)), old(Val(right[..], w)), PrimeP())
  {
    hide *;
    RawFacts(left[..], w);
    RawFacts(right[..], w);
    FieldAddWords(result, left, right, w);
  }

  /** ecdsa_vli_modSub with curve_p */
  method FieldSub(result: array<nat>, left: array<nat>, right: array<nat>, w: nat)
    requires WordSize(w) && Fe(left[..], w) && Fe(right[..], w) && result.Length == NumWords(w)
    modifies result
    ensures Fe(result[..], w)
    ensures Val(result[..], w) == FSub(old(Val(left[..], w)), old(Val(right[..], w)), PrimeP())
  {
    hide *;
    RawFacts(left[..], w);
    RawFacts(right[..], w);
    FieldSubWords(result, left, right, w);
  }

  lemma FieldOpsAre(a: int, b: int, p: nat)
    requires p > 0
    ensures FAdd(a, b, p) == (a + b) % p && FSub(a, b, p) == (a - b) % p && FMul(a, b, p) == (a * b) % p
  {
  }

  /** ecdsa_vli_modMult_fast; the operands need not be reduced. */
  method FieldMultWords(result: array<nat>, left: array<nat>, right: array<nat>, w: nat)
    requires WordSize(w) && result.Length == left.Length == right.Length == NumWords(w)
    requires IsWords(left[..], w) && IsWords(right[..], w)
    modifies result
    ensures Fe(result[..], w)
    ensures Val(result[..], w) == FMul(old(Val(left[..], w)), old(Val(right[..], w)), PrimeP())
  {
    hide *;
    PrimeConstant(w);
    SizeFacts(w);
    var p := Constant(PrimeWords(w));
    ghost var l, r := Val(left[..], w), Val(right[..], w);
    FieldOpsAre(l, r, PrimeP());
    var product := new nat[2 * NumWords(w)];
    VliMult(product, left, right, w);
    if w == 32 {
      MmodFast32(result, product, p);
    } else {
      MmodFast64(result, product, p);
    }
    FeFacts(result[..], w);
  }

  /** ecdsa_vli_modMult_fast on field elements. */
  method FieldMult(result: array<nat>, left: array<nat>, right: array<nat>, w: nat)
    requires WordSize(w) && Fe(left[..], w) && Fe(right[..], w) && result.Length == NumWords(w)
    modifies result
    ensures Fe(result[..], w)
    ensures Val(result[..], w) == FMul(old(Val(left[..], w)), old(Val(right[..], w)), PrimeP())
  {
    hide *;
    FeFacts(left[..], w);
    FeFacts(right[..], w);
    FieldMultWords(result, left, right, w);
  }

  /** ecdsa_vli_modInv with curve_p: the inverse in the field, and zero for zero. */
  method FieldInv(result: array<nat>, input: array<nat>, w: nat)
    requires WordSize(w) && Fe(input[..], w) && result.Length == NumWords(w) && IsPrime(PrimeP())
    modifies result
    ensures Fe(result[..], w)
    ensures Val(result[..], w) == if old(Val(input[..], w)) == 0 then 0 else FInv(old(Val(input[..], w)), PrimeP())
  {
    hide *;
    FeFacts(input[..], w);
    PrimeConstant(w);
    SizeFacts(w);
    var p := Constant(PrimeWords(w));
    ghost var x := Val(input[..], w);
    ghost var g := VliModInv(result, input, p, w);
    if x != 0 {
      InverseFromGcd(Val(result[..], w), x, g, PrimeP());
    }
    FeFacts(result[..], w);
  }

  lemma InverseFromGcd(v: nat, x: nat, g: nat, p: nat)
    requires IsPrime(p) && p > 1 && 0 < x < p && v < p && IsGcd(g, x, p) && (v * x) % p == g % p
    ensures v == FInv(x, p) && (v * x) % p == 1
  {
    PrimeCoprime(x, p);
    GcdOne(g, x, p);
    hide IsPrime, IsGcd, FInv;
    assert v * x == x * v;
    InverseUnique(x, v, p);
  }

  /** The halving step of double_jacobian_default: add p if odd, shift, put the carry back on top. */
  method FieldHalve(x: array<nat>, w: nat)
    requires WordSize(w) && Fe(x[..], w)
    modifies x
    ensures Fe(x[..], w) && Val(x[..], w) == HalfMod(old(Val(x[..], w)), PrimeP())
  {
    hide *;
    FeFacts(x[..], w);
    PrimeConstant(w);
    SizeFacts(w);
    var p := Constant(PrimeWords(w));
    VliModInvUpdate(x, p, w);
    FeFacts(x[..], w);
  }

  /** ecdsa_vli_set on whole elements. */
  method Copy(dest: array<nat>, src: array<nat>)
    requires dest.Length == src.Length && dest != src
    modifies dest
    ensures dest[..] == src[..]
  {
    VliSet(dest, 0, src, src.Length);
    assert dest[0..dest.Length] == dest[..] && src[..src.Length] == src[..];
  }

  /** A new element holding the value of src. */
  method Clone(src: array<nat>) returns (a: array<nat>)
    ensures fresh(a) && a.Length == src.Length && a[..] == src[..]
  {
    a := new nat[src.Length];
    Copy(a, src);
  }

  // -------------------------------------------------------- point operations

  /** apply_z; x and y need not be reduced. */
  method ApplyZWords(x: array<nat>, y: array<nat>, z: array<nat>, w: nat)
    requires Raw(x[..], w) && Raw(y[..], w) && Fe(z[..], w) && x != y && x != z && y != z
    modifies x, y
    ensures Fe(x[..], w) && Fe(y[..], w)
    ensures (Val(x[..], w), Val(y[..], w))
         == old(ApplyZ(Val(x[..], w), Val(y[..], w), Val(z[..], w), PrimeP()))
  {
    ghost var zv, xv, yv := Val(z[..], w), Val(x[..], w), Val(y[..], w);
    hide *;
    RawFacts(x[..], w);
    RawFacts(y[..], w);
    RawFacts(z[..], w);
    SizeFacts(w);
    var t1 := new nat[NumWords(w)];
    FieldMult(t1, z, z, w);
    RawFacts(t1[..], w);
    FieldMultWords(x, x, t1, w);   // x is the affine x times the square of z
    FieldMult(t1, t1, z, w);
    RawFacts(t1[..], w);
    FieldMultWords(y, y, t1, w);   // y is the affine y times the cube of z
    PrimeConstant(w);
    ApplyZIs(xv, yv, zv, PrimeP());
  }

  /** apply_z */
  method ApplyZInPlace(x: array<nat>, y: array<nat>, z: array<nat>, w: nat)
    requires WordSize(w) && Fe(x[..], w) && Fe(y[..], w) && Fe(z[..], w) && x != y && x != z && y != z
    modifies x, y
    ensures Fe(x[..], w) && Fe(y[..], w)
    ensures (Val(x[..], w), Val(y[..], w))
         == old(ApplyZ(Val(x[..], w), Val(y[..], w), Val(z[..], w), PrimeP()))
  {
    hide *;
    RawFacts(x[..], w);
    RawFacts(y[..], w);
    ApplyZWords(x, y, z, w);
  }

  lemma ApplyZIs(x: int, y: int, z: int, p: nat)
    requires p > 0
    ensures ApplyZ(x, y, z, p) == (FMul(x, FMul(z, z, p), p), FMul(y, FMul(FMul(z, z, p), z, p), p))
  {
    hide FMul;
  }

  lemma CoZAddSteps(q: Quad, p: nat, a: nat, b: nat, c: nat, e: nat, x3: nat, s: nat)
    requires p > 0
    requires a == FMul(FSub(q.x2, q.x1, p), FSub(q.x2, q.x1, p), p)
    requires b == FMul(q.x1, a, p) && c == FMul(q.x2, a, p) && e == FSub(q.y2, q.y1, p)
    requires x3 == FSub(FSub(FMul(e, e, p), b, p), c, p) && s == FMul(q.y1, FSub(c, b, p), p)
    ensures CoZAdd(q, p) == Quad(b, s, x3, FSub(FMul(e, FSub(b, x3, p), p), s, p))
  {
    hide FMul, FSub;
  }

  /** The first half of XYcZ_add: x1 becomes b, x2 becomes c and y2 becomes e of CoZAddSteps. */
  method AddDifferences(x1: array<nat>, y1: array<nat>, x2: array<nat>, y2: array<nat>, t5: array<nat>, w: nat,
                        ghost q: Quad) returns (ghost a: nat)
    requires Fe(x1[..], w) && Fe(y1[..], w) && Raw(x2[..], w) && Raw(y2[..], w) && t5.Length == x1.Length
    requires Val(x2[..], w) < Val(x1[..], w) + PrimeP() && Val(y2[..], w) < Val(y1[..], w) + PrimeP()
    requires x1 != y1 && x1 != x2 && x1 != y2 && y1 != x2 && y1 != y2 && x2 != y2
    requires t5 != x1 && t5 != y1 && t5 != x2 && t5 != y2
    requires q == Quad(Val(x1[..], w), Val(y1[..], w), Val(x2[..], w), Val(y2[..], w))
    modifies x1, x2, y2, t5
    ensures Fe(x1[..], w) && Fe(x2[..], w) && Fe(y2[..], w)
    ensures a == FMul(FSub(q.x2, q.x1, PrimeP()), FSub(q.x2, q.x1, PrimeP()), PrimeP())
    ensures Val(x1[..], w) == FMul(q.x1, a, PrimeP()) && Val(x2[..], w) == FMul(q.x2, a, PrimeP())
    ensures Val(y2[..], w) == FSub(q.y2, q.y1, PrimeP())
  {
    hide *;
    RawFacts(x1[..], w);
    RawFacts(y1[..], w);
    RawFacts(x2[..], w);
    RawFacts(y2[..], w);
    FieldSubWords(t5, x2, x1, w);
    FieldMult(t5, t5, t5, w);
    a := Val(t5[..], w);
    RawFacts(t5[..], w);
    FieldMult(x1, x1, t5, w);
    FieldMultWords(x2, x2, t5, w);
    FieldSubWords(y2, y2, y1, w);
  }

  /** The second half: from b, y1, c and e to the rescaled first point and the sum. */
  method AddSum(x1: array<nat>, y1: array<nat>, x2: array<nat>, y2: array<nat>, t5: array<nat>, w: nat)
    returns (ghost s: nat)
    requires Fe(x1[..], w) && Fe(y1[..], w) && Fe(x2[..], w) && Fe(y2[..], w) && t5.Length == x1.Length
    requires x1 != y1 && x1 != x2 && x1 != y2 && y1 != x2 && y1 != y2 && x2 != y2
    requires t5 != x1 && t5 != y1 && t5 != x2 && t5 != y2
    modifies y1, x2, y2, t5
    ensures Fe(y1[..], w) && Fe(x2[..], w) && Fe(y2[..], w) && Val(y1[..], w) == s
    ensures var p, b, c, e, x3 := PrimeP(), Val(x1[..], w), old(Val(x2[..], w)), old(Val(y2[..], w)), Val(x2[..], w);
      && x3 == FSub(FSub(FMul(e, e, p), b, p), c, p) && s == FMul(old(Val(y1[..], w)), FSub(c, b, p), p)
      && Val(y2[..], w) == FSub(FMul(e, FSub(b, x3, p), p), s, p)
  {
    hide *;
    FeFacts(x1[..], w);
    FeFacts(y1[..], w);
    FeFacts(x2[..], w);
    FeFacts(y2[..], w);
    FieldMult(t5, y2, y2, w);
    FieldSub(t5, t5, x1, w);
    FieldSub(t5, t5, x2, w);    // t5 holds x3
    FieldSub(x2, x2, x1, w);
    FieldMult(y1, y1, x2, w);   // y1 holds s, the rescaled y of the first point
    s := Val(y1[..], w);
    FieldSub(x2, x1, t5, w);
    FieldMult(y2, y2, x2, w);
    FieldSub(y2, y2, y1, w);    // y2 holds the y of the sum
    FeFacts(t5[..], w);
    FeFacts(x2[..], w);
    Copy(x2, t5);
  }

  /** XYcZ_add; the second point need not be reduced, as long as its differences to the first are below p. */
  method XYcZAddWords(x1: array<nat>, y1: array<nat>, x2: array<nat>, y2: array<nat>, w: nat)
    requires Fe(x1[..], w) && Fe(y1[..], w) && Raw(x2[..], w) && Raw(y2[..], w)
    requires Val(x2[..], w) < Val(x1[..], w) + PrimeP() && Val(y2[..], w) < Val(y1[..], w) + PrimeP()
    requires x1 != y1 && x1 != x2 && x1 != y2 && y1 != x2 && y1 != y2 && x2 != y2
    modifies x1, y1, x2, y2
    ensures Fe(x1[..], w) && Fe(y1[..], w) && Fe(x2[..], w) && Fe(y2[..], w)
    ensures Quad(Val(x1[..], w), Val(y1[..], w), Val(x2[..], w), Val(y2[..], w))
         == old(CoZAdd(Quad(Val(x1[..], w), Val(y1[..], w), Val(x2[..], w), Val(y2[..], w)), PrimeP()))
  {
    ghost var q := Quad(Val(x1[..], w), Val(y1[..], w), Val(x2[..], w), Val(y2[..], w));
    hide *;
    FeFacts(x1[..], w);
    PrimeConstant(w);
    var t5 := new nat[x1.Length];
    ghost var a := AddDifferences(x1, y1, x2, y2, t5, w, q);
    ghost var b, c, e := Val(x1[..], w), Val(x2[..], w), Val(y2[..], w);
    FeFacts(x1[..], w);
    ghost var s := AddSum(x1, y1, x2, y2, t5, w);
    CoZAddSteps(q, PrimeP(), a, b, c, e, Val(x2[..], w), s);
  }

  /** XYcZ_add */
  method XYcZAdd(x1: array<nat>, y1: array<nat>, x2: array<nat>, y2: array<nat>, w: nat)
    requires WordSize(w) && Fe(x1[..], w) && Fe(y1[..], w) && Fe(x2[..], w) && Fe(y2[..], w)
    requires x1 != y1 && x1 != x2 && x1 != y2 && y1 != x2 && y1 != y2 && x2 != y2
    modifies x1, y1, x2, y2
    ensures Fe(x1[..], w) && Fe(y1[..], w) && Fe(x2[..], w) && Fe(y2[..], w)
    ensures Quad(Val(x1[..], w), Val(y1[..], w), Val(x2[..], w), Val(y2[..], w))
         == old(CoZAdd(Quad(Val(x1[..], w), Val(y1[..], w), Val(x2[..], w), Val(y2[..], w)), PrimeP()))
  {
    hide *;
    RawFacts(x2[..], w);
    RawFacts(y2[..], w);
    XYcZAddWords(x1, y1, x2, y2, w);
  }

  lemma CoZAddCSteps(q: Quad, p: nat, a: nat, b: nat, c: nat, f: nat, e: nat, s: nat, bc: nat, x3: nat, x4: nat)
    requires p > 0
    requires a == FMul(FSub(q.x2, q.x1, p), FSub(q.x2, q.x1, p), p)
    requires b == FMul(q.x1, a, p) && c == FMul(q.x2, a, p)
    requires f == FAdd(q.y2, q.y1, p) && e == FSub(q.y2, q.y1, p)
    requires s == FMul(q.y1, FSub(c, b, p), p) && bc == FAdd(b, c, p)
    requires x3 == FSub(FMul(e, e, p), bc, p) && x4 == FSub(FMul(f, f, p), bc, p)
    ensures CoZAddC(q, p) == Quad(x4, FSub(FMul(FSub(x4, b, p), f, p), s, p),
                                  x3, FSub(FMul(e, FSub(b, x3, p), p), s, p))
  {
    hide FMul, FSub, FAdd;
  }

  /** The first half of XYcZ_addC: (x2, y2) becomes P + Q; x1, y1, t5, t6 become b, s, f, bc of CoZAddCSteps. */
  method AddCSum(x1: array<nat>, y1: array<nat>, x2: array<nat>, y2: array<nat>, t5: array<nat>, t6: array<nat>,
                 w: nat, ghost q: Quad) returns (ghost a: nat, ghost c: nat, ghost e: nat)
    requires WordSize(w) && Fe(x1[..], w) && Fe(y1[..], w) && Fe(x2[..], w) && Fe(y2[..], w)
    requires x1 != y1 && x1 != x2 && x1 != y2 && y1 != x2 && y1 != y2 && x2 != y2
    requires t5 != x1 && t5 != y1 && t5 != x2 && t5 != y2 && t6 != x1 && t6 != y1 && t6 != x2 && t6 != y2 && t5 != t6
    requires t5.Length == t6.Length == NumWords(w)
    requires q == Quad(Val(x1[..], w), Val(y1[..], w), Val(x2[..], w), Val(y2[..], w))
    modifies x1, y1, x2, y2, t5, t6
    ensures Fe(x1[..], w) && Fe(y1[..], w) && Fe(x2[..], w) && Fe(y2[..], w) && Fe(t5[..], w) && Fe(t6[..], w)
    ensures var p, b, s := PrimeP(), Val(x1[..], w), Val(y1[..], w);
      && a == FMul(FSub(q.x2, q.x1, p), FSub(q.x2, q.x1, p), p)
      && b == FMul(q.x1, a, p) && c == FMul(q.x2, a, p) && e == FSub(q.y2, q.y1, p)
      && s == FMul(q.y1, FSub(c, b, p), p)
      && Val(t5[..], w) == FAdd(q.y2, q.y1, p) && Val(t6[..], w) == FAdd(b, c, p)
      && Val(x2[..], w) == FSub(FMul(e, e, p), Val(t6[..], w), p)
      && Val(y2[..], w) == FSub(FMul(e, FSub(b, Val(x2[..], w), p), p), s, p)
  {
    hide *;
    FeFacts(x1[..], w);
    FeFacts(y1[..], w);
    FeFacts(x2[..], w);
    FeFacts(y2[..], w);
    FieldSub(t5, x2, x1, w);
    FieldMult(t5, t5, t5, w);
    a := Val(t5[..], w);
    FieldMult(x1, x1, t5, w);   // x1 holds b
    FieldMult(x2, x2, t5, w);
    c := Val(x2[..], w);
    FieldAdd(t5, y2, y1, w);    // t5 holds f
    FieldSub(y2, y2, y1, w);
    e := Val(y2[..], w);
    FieldSub(t6, x2, x1, w);
    FieldMult(y1, y1, t6, w);   // y1 holds s
    FieldAdd(t6, x1, x2, w);    // t6 holds bc
    FieldMult(x2, y2, y2, w);
    FieldSub(x2, x2, t6, w);    // x2 holds the x of the sum
    var t7 := new nat[NumWords(w)];
    FieldSub(t7, x1, x2, w);
    FieldMult(y2, y2, t7, w);
    FieldSub(y2, y2, y1, w);    // y2 holds the y of the sum
  }

  /** The second half: from b, s, f and bc to P - Q in (x1, y1). */
  method AddCDifference(x1: array<nat>, y1: array<nat>, t5: array<nat>, t6: array<nat>, w: nat)
    requires Fe(x1[..], w) && Fe(y1[..], w) && Fe(t5[..], w) && Fe(t6[..], w)
    requires x1 != y1 && t5 != x1 && t5 != y1 && t6 != x1 && t6 != y1 && t5 != t6
    modifies x1, y1, t6
    ensures Fe(x1[..], w) && Fe(y1[..], w)
    ensures var p, f, x4 := PrimeP(), Val(t5[..], w), Val(x1[..], w);
      && x4 == FSub(FMul(f, f, p), old(Val(t6[..], w)), p)
      && Val(y1[..], w) == FSub(FMul(FSub(x4, old(Val(x1[..], w)), p), f, p), old(Val(y1[..], w)), p)
  {
    hide *;
    FeFacts(x1[..], w);
    FeFacts(y1[..], w);
    FeFacts(t6[..], w);
    var t7 := new nat[x1.Length];
    FieldMult(t7, t5, t5, w);
    FieldSub(t7, t7, t6, w);    // t7 holds x4
    FieldSub(t6, t7, x1, w);
    FieldMult(t6, t6, t5, w);
    FieldSub(y1, t6, y1, w);    // y1 holds the y of the difference
    FeFacts(t7[..], w);
    Copy(x1, t7);
  }

  /** XYcZ_addC */
  method XYcZAddC(x1: array<nat>, y1: array<nat>, x2: array<nat>, y2: array<nat>, w: nat)
    requires WordSize(w) && Fe(x1[..], w) && Fe(y1[..], w) && Fe(x2[..], w) && Fe(y2[..], w)
    requires x1 != y1 && x1 != x2 && x1 != y2 && y1 != x2 && y1 != y2 && x2 != y2
    modifies x1, y1, x2, y2
    ensures Fe(x1[..], w) && Fe(y1[..], w) && Fe(x2[..], w) && Fe(y2[..], w)
    ensures Quad(Val(x1[..], w), Val(y1[..], w), Val(x2[..], w), Val(y2[..], w))
         == old(CoZAddC(Quad(Val(x1[..], w), Val(y1[..], w), Val(x2[..], w), Val(y2[..], w)), PrimeP()))
  {
    ghost var q := Quad(Val(x1[..], w), Val(y1[..], w), Val(x2[..], w), Val(y2[..], w));
    hide *;
    FeFacts(x1[..], w);
    PrimeConstant(w);
    var t5, t6 := new nat[NumWords(w)], new nat[NumWords(w)];
    ghost var a, c, e := AddCSum(x1, y1, x2, y2, t5, t6, w, q);
    ghost var b, s, f, bc := Val(x1[..], w), Val(y1[..], w), Val(t5[..], w), Val(t6[..], w);
    AddCDifference(x1, y1, t5, t6, w);
    CoZAddCSteps(q, PrimeP(), a, b, c, f, e, s, bc, Val(x2[..], w), Val(x1[..], w));
  }

  lemma DoubleSteps(j: Jacobian, p: nat, yy: nat, a: nat, zz: nat, sum: nat, m: nat, b: nat, x3: nat)
    requires p > 0 && j.z != 0
    requires yy == FMul(j.y, j.y, p) && a == FMul(j.x, yy, p) && zz == FMul(j.z, j.z, p)
    requires sum == FAdd(j.x, zz, p) && m == FMul(sum, FSub(sum, FAdd(zz, zz, p), p), p)
    requires b == HalfMod(FAdd(m, FAdd(m, m, p), p), p) && x3 == FSub(FSub(FMul(b, b, p), a, p), a, p)
    ensures DoubleJacobian(j, p)
         == Jacobian(x3, FSub(FMul(b, FSub(a, x3, p), p), FMul(yy, yy, p), p), FMul(j.y, j.z, p))
  {
    hide FMul, FSub, FAdd, HalfMod;
  }

  lemma DoubleAtInfinity(j: Jacobian, p: nat)
    requires p > 0 && j.z == 0
    ensures DoubleJacobian(j, p) == j
  {
  }

  /** The slope part of the doubling: x1 becomes the b of DoubleSteps; z1 is used up. */
  method DoublingSlope(x1: array<nat>, z1: array<nat>, w: nat, ghost x: nat, ghost zz: nat)
    requires Raw(x1[..], w) && Fe(z1[..], w) && x1 != z1
    requires x == Val(x1[..], w) && zz == Val(z1[..], w) && x + zz < 2 * PrimeP()
    modifies x1, z1
    ensures Fe(x1[..], w) && Fe(z1[..], w)
    ensures var p := PrimeP();
      var sum := FAdd(x, zz, p);
      var m := FMul(sum, FSub(sum, FAdd(zz, zz, p), p), p);
      Val(x1[..], w) == HalfMod(FAdd(m, FAdd(m, m, p), p), p)
  {
    hide *;
    RawFacts(x1[..], w);
    RawFacts(z1[..], w);
    FieldAddWords(x1, x1, z1, w);   // x1 holds the sum of x and zz
    RawFacts(x1[..], w);
    FieldAdd(z1, z1, z1, w);
    FieldSub(z1, x1, z1, w);        // z1 holds x - zz
    FieldMult(x1, x1, z1, w);       // x1 holds m
    FieldAdd(z1, x1, x1, w);
    FieldAdd(x1, x1, z1, w);        // x1 holds 3m
    FieldHalve(x1, w);              // x1 holds the scaled tangent slope
  }

  /** The end of the doubling, from the slope in x1, a in t5 and the fourth power of y in t4; Z is found in y1. */
  method DoublingEnd(x1: array<nat>, y1: array<nat>, z1: array<nat>, t4: array<nat>, t5: array<nat>, w: nat)
    requires WordSize(w) && Fe(x1[..], w) && Fe(y1[..], w) && Fe(z1[..], w) && Fe(t4[..], w) && Fe(t5[..], w)
    requires x1 != y1 && x1 != z1 && y1 != z1 && x1 != t4 && y1 != t4 && z1 != t4
    requires x1 != t5 && y1 != t5 && z1 != t5 && t4 != t5
    modifies x1, y1, z1, t4, t5
    ensures Fe(x1[..], w) && Fe(y1[..], w) && Fe(z1[..], w) && Val(z1[..], w) == old(Val(y1[..], w))
    ensures var p, b, a := PrimeP(), old(Val(x1[..], w)), old(Val(t5[..], w));
      var x3 := Val(x1[..], w);
      && x3 == FSub(FSub(FMul(b, b, p), a, p), a, p)
      && Val(y1[..], w) == FSub(FMul(b, FSub(a, x3, p), p), old(Val(t4[..], w)), p)
  {
    hide *;
    FeFacts(x1[..], w);
    FeFacts(z1[..], w);
    FeFacts(t4[..], w);
    FeFacts(t5[..], w);
    FieldMult(z1, x1, x1, w);
    FieldSub(z1, z1, t5, w);
    FieldSub(z1, z1, t5, w);    // z1 holds x3
    FieldSub(t5, t5, z1, w);
    FieldMult(x1, x1, t5, w);
    FieldSub(t4, x1, t4, w);    // t4 holds y3
    FeFacts(x1[..], w);
    FeFacts(y1[..], w);
    FeFacts(z1[..], w);
    FeFacts(t4[..], w);
    Copy(x1, z1);
    Copy(z1, y1);
    Copy(y1, t4);
  }

  /** The products that double_jacobian_default starts with: y1 becomes the new Z and z1 its square. */
  method DoublingStart(x1: array<nat>, y1: array<nat>, z1: array<nat>, t4: array<nat>, t5: array<nat>, w: nat)
    requires Raw(x1[..], w) && Raw(y1[..], w) && Fe(z1[..], w) && t4.Length == t5.Length == x1.Length
    requires x1 != y1 && x1 != z1 && y1 != z1 && x1 != t4 && y1 != t4 && z1 != t4
    requires x1 != t5 && y1 != t5 && z1 != t5 && t4 != t5
    modifies y1, z1, t4, t5
    ensures Fe(y1[..], w) && Fe(z1[..], w) && Fe(t4[..], w) && Fe(t5[..], w)
    ensures var p, x, y, z := PrimeP(), Val(x1[..], w), old(Val(y1[..], w)), old(Val(z1[..], w));
      var yy := FMul(y, y, p);
      && Val(t5[..], w) == FMul(x, yy, p) && Val(t4[..], w) == FMul(yy, yy, p)
      && Val(y1[..], w) == FMul(y, z, p) && Val(z1[..], w) == FMul(z, z, p)
  {
    hide *;
    RawFacts(x1[..], w);
    RawFacts(y1[..], w);
    RawFacts(z1[..], w);
    FieldMultWords(t4, y1, y1, w);
    RawFacts(t4[..], w);
    FieldMultWords(t5, x1, t4, w);
    FieldMult(t4, t4, t4, w);
    FieldMultWords(y1, y1, z1, w);
    FieldMult(z1, z1, z1, w);
  }

  /** double_jacobian_default; x1 and y1 need not be reduced while Z is not 0 and x1 + Z^2 is below 2p. */
  method DoubleWords(x1: array<nat>, y1: array<nat>, z1: array<nat>, w: nat)
    requires Raw(x1[..], w) && Raw(y1[..], w) && Fe(z1[..], w) && x1 != y1 && x1 != z1 && y1 != z1 && PrimeP() > 0
    requires Val(z1[..], w) == 0 ==> Fe(x1[..], w) && Fe(y1[..], w)
    requires Val(x1[..], w) + FMul(Val(z1[..], w), Val(z1[..], w), PrimeP()) < 2 * PrimeP()
    modifies x1, y1, z1
    ensures Fe(x1[..], w) && Fe(y1[..], w) && Fe(z1[..], w)
    ensures Jacobian(Val(x1[..], w), Val(y1[..], w), Val(z1[..], w))
         == old(DoubleJacobian(Jacobian(Val(x1[..], w), Val(y1[..], w), Val(z1[..], w)), PrimeP()))
  {
    ghost var j := Jacobian(Val(x1[..], w), Val(y1[..], w), Val(z1[..], w));
    hide *;
    RawFacts(x1[..], w);
    RawFacts(z1[..], w);
    var zero := VliIsZero(z1, w);
    if zero {
      DoubleAtInfinity(j, PrimeP());
      return;
    }
    var t4, t5 := new nat[x1.Length], new nat[x1.Length];
    DoublingStart(x1, y1, z1, t4, t5, w);
    ghost var yy, a, zz := FMul(j.y, j.y, PrimeP()), Val(t5[..], w), Val(z1[..], w);
    DoublingSlope(x1, z1, w, j.x, zz);
    ghost var b := Val(x1[..], w);
    DoublingEnd(x1, y1, z1, t4, t5, w);
    DoubleSlopeParts(j, PrimeP(), yy, a, zz, b, Val(x1[..], w));
  }

  lemma FMulBelow(a: int, b: int, p: nat)
    requires p > 0
    ensures FMul(a, b, p) < p
  {
  }

  /** double_jacobian_default */
  method DoubleInPlace(x1: array<nat>, y1: array<nat>, z1: array<nat>, w: nat)
    requires WordSize(w) && Fe(x1[..], w) && Fe(y1[..], w) && Fe(z1[..], w) && x1 != y1 && x1 != z1 && y1 != z1
    modifies x1, y1, z1
    ensures Fe(x1[..], w) && Fe(y1[..], w) && Fe(z1[..], w)
    ensures Jacobian(Val(x1[..], w), Val(y1[..], w), Val(z1[..], w))
         == old(DoubleJacobian(Jacobian(Val(x1[..], w), Val(y1[..], w), Val(z1[..], w)), PrimeP()))
  {
    hide *;
    RawFacts(x1[..], w);
    RawFacts(y1[..], w);
    PrimeConstant(w);
    FMulBelow(Val(z1[..], w), Val(z1[..], w), PrimeP());
    DoubleWords(x1, y1, z1, w);
  }

  lemma DoubleSlopeParts(j: Jacobian, p: nat, yy: nat, a: nat, zz: nat, b: nat, x3: nat)
    requires p > 0 && j.z != 0
    requires yy == FMul(j.y, j.y, p) && a == FMul(j.x, yy, p) && zz == FMul(j.z, j.z, p)
    requires var sum := FAdd(j.x, zz, p);
      var m := FMul(sum, FSub(sum, FAdd(zz, zz, p), p), p);
      b == HalfMod(FAdd(m, FAdd(m, m, p), p), p)
    requires x3 == FSub(FSub(FMul(b, b, p), a, p), a, p)
    ensures DoubleJacobian(j, p)
         == Jacobian(x3, FSub(FMul(b, FSub(a, x3, p), p), FMul(yy, yy, p), p), FMul(j.y, j.z, p))
  {
    hide *;
    var sum := FAdd(j.x, zz, p);
    var m := FMul(sum, FSub(sum, FAdd(zz, zz, p), p), p);
    DoubleSteps(j, p, yy, a, zz, sum, m, b, x3);
  }

  lemma FourIsAWord(w: nat)
    requires WordSize(w)
    ensures Base(w) >= 4
  {
    Bases();
    hide Base;
  }

  lemma PrimeAbove4()
    ensures PrimeP() > 4 && PrimeP() % 4 == 3
  {
  }

  /** A small constant. */
  method SmallNumber(x: nat, w: nat) returns (a: array<nat>)
    requires WordSize(w) && x < 4
    ensures fresh(a) && Fe(a[..], w) && Val(a[..], w) == x
  {
    SizeFacts(w);
    FourIsAWord(w);
    PrimeAbove4();
    hide *;
    a := new nat[NumWords(w)];
    VliClear(a, 0, NumWords(w));
    a[0] := x;
    SmallValue(a[..], x, w);
    FeFacts(a[..], w);
  }

  /**
   XYcZ_initial_double: (x1, y1) becomes 2P and (x2, y2) becomes P, both over the z that the doubling
   returns. initialZ is null when the C code passes 0.
   */
  method XYcZInitialDouble(x1: array<nat>, y1: array<nat>, x2: array<nat>, y2: array<nat>, initialZ: array?<nat>,
                           w: nat)
    returns (ghost z': nat)
    requires WordSize(w) && Fe(x1[..], w) && Fe(y1[..], w) && x2.Length == y2.Length == NumWords(w)
    requires initialZ != null ==> Fe(initialZ[..], w)
    requires x1 != y1 && x1 != x2 && x1 != y2 && y1 != x2 && y1 != y2 && x2 != y2
    modifies x1, y1, x2, y2
    ensures Fe(x1[..], w) && Fe(y1[..], w) && Fe(x2[..], w) && Fe(y2[..], w)
    ensures var p := PrimeP();
      var z := if initialZ == null then 1 else old(Val(initialZ[..], w));
      var a := ApplyZ(old(Val(x1[..], w)), old(Val(y1[..], w)), z, p);
      var d := DoubleJacobian(Jacobian(a.0, a.1, z), p);
      && z' == d.z && Val(x1[..], w) == d.x && Val(y1[..], w) == d.y
      && (Val(x2[..], w), Val(y2[..], w)) == ApplyZ(old(Val(x1[..], w)), old(Val(y1[..], w)), z', p)
  {
    hide *;
    FeFacts(x1[..], w);
    FeFacts(y1[..], w);
    PrimeConstant(w);
    var z;
    if initialZ != null {
      z := Clone(initialZ);
    } else {
      z := SmallNumber(1, w);
    }
    Copy(x2, x1);
    Copy(y2, y1);
    ApplyZInPlace(x1, y1, z, w);
    DoubleInPlace(x1, y1, z, w);
    z' := Val(z[..], w);
    ApplyZInPlace(x2, y2, z, w);
  }
}
