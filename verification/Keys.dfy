/**
 regularize_k, the scalars it gives the ladder, and public keys computed from private keys.
 */
module Keys {
  import opened Arith
  import opened Words
  import opened Bytes
  import opened P256
  import opened Field
  import opened Curve
  import opened Points
  import opened Ladder
  import OrderChain

  // ----------------------------------------------------------- regularize_k

  /** The scalar selected by p2[!carry]: k + n if that already has numBits + 1 bits, else k + 2n. */
  function Regular(k: nat, n: nat, numBits: nat): (r: nat)
  {
    if k + n >= Pow(2, numBits) then k + n else k + 2 * n
  }

  /** n has exactly numBits bits. */
  predicate ExactBits(n: nat, numBits: nat)
  {
    numBits >= 1 && Pow(2, numBits - 1) <= n < Pow(2, numBits)
  }

  lemma ExactBitsAre(n: nat, numBits: nat)
    requires ExactBits(n, numBits)
    ensures numBits >= 1 && n < Pow(2, numBits) <= 2 * n
  {
    Pow2Step(numBits - 1);
  }

  /** The regular scalar is k modulo n, and its top bit is bit numBits. */
  lemma RegularScalar(k: nat, n: nat, numBits: nat)
    requires k < n && ExactBits(n, numBits)
    ensures Regular(k, n, numBits) % n == k
    ensures Pow(2, numBits) <= Regular(k, n, numBits) < Pow(2, numBits + 1)
  {
    ExactBitsAre(n, numBits);
    Pow2Step(numBits);
    hide Pow;
    DivModUnique(k + n, n, 1, k);
    DivModUnique(k + 2 * n, n, 2, k);
  }

  /** The carry regularize_k returns for the wrapped sum v0 = (k + n) mod Base^words. */
  predicate RegularCarry(k: nat, n: nat, v0: nat, numBits: nat, total: nat)
  {
    k + n >= Pow(2, total) || (numBits < total && Bit(v0, numBits) == 1)
  }

  lemma ModOfMod(a: nat, p: nat, q: nat)
    requires p > 0 && q > 0
    ensures p * q > 0 && (a % (p * q)) % p == a % p
  {
    var m := p * q;
    MulGe(q, p);
    var k := a / m;
    assert a == k * m + a % m;
    assert a == a % m + (k * q) * p;
    ModAddMultiple(a % m, k * q, p);
  }

  lemma EffectiveValue(v: nat, a: nat, numBits: nat, total: nat)
    requires numBits <= total && v == a % Pow(2, total) && Pow(2, numBits) <= a < Pow(2, numBits + 1)
    ensures EffectiveScalar(v, numBits) == a
  {
    Pow2Step(numBits);
    EffectiveIs(v, numBits);
    hide *;
    var p, q := Pow(2, numBits), Pow(2, total - numBits);
    PowAdd(2, numBits, total - numBits);
    PowPositive(2, numBits);
    PowPositive(2, total - numBits);
    ModOfMod(a, p, q);
    DivModUnique(a, p, 1, a - p);
  }

  /** With the caller's choice p2[!carry] the ladder runs over Regular(k). */
  lemma RegularSelected(k: nat, n: nat, v0: nat, v1: nat, numBits: nat, total: nat)
    requires k < n && ExactBits(n, numBits) && numBits <= total
    requires v0 == (k + n) % Pow(2, total) && v1 == (k + 2 * n) % Pow(2, total)
    ensures EffectiveScalar(if RegularCarry(k, n, v0, numBits, total) then v0 else v1, numBits)
         == Regular(k, n, numBits)
  {
    hide *;
    RegularIs(k, n, numBits);
    RegularScalar(k, n, numBits);
    CarryDecides(k, n, v0, numBits, total);
    if k + n >= Pow(2, numBits) {
      EffectiveValue(v0, k + n, numBits, total);
    } else {
      EffectiveValue(v1, k + 2 * n, numBits, total);
    }
  }

  lemma RegularIs(k: nat, n: nat, numBits: nat)
    ensures Regular(k, n, numBits) == if k + n >= Pow(2, numBits) then k + n else k + 2 * n
  {
    hide Pow;
  }

  /** The carry tells whether k + n has outgrown the bits of n, with or without a word to hold that bit. */
  lemma CarryDecides(k: nat, n: nat, v0: nat, numBits: nat, total: nat)
    requires k < n && ExactBits(n, numBits) && numBits <= total && v0 == (k + n) % Pow(2, total)
    ensures RegularCarry(k, n, v0, numBits, total) <==> k + n >= Pow(2, numBits)
  {
    ExactBitsAre(n, numBits);
    hide *;
    RegularCarryIs(k, n, v0, numBits, total);
    if numBits < total {
      PowMonotone(2, numBits + 1, total);
      Pow2Step(numBits);
      ModSmall(k + n, Pow(2, total));
      BitOfSum(k + n, numBits);
    }
  }

  lemma BitOfSum(v: nat, i: nat)
    requires v < 2 * Pow(2, i)
    ensures Bit(v, i) == 1 <==> v >= Pow(2, i)
  {
    BitIs(v, i);
    var p := Pow(2, i);
    hide *;
    if v >= p {
      DivModUnique(v, p, 1, v - p);
    } else {
      ModSmall(v, p);
    }
  }

  lemma WrappedSum(v: nat, carry: nat, a: nat, p: nat)
    requires p > 0 && v + carry * p == a && v < p
    ensures v == a % p && (carry >= 1 <==> a >= p)
  {
    DivModUnique(a, p, carry, v);
    if carry >= 1 {
      MulMono(1, carry, p);
    }
    assert carry == 0 ==> carry * p == 0;
  }

  lemma SecondSum(v0: nat, k: nat, n: nat, p: nat)
    requires p > 0 && v0 == (k + n) % p
    ensures (v0 + n) % p == (k + 2 * n) % p
  {
    ModIdem(k + n, p);
    ModAddCong(v0, k + n, n, n, p);
  }

  /** regularize_k; k0 may be k itself. */
  method RegularizeK(k: array<nat>, k0: array<nat>, k1: array<nat>, n: array<nat>, numBits: nat, w: nat)
    returns (carry: bool)
    requires w >= 1 && k.Length == k0.Length == k1.Length == n.Length && numBits <= w * n.Length
    requires k0 != n && k1 != n && k0 != k1
    requires IsWords(k[..], w) && IsWords(n[..], w)
    modifies k0, k1
    ensures IsWords(k0[..], w) && IsWords(k1[..], w)
    ensures Val(k0[..], w) == (old(Val(k[..], w)) + Val(n[..], w)) % Pow(2, w * n.Length)
    ensures Val(k1[..], w) == (old(Val(k[..], w)) + 2 * Val(n[..], w)) % Pow(2, w * n.Length)
    ensures carry == RegularCarry(old(Val(k[..], w)), Val(n[..], w), Val(k0[..], w), numBits, w * n.Length)
  {
    hide *;
    ghost var kv, nv, total := Val(k[..], w), Val(n[..], w), w * n.Length;
    BasePow(w, n.Length);
    PowPositive(2, total);
    var c := VliAdd(k0, k, n, w);
    ValBound(k0[..], w);
    WrappedSum(Val(k0[..], w), c, kv + nv, Pow(2, total));
    carry := c != 0;
    if !carry && numBits < w * n.Length {
      carry := VliTestBit(k0, numBits, w);
    }
    RegularCarryIs(kv, nv, Val(k0[..], w), numBits, total);
    SecondSum(Val(k0[..], w), kv, nv, Pow(2, total));
    ghost var v0 := Val(k0[..], w);
    c := VliAdd(k1, k0, n, w);
    ValBound(k1[..], w);
    WrappedSum(Val(k1[..], w), c, v0 + nv, Pow(2, total));
  }

  lemma RegularCarryIs(k: nat, n: nat, v0: nat, numBits: nat, total: nat)
    ensures RegularCarry(k, n, v0, numBits, total)
       <==> k + n >= Pow(2, total) || (numBits < total && Bit(v0, numBits) == 1)
  {
    hide Pow, Bit;
  }

  // --------------------------------------- which scalars the ladder cannot do

  /** Prefix j of s, as a range for s. */
  lemma PrefixRange(s: nat, j: nat, p: nat)
    requires p == Pow(2, j)
    ensures p > 0 && Prefix(s, j) * p <= s < Prefix(s, j) * p + p
  {
    var q := s / p;
    assert s == q * p + s % p;
  }

  lemma SmallPrefix(s: nat, j: nat)
    requires j >= 3
    ensures 8 * Prefix(s, j) <= s
  {
    PrefixRange(s, j, Pow(2, j));
    PowMonotone(2, 3, j);
    assert Pow(2, 3) == 8;
    hide Prefix, Pow;
    MulMono(8, Pow(2, j), Prefix(s, j));
    assert Prefix(s, j) * Pow(2, j) == Pow(2, j) * Prefix(s, j);
  }

  lemma PrefixOneTwo(s: nat)
    ensures Prefix(s, 1) == s / 2 && Prefix(s, 2) == s / 4
  {
    assert Pow(2, 1) == 2 && Pow(2, 2) == 4;
  }

  /** n divides an odd number up to 3n just when it is n or 3n. */
  lemma OddMultiple(v: nat, n: nat)
    requires n > 0 && 0 < v <= 3 * n && v % 2 == 1
    ensures v % n == 0 <==> v == n || v == 3 * n
  {
    ModMultiple(1, n);
    ModMultiple(3, n);
    if v % n == 0 {
      SmallMultiple(v, n, v / n);
    }
  }

  lemma SmallMultiple(v: nat, n: nat, q: nat)
    requires n > 0 && 0 < v <= 3 * n && v % 2 == 1 && v == q * n
    ensures v == n || v == 3 * n
  {
    if q >= 4 {
      MulMono(4, q, n);
    }
    assert q == 0 ==> v == 0;
    assert q == 2 ==> v == 2 * n;
  }

  lemma MeetingCases(k: nat, n: nat, p: nat, s: nat, m: nat, j: nat)
    requires 0 < k < n && n > 8 && n + 1 < p < 2 * n && p % 2 == 0 && j >= 1
    requires s == if k + n >= p then k + n else k + 2 * n
    requires (j == 1 ==> m == s / 2) && (j == 2 ==> m == s / 4) && (j >= 3 ==> 8 * m <= s)
    ensures 2 * m + 1 <= 3 * n
    ensures (2 * m + 1 == n || 2 * m + 1 == 3 * n) && n % 2 == 1
        <==> j == 2 && (k == 1 || k == n - 2 || k == n - 1) && n % 2 == 1
  {
  }

  /** The prefixes m of a regular scalar with n dividing 2m + 1: only (n - 1) / 2, and only at bit 2. */
  lemma MeetingPrefix(k: nat, n: nat, numBits: nat, j: nat)
    requires 0 < k < n && n % 2 == 1 && n > 8 && ExactBits(n, numBits) && 1 <= j <= numBits
    requires n + 1 < Pow(2, numBits) < 2 * n
    ensures (2 * Prefix(Regular(k, n, numBits), j) + 1) % n == 0
       <==> j == 2 && (k == 1 || k == n - 2 || k == n - 1)
  {
    hide *;
    var s, p := Regular(k, n, numBits), Pow(2, numBits);
    var m := Prefix(s, j);
    Pow2Step(numBits - 1);
    PrefixOneTwo(s);
    if j >= 3 {
      SmallPrefix(s, j);
    }
    RegularIs(k, n, numBits);
    MeetingCases(k, n, p, s, m, j);
    OddMultiple(2 * m + 1, n);
  }

  /** The ladder meets its own points exactly for k = 1, n - 2 and n - 1. */
  lemma NeverMeetsRegular(k: nat, n: nat, numBits: nat)
    requires 0 < k < n && n % 2 == 1 && n > 8 && ExactBits(n, numBits) && numBits >= 2
    requires n + 1 < Pow(2, numBits) < 2 * n
    ensures NeverMeets(Regular(k, n, numBits), numBits, 0, n) <==> k != 1 && k != n - 2 && k != n - 1
  {
    var s := Regular(k, n, numBits);
    hide Pow, Regular, ExactBits, Prefix;
    forall j | 0 < j <= numBits
      ensures (2 * Prefix(s, j) + 1) % n == 0 <==> j == 2 && (k == 1 || k == n - 2 || k == n - 1)
    {
      MeetingPrefix(k, n, numBits, j);
    }
    assert NeverMeets(s, numBits, 0, n) ==> (2 * Prefix(s, 2) + 1) % n != 0;
  }

  // -------------------------------------------------------------- secp256r1

  /**
   The mathematical facts about secp256r1 that the code relies on: p is a prime, point addition is associative
   on the curve, and n is a prime. That n * G is the point at infinity follows.
   */
  ghost predicate CurveFacts()
  {
    IsGroup(Secp()) && IsPrime(OrderN())
  }

  lemma CurveFactsAre()
    requires CurveFacts()
    ensures IsGroup(Secp()) && HasOrder(Secp(), Generator(), OrderN()) && IsField(Secp()) && IsPrime(PrimeP())
    ensures IsPrime(OrderN()) && OnCurve(Secp(), Generator())
  {
    FactsGiven();
    hide *;
    GroupIsField(Secp());
    FieldFacts(Secp());
    SecpIs();
    GeneratorIs();
    OrderAbove8();
    OrderChain.GeneratorOnCurve();
    OrderChain.OrderKillsG();
    OrderIntro(Secp(), Generator(), OrderN());
  }

  lemma FactsGiven()
    ensures CurveFacts() <==> IsGroup(Secp()) && IsPrime(OrderN())
  {
    hide IsGroup, Secp, IsPrime, OrderN;
  }

  lemma OrderSize()
    ensures ExactBits(OrderN(), 256) && OrderN() + 1 < Pow(2, 256) < 2 * OrderN() && OrderN() % 2 == 1 && OrderN() > 8
    ensures OrderN() < PrimeP() < Pow(2, 256)
  {
    CurveConstants();
    TwoTo256Is();
    PrimeBelow();
    assert Pow(2, 256) == 2 * Pow(2, 255) by { hide *; Pow2Step(255); }
    OrderAbove8();
    hide Pow, OrderN, PrimeP, TwoTo256;
  }

  lemma OrderAbove8()
    ensures OrderN() > 8
  {
  }

  lemma TwoTo256Is()
    ensures TwoTo256() == Pow(2, 256)
  {
    hide *;
    Powers();
  }

  /** The point EccPoint_mult computes for G and a private key or nonce k. */
  function BaseMult(k: nat): (r: (nat, nat))
  {
    LadderResult(GX(), GY(), 1, Regular(k, OrderN(), 256), 256, PrimeP())
  }

  /** Scalars for which the ladder on a regularised scalar degenerates to (0, 0). */
  predicate Degenerate(k: nat)
  {
    k == 1 || k == OrderN() - 2 || k == OrderN() - 1
  }

  /** k * G, except that k = 1, n - 2 and n - 1 give (0, 0); and k * G itself is never (0, 0). */
  lemma BaseMultTheorem(k: nat)
    requires CurveFacts() && 0 < k < OrderN()
    ensures Degenerate(k) ==> BaseMult(k) == (0, 0)
    ensures !Degenerate(k) ==> Affine(BaseMult(k).0, BaseMult(k).1) == Times(Secp(), k, Generator())
    ensures !Degenerate(k) ==> BaseMult(k) != (0, 0)
  {
    hide *;
    CurveFactsAre();
    OrderSize();
    GeneratorIs();
    RegularMult(Secp(), Generator(), OrderN(), k, 256);
    DegenerateIs(k);
    BaseMultIs(k);
    OriginOffCurve();
  }

  /** The ladder over the regularised scalar, for any curve and any order of that many bits. */
  lemma RegularMult(e: Elliptic, P: Point, n: nat, k: nat, numBits: nat)
    requires IsGroup(e) && HasOrder(e, P, n) && P.Affine? && P.x > 0 && 0 < k < n && n % 2 == 1 && n > 8
    requires ExactBits(n, numBits) && numBits >= 2 && n + 1 < Pow(2, numBits) < 2 * n
    ensures var f := LadderResult(P.x, P.y, 1, Regular(k, n, numBits), numBits, e.p);
      if k == 1 || k == n - 2 || k == n - 1 then f == (0, 0)
      else Affine(f.0, f.1) == Times(e, k, P) && OnCurve(e, Affine(f.0, f.1))
  {
    hide *;
    var s := Regular(k, n, numBits);
    GroupIsField(e);
    OrderKills(e, P, n);
    RegularScalar(k, n, numBits);
    NeverMeetsRegular(k, n, numBits);
    LadderTheorem(e, P, n, 1, s, numBits);
    TimesMod(e, s, P, n);
    TimesOnCurve(e, k, P);
  }

  lemma DegenerateIs(k: nat)
    ensures Degenerate(k) <==> k == 1 || k == OrderN() - 2 || k == OrderN() - 1
  {
  }

  lemma BaseMultIs(k: nat)
    ensures BaseMult(k) == LadderResult(GX(), GY(), 1, Regular(k, OrderN(), 256), 256, PrimeP())
  {
    hide LadderResult, GX, GY, Regular, PrimeP, OrderN;
  }

  lemma OriginOffCurve()
    ensures !OnCurve(Secp(), Affine(0, 0))
  {
    hide *;
    SecpIs();
    CurveConstants();
    OriginOff(Secp());
  }

  lemma OriginOff(e: Elliptic)
    requires 0 < e.b < e.p
    ensures !OnCurve(e, Affine(0, 0))
  {
    ModSmall(e.b, e.p);
    ModSmall(0, e.p);
  }

  lemma OrderConstant(w: nat)
    requires WordSize(w)
    ensures |OrderWords(w)| == NumWords(w) && IsWords(OrderWords(w), w) && Val(OrderWords(w), w) == OrderN()
    ensures OrderWords(w)[NumWords(w) - 1] > 0
    ensures w >= 1 && w * NumWords(w) == 256
  {
    SizeFacts(w);
    OrderWordsValue(w);
    assert w * NumWords(w) == 256;
    hide Val, IsWords;
  }

  lemma GeneratorConstant(w: nat)
    requires WordSize(w)
    ensures Fe(GXWords(w), w) && Fe(GYWords(w), w)
    ensures Val(GXWords(w), w) == GX() && Val(GYWords(w), w) == GY()
  {
    SizeFacts(w);
    GXWordsValue(w);
    GYWordsValue(w);
    CurveConstants();
    hide Val, IsWords;
  }

  // ------------------------------------------------------------ public keys

  /** The point G of the curve, as freshly loaded words. */
  method LoadGenerator(w: nat) returns (gx: array<nat>, gy: array<nat>)
    requires WordSize(w)
    ensures fresh(gx) && fresh(gy) && gx != gy && Fe(gx[..], w) && Fe(gy[..], w)
    ensures Val(gx[..], w) == GX() && Val(gy[..], w) == GY()
  {
    hide *;
    GeneratorConstant(w);
    gx := Constant(GXWords(w));
    gy := Constant(GYWords(w));
  }

  /** regularize_k followed by EccPoint_mult(result, G, p2[!carry], 0, num_n_bits + 1). */
  method MultiplyGenerator(resultX: array<nat>, resultY: array<nat>, k: array<nat>, w: nat)
    requires WordSize(w) && IsPrime(PrimeP()) && IsWords(k[..], w) && Val(k[..], w) < OrderN()
    requires resultX.Length == resultY.Length == k.Length == NumWords(w) && resultX != resultY
    modifies resultX, resultY
    ensures Fe(resultX[..], w) && Fe(resultY[..], w)
    ensures (Val(resultX[..], w), Val(resultY[..], w)) == old(BaseMult(Val(k[..], w)))
  {
    hide *;
    OrderConstant(w);
    OrderSize();
    ghost var kv := Val(k[..], w);
    var n := Constant(OrderWords(w));
    var tmp1, tmp2 := new nat[NumWords(w)], new nat[NumWords(w)];
    var carry := RegularizeK(k, tmp1, tmp2, n, 256, w);
    RegularSelected(kv, OrderN(), Val(tmp1[..], w), Val(tmp2[..], w), 256, 256);
    BaseMultIs(kv);
    var gx, gy := LoadGenerator(w);
    EccPointMult(resultX, resultY, gx, gy, if carry then tmp1 else tmp2, null, 257, w);
  }

  /** EccPoint_compute_public_key */
  method EccPointComputePublicKey(resultX: array<nat>, resultY: array<nat>, private: array<nat>, w: nat)
    returns (ok: bool)
    requires WordSize(w) && IsPrime(PrimeP()) && IsWords(private[..], w) && Val(private[..], w) < OrderN()
    requires resultX.Length == resultY.Length == private.Length == NumWords(w) && resultX != resultY
    modifies resultX, resultY
    ensures Fe(resultX[..], w) && Fe(resultY[..], w)
    ensures (Val(resultX[..], w), Val(resultY[..], w)) == old(BaseMult(Val(private[..], w)))
    ensures ok <==> old(BaseMult(Val(private[..], w))) != (0, 0)
  {
    hide *;
    MultiplyGenerator(resultX, resultY, private, w);
    var zeroX := VliIsZero(resultX, w);
    var zeroY := VliIsZero(resultY, w);
    ok := !(zeroX && zeroY);
  }

  /** ecdsa_vli_bytesToNative of 32 bytes, into exactly enough words. */
  method LoadBytes(native: array<nat>, bytes: array<nat>, lo: nat, w: nat)
    requires WordSize(w) && native.Length == NumWords(w) && bytes != native
    requires lo + 32 <= bytes.Length && IsBytes(bytes[lo..lo + 32])
    modifies native
    ensures IsWords(native[..], w) && Val(native[..], w) == BigEndian(bytes[lo..lo + 32])
  {
    hide *;
    WordBytes(w);
    BytesToNative(native, bytes, lo, 32, w / 8);
    assert native[..NumWords(w)] == native[..];
  }

  lemma WordBytes(w: nat)
    requires WordSize(w)
    ensures w / 8 >= 1 && 8 * (w / 8) == w && WordsFor(32, w / 8) == NumWords(w) && (w / 8) * NumWords(w) == 32
  {
    SizeFacts(w);
  }

  /** ecdsa_vli_nativeToBytes of all words, into 32 bytes. */
  method StoreBytes(bytes: array<nat>, lo: nat, native: array<nat>, w: nat)
    requires WordSize(w) && native.Length == NumWords(w) && IsWords(native[..], w)
    requires lo + 32 <= bytes.Length && bytes != native
    modifies bytes
    ensures IsBytes(bytes[lo..lo + 32]) && BigEndian(bytes[lo..lo + 32]) == Val(native[..], w)
    ensures bytes[..lo] == old(bytes[..lo]) && bytes[lo + 32..] == old(bytes[lo + 32..])
  {
    hide *;
    WordBytes(w);
    SizeFacts(w);
    ValBound(native[..], w);
    BasePow(w, NumWords(w));
    assert w * NumWords(w) == NumWords(w) * w;
    NativeToBytes(bytes, lo, 32, native, w / 8);
    ModSmall(Val(native[..], w), Pow(2, 256));
  }

  /** The point a 64-byte public key stands for: both coordinates, big-endian. */
  function PublicKey(bytes: seq<nat>): (r: Point)
    requires |bytes| == 64
  {
    Affine(BigEndian(bytes[..32]), BigEndian(bytes[32..]))
  }

  lemma PublicKeyJoined(bytes: seq<nat>, x: seq<nat>, y: seq<nat>)
    requires |x| == 32 && |y| == 32 && bytes == x + y && IsBytes(x) && IsBytes(y)
    ensures IsBytes(bytes) && PublicKey(bytes) == Affine(BigEndian(x), BigEndian(y))
  {
    assert bytes[..32] == x && bytes[32..] == y;
    hide BigEndian, Base;
  }

  /** The private keys ecdsa_compute_public_key turns into a public key. */
  predicate GoodPrivate(d: nat)
  {
    0 < d < OrderN() && !Degenerate(d)
  }

  lemma GoodPrivateIs(d: nat)
    ensures GoodPrivate(d) <==> 0 < d < OrderN() && !Degenerate(d)
  {
    hide OrderN, Degenerate;
  }

  /**
   ecdsa_compute_public_key: d * G for a private key d in [1, n-1], failing outside that range and for
   the three scalars 1, n - 2 and n - 1 that the ladder cannot do.
   */
  method EcdsaComputePublicKey(privateKey: array<nat>, publicKey: array<nat>, w: nat) returns (ok: bool)
    requires WordSize(w) && CurveFacts()
    requires privateKey.Length >= 32 && publicKey.Length >= 64 && IsBytes(privateKey[0..32])
    modifies publicKey
    ensures ok <==> GoodPrivate(old(BigEndian(privateKey[0..32])))
    ensures !ok ==> publicKey[..] == old(publicKey[..])
    ensures ok ==> IsBytes(publicKey[0..64])
    ensures ok ==> PublicKey(publicKey[0..64]) == Times(Secp(), old(BigEndian(privateKey[0..32])), Generator())
    ensures publicKey[64..] == old(publicKey[64..])
  {
    hide *;
    CurveFactsAre();
    ghost var d := BigEndian(privateKey[0..32]);
    GoodPrivateIs(d);
    OrderConstant(w);
    OrderSize();
    GeneratorIs();
    var private := new nat[NumWords(w)];
    LoadBytes(private, privateKey, 0, w);
    var zero := VliIsZero(private, w);
    if zero {
      return false;
    }
    var n := Constant(OrderWords(w));
    var c := VliCmpBySub(n, private, w);
    if c != 1 {
      return false;
    }
    BaseMultTheorem(d);
    var publicX, publicY := new nat[NumWords(w)], new nat[NumWords(w)];
    ok := EccPointComputePublicKey(publicX, publicY, private, w);
    if !ok {
      return;
    }
    FeFacts(publicX[..], w);
    FeFacts(publicY[..], w);
    StoreBytes(publicKey, 0, publicX, w);
    ghost var first := publicKey[0..32];
    StoreBytes(publicKey, 32, publicY, w);
    PublicKeyJoined(publicKey[0..64], first, publicKey[32..64]);
  }
}
