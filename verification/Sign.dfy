/**
 ecdsa_sign_with_k: the signing equation, for every message digest, private key string and blinding.
 */
module Sign {
  import opened Arith
  import opened Words
  import opened Bytes
  import opened Mult
  import opened Modular
  import opened ModInv
  import opened P256
  import opened Field
  import opened Curve
  import opened Points
  import opened Ladder
  import opened Keys
  import opened Digest

  // -------------------------------------------------- arithmetic modulo n

  /** ecdsa_vli_modMult with curve_n; the operands need not be reduced. */
  method OrderMult(result: array<nat>, left: array<nat>, right: array<nat>, w: nat)
    requires WordSize(w) && result.Length == left.Length == right.Length == NumWords(w)
    requires IsWords(left[..], w) && IsWords(right[..], w)
    modifies result
    ensures IsWords(result[..], w) && Val(result[..], w) < OrderN()
    ensures Val(result[..], w) == FMul(old(Val(left[..], w)), old(Val(right[..], w)), OrderN())
  {
    hide *;
    OrderConstant(w);
    SizeFacts(w);
    var n := Constant(OrderWords(w));
    FieldOpsAre(Val(left[..], w), Val(right[..], w), OrderN());
    ModRange(Val(left[..], w) * Val(right[..], w), OrderN());
    VliModMult(result, left, right, n, w);
  }

  lemma ModRange(a: int, n: nat)
    requires n > 0
    ensures 0 <= a % n < n
  {
  }

  lemma OrderOdd()
    ensures OrderN() % 2 == 1 && OrderN() > 2
  {
    hide OrderN;
  }

  /** ecdsa_vli_modInv with curve_n, for a prime order and an input in [1, n-1]. */
  method OrderInv(result: array<nat>, input: array<nat>, w: nat)
    requires WordSize(w) && result.Length == input.Length == NumWords(w) && IsPrime(OrderN())
    requires IsWords(input[..], w) && 0 < Val(input[..], w) < OrderN()
    modifies result
    ensures IsWords(result[..], w) && Val(result[..], w) < OrderN()
    ensures Val(result[..], w) == FInv(old(Val(input[..], w)), OrderN())
  {
    hide *;
    OrderConstant(w);
    OrderOdd();
    SizeFacts(w);
    var n := Constant(OrderWords(w));
    ghost var x := Val(input[..], w);
    ghost var g := VliModInv(result, input, n, w);
    InverseFromGcd(Val(result[..], w), x, g, OrderN());
  }

  // -------------------------------------------------------- the equation

  /** The random number premultiplied to the nonce before its inversion. */
  datatype Blinding = NoRng | RngFailed | Random(words: seq<nat>)

  /** ecdsa_generate_random_int returns a number in [1, n-1]. */
  ghost predicate ValidBlinding(b: Blinding, w: nat)
    requires WordSize(w)
  {
    b.Random? ==> |b.words| == NumWords(w) && IsWords(b.words, w) && 0 < Val(b.words, w) < OrderN()
  }

  /** The s of a signature: the solution of s * k = e + r * d modulo n. */
  ghost predicate Signs(s: nat, k: nat, e: nat, r: nat, d: nat, n: nat)
    requires n > 0
  {
    s < n && (s * k) % n == (e + r * d) % n
  }

  /** The blinding cannot matter: a nonce has only one solution. */
  lemma SignsUnique(s: nat, s': nat, k: nat, e: nat, r: nat, d: nat, n: nat)
    requires IsPrime(n) && 0 < k < n && Signs(s, k, e, r, d, n) && Signs(s', k, e, r, d, n)
    ensures s == s'
  {
    ModSmall(k, n);
    ModSmall(s, n);
    ModSmall(s', n);
    assert s * k == k * s && s' * k == k * s';
    hide IsPrime;
    Cancel(k, s, s', n);
  }

  /** Inverting t * k and multiplying by t again inverts k. */
  lemma UnblindedInverse(k: nat, t: nat, n: nat)
    requires IsPrime(n) && 0 < k < n && 0 < t < n
    ensures n > 1 && 0 < FMul(k, t, n) < n
    ensures (FMul(FInv(FMul(k, t, n), n), t, n) * k) % n == 1
  {
    PrimePositive(n);
    hide *;
    var kt := FMul(k, t, n);
    FieldOpsAre(k, t, n);
    ModSmall(k, n);
    ModSmall(t, n);
    ModRange(k * t, n);
    BothUnits(k, t, n);
    ModIdem(k * t, n);
    InverseLaw(kt, n);
    var v := FInv(kt, n);
    FieldOpsAre(v, t, n);
    Unblind(k, t, kt, v, n);
  }

  lemma BothUnits(k: nat, t: nat, n: nat)
    requires IsPrime(n) && k % n != 0 && t % n != 0
    ensures (k * t) % n != 0
  {
    if (k * t) % n == 0 {
      PrimeDividesProduct(k, t, n);
    }
  }

  lemma Unblind(k: nat, t: nat, kt: nat, v: nat, n: nat)
    requires n > 1 && kt == (k * t) % n && (kt * v) % n == 1
    ensures (((v * t) % n) * k) % n == 1
  {
    ModIdem(k * t, n);
    ModMulCong(kt, k * t, v, v, n);
    ModIdem(v * t, n);
    ModMulCong((v * t) % n, v * t, k, k, n);
    assert (k * t) * v == (v * t) * k by { MulAssoc(k, t, v); MulAssoc(v, t, k); }
  }

  /** The reductions, in the order the code makes them, leave a solution of the signing equation. */
  lemma SigningSteps(e: nat, r: nat, d: nat, k: nat, kinv: nat, rd: nat, sum: nat, s: nat, n: nat)
    requires n > 1 && (kinv * k) % n == 1 && rd == (d * r) % n && s == (sum * kinv) % n
    requires sum == if e + rd < n then e + rd else e + rd - n
    ensures Signs(s, k, e, r, d, n)
  {
    assert sum % n == (e + r * d) % n by { hide *; ReducedSum(e, r, d, rd, sum, n); }
    hide Signs;
    ModIdem(sum * kinv, n);
    ModMulCong(s, sum * kinv, k, k, n);
    ModSmall(1, n);
    ModMulCong(kinv * k, 1, sum, sum, n);
    assert (sum * kinv) * k == (kinv * k) * sum by { MulAssoc(sum, kinv, k); }
    SignsIntro(s, k, e, r, d, n, sum);
  }

  lemma SignsIntro(s: nat, k: nat, e: nat, r: nat, d: nat, n: nat, sum: nat)
    requires n > 0 && s < n && (s * k) % n == (1 * sum) % n && sum % n == (e + r * d) % n
    ensures Signs(s, k, e, r, d, n)
  {
    assert 1 * sum == sum;
  }

  lemma ReducedSum(e: nat, r: nat, d: nat, rd: nat, sum: nat, n: nat)
    requires n > 1 && rd == (d * r) % n && sum == if e + rd < n then e + rd else e + rd - n
    ensures sum % n == (e + r * d) % n
  {
    ModIdem(d * r, n);
    ModAddCong(rd, d * r, e, e, n);
    assert d * r == r * d;
    hide *;
    ModAddMultiple(e + rd, -1, n);
    assert rd + e == e + rd && d * r + e == e + d * r;
  }

  /** The nonce inverted modulo n, by way of the blinded nonce; tmp is the blinding factor. */
  method InvertNonce(k: array<nat>, tmp: array<nat>, w: nat)
    requires WordSize(w) && IsPrime(OrderN()) && k.Length == tmp.Length == NumWords(w) && k != tmp
    requires IsWords(k[..], w) && IsWords(tmp[..], w)
    requires 0 < Val(k[..], w) < OrderN() && 0 < Val(tmp[..], w) < OrderN()
    modifies k
    ensures IsWords(k[..], w) && Val(k[..], w) < OrderN()
    ensures (Val(k[..], w) * old(Val(k[..], w))) % OrderN() == 1
  {
    hide *;
    UnblindedInverse(Val(k[..], w), Val(tmp[..], w), OrderN());
    OrderMult(k, k, tmp, w);
    OrderInv(k, k, w);   // k holds the inverse of the blinded nonce
    OrderMult(k, k, tmp, w);
  }

  /** The blinding factor: 1 without a generator, else random; fails when the generator fails. */
  method LoadBlinding(tmp: array<nat>, blinding: Blinding, w: nat) returns (ok: bool)
    requires WordSize(w) && tmp.Length == NumWords(w) && ValidBlinding(blinding, w) && IsWords(tmp[..], w)
    modifies tmp
    ensures ok <==> !blinding.RngFailed?
    ensures IsWords(tmp[..], w)
    ensures ok ==> 0 < Val(tmp[..], w) < OrderN()
  {
    hide *;
    SizeFacts(w);
    OrderOdd();
    if blinding.NoRng? {
      VliClear(tmp, 0, tmp.Length);
      tmp[0] := 1;
      BaseAtLeast2(w);
      SmallValue(tmp[..], 1, w);
      return true;
    }
    if blinding.RngFailed? {
      return false;
    }
    ValidBlindingIs(blinding, w);
    var random := Constant(blinding.words);
    Copy(tmp, random);
    ok := true;
  }

  lemma ValidBlindingIs(b: Blinding, w: nat)
    requires WordSize(w) && ValidBlinding(b, w) && b.Random?
    ensures |b.words| == NumWords(w) && IsWords(b.words, w) && 0 < Val(b.words, w) < OrderN()
  {
    hide IsWords, Val, OrderN, NumWords, WordSize;
  }

  // ------------------------------------------------------------- signing

  /** The s of the signature, from the inverted nonce; tmp is scratch. */
  method Respond(s: array<nat>, tmp: array<nat>, p: array<nat>, kinv: array<nat>, privateKey: array<nat>,
                 messageHash: array<nat>, hashSize: nat, w: nat, ghost k: nat)
    requires WordSize(w) && s.Length == tmp.Length == p.Length == kinv.Length == NumWords(w)
    requires s != tmp && s != p && s != kinv && tmp != p && tmp != kinv && tmp != messageHash && tmp != privateKey
    requires s != messageHash && s != privateKey
    requires privateKey.Length >= 32 && IsBytes(privateKey[0..32])
    requires hashSize <= messageHash.Length && IsBytes(messageHash[..hashSize])
    requires IsWords(p[..], w) && IsWords(kinv[..], w)
    requires (Val(kinv[..], w) * k) % OrderN() == 1
    modifies s, tmp
    ensures IsWords(s[..], w)
    ensures Signs(Val(s[..], w), k, DigestInt(messageHash[..hashSize], OrderN(), 256), Val(p[..], w),
                  BigEndian(privateKey[0..32]), OrderN())
  {
    hide *;
    OrderConstant(w);
    OrderSize();
    OrderOdd();
    WordBytes(w);
    ghost var d, r, e := BigEndian(privateKey[0..32]), Val(p[..], w), DigestInt(messageHash[..hashSize], OrderN(), 256);
    var n := Constant(OrderWords(w));
    LoadBytes(tmp, privateKey, 0, w);
    Copy(s, p);
    OrderMult(s, tmp, s, w);   // s holds the rd of SigningSteps
    ghost var rd := Val(s[..], w);
    FieldOpsAre(d, r, OrderN());
    Bits2Int(tmp, messageHash, hashSize, n, 256, w / 8);
    DigestLaw(messageHash[..hashSize], OrderN(), 256);
    BasePow(w, NumWords(w));
    VliModAdd(s, tmp, s, n, w);
    ghost var sum := Val(s[..], w);
    OrderMult(s, s, kinv, w);
    FieldOpsAre(sum, Val(kinv[..], w), OrderN());
    SigningSteps(e, r, d, k, Val(kinv[..], w), rd, sum, Val(s[..], w), OrderN());
  }

  /** Whether ecdsa_sign_with_k produces a signature. */
  predicate CanSign(k: nat, blinding: Blinding)
  {
    0 < k < OrderN() && BaseMult(k).0 != 0 && !blinding.RngFailed?
  }

  lemma CanSignIs(k: nat, blinding: Blinding)
    ensures CanSign(k, blinding) <==> 0 < k < OrderN() && BaseMult(k).0 != 0 && !blinding.RngFailed?
  {
    hide BaseMult, OrderN;
  }

  /** Every nonce in range signs but 1, n - 2, n - 1 and those with x(k * G) = 0. */
  lemma NoncesThatSign(k: nat, blinding: Blinding)
    requires CurveFacts()
    ensures Secp().p > 3
    ensures CanSign(k, blinding)
       <==> !blinding.RngFailed? && 0 < k < OrderN() && k != 1 && k != OrderN() - 2 && k != OrderN() - 1
            && Times(Secp(), k, Generator()).Affine? && Times(Secp(), k, Generator()).x != 0
  {
    hide *;
    GeneratorIs();
    CanSignIs(k, blinding);
    if 0 < k < OrderN() {
      BaseMultTheorem(k);
      DegenerateIs(k);
    }
  }

  lemma SignsBelow(s: nat, k: nat, e: nat, r: nat, d: nat, n: nat)
    requires n > 0 && Signs(s, k, e, r, d, n)
    ensures s < n
  {
  }

  lemma BitsFit(v: nat, bits: nat)
    requires v < Pow(2, 256)
    requires v == 0 ==> bits == 0
    requires v > 0 ==> bits >= 1 && Pow(2, bits - 1) <= v
    ensures bits <= 256
  {
    if bits > 256 {
      PowMonotone(2, 256, bits - 1);
    }
  }

  /** r and s as bytes; the size test on s never fails. */
  method WriteSignature(signature: array<nat>, r: array<nat>, s: array<nat>, w: nat)
    requires WordSize(w) && signature.Length == 64 && signature != r && signature != s
    requires r.Length == s.Length == NumWords(w) && IsWords(r[..], w) && IsWords(s[..], w)
    requires Val(s[..], w) < OrderN()
    modifies signature
    ensures IsBytes(signature[0..32]) && BigEndian(signature[0..32]) == Val(r[..], w)
    ensures IsBytes(signature[32..64]) && BigEndian(signature[32..64]) == Val(s[..], w)
  {
    hide *;
    OrderSize();
    SizeFacts(w);
    var bits := VliNumBits(s, w);
    BitsFit(Val(s[..], w), bits);
    if bits > 32 * 8 {
      assert false;
    }
    StoreBytes(signature, 0, r, w);
    ghost var first := signature[0..32];
    StoreBytes(signature, 32, s, w);
    assert signature[0..32] == signature[..32] == first;
  }

  /**
   ecdsa_sign_with_k. The signature is r || s with r the x of k * G, not reduced modulo n, and s the
   solution of the signing equation; k itself is overwritten.
   */
  method SignWithK(privateKey: array<nat>, messageHash: array<nat>, hashSize: nat, k: array<nat>,
                   blinding: Blinding, signature: array<nat>, w: nat) returns (ok: bool)
    requires WordSize(w) && IsPrime(PrimeP()) && IsPrime(OrderN()) && ValidBlinding(blinding, w)
    requires k.Length == NumWords(w) && IsWords(k[..], w) && signature.Length == 64
    requires privateKey.Length >= 32 && IsBytes(privateKey[0..32])
    requires hashSize <= messageHash.Length && IsBytes(messageHash[..hashSize])
    requires k != privateKey && k != messageHash && k != signature
    requires signature != privateKey && signature != messageHash
    modifies k, signature
    ensures ok <==> CanSign(old(Val(k[..], w)), blinding)
    ensures ok ==> IsBytes(signature[0..32]) && BigEndian(signature[0..32]) == BaseMult(old(Val(k[..], w))).0
    ensures ok ==> IsBytes(signature[32..64])
    ensures ok ==> Signs(BigEndian(signature[32..64]), old(Val(k[..], w)),
                         DigestInt(messageHash[..hashSize], OrderN(), 256), BigEndian(signature[0..32]),
                         BigEndian(privateKey[0..32]), OrderN())
    ensures !ok ==> signature[..] == old(signature[..])
  {
    hide *;
    OrderConstant(w);
    OrderSize();
    OrderOdd();
    ghost var kv := Val(k[..], w);
    CanSignIs(kv, blinding);
    var zero := VliIsZero(k, w);
    if zero {
      return false;
    }
    var n := Constant(OrderWords(w));
    var c := VliCmpBySub(n, k, w);
    if c != 1 {
      return false;
    }
    var px, py := new nat[NumWords(w)], new nat[NumWords(w)];
    MultiplyGenerator(px, py, k, w);
    PairFirst(Val(px[..], w), Val(py[..], w), BaseMult(kv));
    zero := VliIsZero(px, w);
    if zero {
      return false;
    }
    FeFacts(px[..], w);
    var tmp, s := new nat[NumWords(w)], new nat[NumWords(w)];
    VliClear(tmp, 0, tmp.Length);
    ZeroVal(tmp[..], w);
    var loaded := LoadBlinding(tmp, blinding, w);
    if !loaded {
      return false;
    }
    InvertNonce(k, tmp, w);
    Respond(s, tmp, px, k, privateKey, messageHash, hashSize, w, kv);
    SignsBelow(Val(s[..], w), kv, DigestInt(messageHash[..hashSize], OrderN(), 256), Val(px[..], w),
               BigEndian(privateKey[0..32]), OrderN());
    WriteSignature(signature, px, s, w);
    ok := true;
  }

  lemma PairFirst(x: nat, y: nat, p: (nat, nat))
    requires (x, y) == p
    ensures x == p.0 && y == p.1
  {
  }
}
