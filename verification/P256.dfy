/**
 vli_mmod_fast_secp256r1: reduction of a 512-bit product modulo the secp256r1 prime by
 folding (FIPS 186-4, section D.2.3), for 32-bit and for 64-bit words.
 */
module P256 {
  import opened Arith
  import opened Words
  import opened Modular

  /** The secp256r1 field prime 2^256 - 2^224 + 2^192 + 2^96 - 1. */
  function PrimeP(): (p: nat)
    ensures p >= 5 && p % 4 == 3
  {
    0xffffffff00000001000000000000000000000000ffffffffffffffffffffffff
  }

  /** 2^256, the weight of the carry. */
  function TwoTo256(): (m: nat)
    ensures m >= 1
  {
    0x10000000000000000000000000000000000000000000000000000000000000000
  }

  /** curve_secp256r1.p for words of w bits. */
  function PrimeWords(w: nat): (r: seq<nat>)
  {
    if w == 32 then [0xffffffff, 0xffffffff, 0xffffffff, 0, 0, 0, 1, 0xffffffff]
    else [0xffffffffffffffff, 0x00000000ffffffff, 0, 0xffffffff00000001]
  }

  // ---------------------------------------------------------- literal values

  lemma SquaredPower(e: nat, x: nat)
    requires Pow(2, e) == x
    ensures Pow(2, 2 * e) == x * x
  {
    PowSquare(2, e);
  }

  lemma Powers()
    ensures Pow(2, 32) == 0x1_0000_0000 && Pow(2, 64) == 0x1_0000_0000_0000_0000
    ensures Pow(2, 128) == 0x100000000000000000000000000000000 && Pow(2, 256) == TwoTo256()
  {
    assert Pow(2, 8) == 256;
    hide Pow;
    SquaredPower(8, 256);
    SquaredPower(16, 0x10000);
    SquaredPower(32, 0x1_0000_0000);
    SquaredPower(64, 0x1_0000_0000_0000_0000);
    SquaredPower(128, 0x100000000000000000000000000000000);
  }

  lemma Bases()
    ensures Base(32) == 0x1_0000_0000 && Base(64) == 0x1_0000_0000_0000_0000
    ensures Pow(Base(32), 8) == TwoTo256() && Pow(Base(64), 4) == TwoTo256()
  {
    Powers();
    hide Pow, TwoTo256;
    BasePow(32, 8);
    BasePow(64, 4);
  }

  /** Eight 32-bit digits at their weights. */
  function Weigh(a0: nat, a1: nat, a2: nat, a3: nat, a4: nat, a5: nat, a6: nat, a7: nat): (r: nat)
  {
    a0 + 0x100000000 * a1 + 0x10000000000000000 * a2 + 0x1000000000000000000000000 * a3
    + 0x100000000000000000000000000000000 * a4 + 0x10000000000000000000000000000000000000000 * a5
    + 0x1000000000000000000000000000000000000000000000000 * a6
    + 0x100000000000000000000000000000000000000000000000000000000 * a7
  }

  /** The value of eight 32-bit digits. */
  function Digits8(s: seq<nat>): (r: nat)
    requires |s| == 8
  {
    Weigh(s[0], s[1], s[2], s[3], s[4], s[5], s[6], s[7])
  }

  lemma Horner8(s: seq<nat>, v: nat, v1: nat, v2: nat, v3: nat, v4: nat, v5: nat, v6: nat, v7: nat)
    requires |s| == 8
    requires v == s[0] + 0x1_0000_0000 * v1 && v1 == s[1] + 0x1_0000_0000 * v2 && v2 == s[2] + 0x1_0000_0000 * v3
    requires v3 == s[3] + 0x1_0000_0000 * v4 && v4 == s[4] + 0x1_0000_0000 * v5 && v5 == s[5] + 0x1_0000_0000 * v6
    requires v6 == s[6] + 0x1_0000_0000 * v7 && v7 == s[7]
    ensures v == Digits8(s)
  {
  }

  lemma ValDigits8(s: seq<nat>)
    requires |s| == 8
    ensures Val(s, 32) == Digits8(s)
  {
    Bases();
    hide *;
    ValEnd(s, 32);
    ValCons(s, 0, 32);
    ValCons(s, 1, 32);
    ValCons(s, 2, 32);
    ValCons(s, 3, 32);
    ValCons(s, 4, 32);
    ValCons(s, 5, 32);
    ValCons(s, 6, 32);
    ValCons(s, 7, 32);
    assert s[0..] == s;
    Horner8(s, Val(s, 32), Val(s[1..], 32), Val(s[2..], 32), Val(s[3..], 32), Val(s[4..], 32),
            Val(s[5..], 32), Val(s[6..], 32), Val(s[7..], 32));
  }

  lemma ValEnd(s: seq<nat>, w: nat)
    ensures Val(s[|s|..], w) == 0
  {
  }

  lemma ValWords4(s: seq<nat>)
    requires |s| == 4
    ensures Val(s, 64) == s[0] + 0x10000000000000000 * s[1] + 0x100000000000000000000000000000000 * s[2]
                          + 0x1000000000000000000000000000000000000000000000000 * s[3]
  {
    Bases();
    hide *;
    ValEnd(s, 64);
    ValCons(s, 0, 64);
    ValCons(s, 1, 64);
    ValCons(s, 2, 64);
    ValCons(s, 3, 64);
    assert s[0..] == s;
  }

  lemma PrimeWordsValue(w: nat)
    requires w == 32 || w == 64
    ensures |PrimeWords(w)| * w == 256 && IsWords(PrimeWords(w), w) && Val(PrimeWords(w), w) == PrimeP()
  {
    Bases();
    hide Val, Pow, Base;
    if w == 32 {
      ValDigits8(PrimeWords(32));
    } else {
      ValWords4(PrimeWords(64));
    }
  }

  // ------------------------------------------------- the nine summands

  function T(c: seq<nat>): (r: seq<nat>)
    requires |c| == 16
    ensures |r| == 8
  {
    [c[0], c[1], c[2], c[3], c[4], c[5], c[6], c[7]]
  }

  function S1(c: seq<nat>): (r: seq<nat>)
    requires |c| == 16
    ensures |r| == 8
  {
    [0, 0, 0, c[11], c[12], c[13], c[14], c[15]]
  }

  function S2(c: seq<nat>): (r: seq<nat>)
    requires |c| == 16
    ensures |r| == 8
  {
    [0, 0, 0, c[12], c[13], c[14], c[15], 0]
  }

  function S3(c: seq<nat>): (r: seq<nat>)
    requires |c| == 16
    ensures |r| == 8
  {
    [c[8], c[9], c[10], 0, 0, 0, c[14], c[15]]
  }

  function S4(c: seq<nat>): (r: seq<nat>)
    requires |c| == 16
    ensures |r| == 8
  {
    [c[9], c[10], c[11], c[13], c[14], c[15], c[13], c[8]]
  }

  function D1(c: seq<nat>): (r: seq<nat>)
    requires |c| == 16
    ensures |r| == 8
  {
    [c[11], c[12], c[13], 0, 0, 0, c[8], c[10]]
  }

  function D2(c: seq<nat>): (r: seq<nat>)
    requires |c| == 16
    ensures |r| == 8
  {
    [c[12], c[13], c[14], c[15], 0, 0, c[9], c[11]]
  }

  function D3(c: seq<nat>): (r: seq<nat>)
    requires |c| == 16
    ensures |r| == 8
  {
    [c[13], c[14], c[15], c[8], c[9], c[10], 0, c[12]]
  }

  function D4(c: seq<nat>): (r: seq<nat>)
    requires |c| == 16
    ensures |r| == 8
  {
    [c[14], c[15], 0, c[9], c[10], c[11], 0, c[13]]
  }

  /** T + 2*S1 + 2*S2 + S3 + S4 - D1 - D2 - D3 - D4 */
  ghost function Fold(c: seq<nat>): (r: int)
    requires |c| == 16
  {
    Val(T(c), 32) + 2 * Val(S1(c), 32) + 2 * Val(S2(c), 32) + Val(S3(c), 32) + Val(S4(c), 32)
    - Val(D1(c), 32) - Val(D2(c), 32) - Val(D3(c), 32) - Val(D4(c), 32)
  }

  /** How many times the prime the folding drops. */
  function Quotient(c: seq<nat>): (r: int)
    requires |c| == 16
  {
    0x1 * c[8]
      + 0x100000001 * c[9]
      + 0x10000000100000000 * c[10]
      + 0x100000000ffffffffffffffff * c[11]
      + 0x100000000fffffffffffffffeffffffff * c[12]
      + 0x100000000fffffffffffffffefffffffeffffffff * c[13]
      + 0x100000000fffffffffffffffefffffffefffffffeffffffff * c[14]
      + 0x100000000fffffffffffffffefffffffefffffffeffffffff00000000 * c[15]
  }

  lemma FoldDigits(c8: nat, c9: nat, c10: nat, c11: nat, c12: nat, c13: nat, c14: nat, c15: nat)
    ensures 0x10000000000000000000000000000000000000000000000000000000000000000
            * Weigh(c8, c9, c10, c11, c12, c13, c14, c15) ==
      2 * Weigh(0, 0, 0, c11, c12, c13, c14, c15)
      + 2 * Weigh(0, 0, 0, c12, c13, c14, c15, 0) + Weigh(c8, c9, c10, 0, 0, 0, c14, c15)
      + Weigh(c9, c10, c11, c13, c14, c15, c13, c8) - Weigh(c11, c12, c13, 0, 0, 0, c8, c10)
      - Weigh(c12, c13, c14, c15, 0, 0, c9, c11) - Weigh(c13, c14, c15, c8, c9, c10, 0, c12)
      - Weigh(c14, c15, 0, c9, c10, c11, 0, c13)
      + 0xffffffff00000001000000000000000000000000ffffffffffffffffffffffff * (0x1 * c8
      + 0x100000001 * c9
      + 0x10000000100000000 * c10
      + 0x100000000ffffffffffffffff * c11
      + 0x100000000fffffffffffffffeffffffff * c12
      + 0x100000000fffffffffffffffefffffffeffffffff * c13
      + 0x100000000fffffffffffffffefffffffefffffffeffffffff * c14
      + 0x100000000fffffffffffffffefffffffefffffffeffffffff00000000 * c15)
  {
  }

  /** The summands, digit by digit. */
  lemma Summands(c: seq<nat>)
    requires |c| == 16
    ensures S1(c) == [0, 0, 0, c[11], c[12], c[13], c[14], c[15]]
    ensures S2(c) == [0, 0, 0, c[12], c[13], c[14], c[15], 0]
    ensures S3(c) == [c[8], c[9], c[10], 0, 0, 0, c[14], c[15]]
    ensures S4(c) == [c[9], c[10], c[11], c[13], c[14], c[15], c[13], c[8]]
    ensures D1(c) == [c[11], c[12], c[13], 0, 0, 0, c[8], c[10]]
    ensures D2(c) == [c[12], c[13], c[14], c[15], 0, 0, c[9], c[11]]
    ensures D3(c) == [c[13], c[14], c[15], c[8], c[9], c[10], 0, c[12]]
    ensures D4(c) == [c[14], c[15], 0, c[9], c[10], c[11], 0, c[13]]
    ensures T(c) == c[..8]
  {
  }

  lemma SummandDigits(c: seq<nat>)
    requires |c| == 16
    ensures Digits8(S1(c)) == Weigh(0, 0, 0, c[11], c[12], c[13], c[14], c[15])
    ensures Digits8(S2(c)) == Weigh(0, 0, 0, c[12], c[13], c[14], c[15], 0)
    ensures Digits8(S3(c)) == Weigh(c[8], c[9], c[10], 0, 0, 0, c[14], c[15])
    ensures Digits8(S4(c)) == Weigh(c[9], c[10], c[11], c[13], c[14], c[15], c[13], c[8])
    ensures Digits8(D1(c)) == Weigh(c[11], c[12], c[13], 0, 0, 0, c[8], c[10])
    ensures Digits8(D2(c)) == Weigh(c[12], c[13], c[14], c[15], 0, 0, c[9], c[11])
    ensures Digits8(D3(c)) == Weigh(c[13], c[14], c[15], c[8], c[9], c[10], 0, c[12])
    ensures Digits8(D4(c)) == Weigh(c[14], c[15], 0, c[9], c[10], c[11], 0, c[13])
  {
    Summands(c);
    hide Weigh, T, S1, S2, S3, S4, D1, D2, D3, D4;
  }

  lemma HighDigits(c: seq<nat>)
    requires |c| == 16
    ensures Digits8(c[8..]) == Weigh(c[8], c[9], c[10], c[11], c[12], c[13], c[14], c[15])
    ensures Quotient(c) == 0x1 * c[8]
      + 0x100000001 * c[9]
      + 0x10000000100000000 * c[10]
      + 0x100000000ffffffffffffffff * c[11]
      + 0x100000000fffffffffffffffeffffffff * c[12]
      + 0x100000000fffffffffffffffefffffffeffffffff * c[13]
      + 0x100000000fffffffffffffffefffffffefffffffeffffffff * c[14]
      + 0x100000000fffffffffffffffefffffffefffffffeffffffff00000000 * c[15]
  {
    hide Weigh;
  }

  lemma FoldIdentity(c: seq<nat>)
    requires |c| == 16
    ensures Digits8(c[..8]) + TwoTo256() * Digits8(c[8..]) ==
      Digits8(T(c)) + 2 * Digits8(S1(c)) + 2 * Digits8(S2(c)) + Digits8(S3(c)) + Digits8(S4(c))
      - Digits8(D1(c)) - Digits8(D2(c)) - Digits8(D3(c)) - Digits8(D4(c)) + PrimeP() * Quotient(c)
  {
    hide *;
    FoldDigits(c[8], c[9], c[10], c[11], c[12], c[13], c[14], c[15]);
    Summands(c);
    SummandDigits(c);
    HighDigits(c);
    Literals(Quotient(c), Digits8(c[8..]));
  }

  lemma Literals(q: int, d: int)
    ensures PrimeP() * q == 0xffffffff00000001000000000000000000000000ffffffffffffffffffffffff * q
    ensures TwoTo256() * d == 0x10000000000000000000000000000000000000000000000000000000000000000 * d
  {
  }

  lemma ProductDigits(c: seq<nat>)
    requires |c| == 16
    ensures Val(c, 32) == Digits8(c[..8]) + TwoTo256() * Digits8(c[8..])
  {
    hide *;
    Bases();
    ValSplit(c, 8, 32);
    ValDigits8(c[..8]);
    ValDigits8(c[8..]);
  }

  /** The product is the folded value plus an explicit multiple of the prime. */
  lemma FoldExact(c: seq<nat>)
    requires |c| == 16
    ensures Val(c, 32) == Fold(c) + Quotient(c) * PrimeP()
  {
    hide *;
    ProductDigits(c);
    FoldIdentity(c);
    FoldValue(c);
    assert PrimeP() * Quotient(c) == Quotient(c) * PrimeP();
  }

  /** Folding keeps the residue: the D.2.3 summands are congruent to the product. */
  lemma FoldCongruent(c: seq<nat>)
    requires |c| == 16
    ensures Fold(c) % PrimeP() == Val(c, 32) % PrimeP()
  {
    hide *;
    FoldExact(c);
    ModAddMultiple(Fold(c), Quotient(c), PrimeP());
  }

  lemma FoldValue(c: seq<nat>)
    requires |c| == 16
    ensures Fold(c) == Digits8(T(c)) + 2 * Digits8(S1(c)) + 2 * Digits8(S2(c)) + Digits8(S3(c)) + Digits8(S4(c))
      - Digits8(D1(c)) - Digits8(D2(c)) - Digits8(D3(c)) - Digits8(D4(c))
  {
    hide Digits8, Val, T, S1, S2, S3, S4, D1, D2, D3, D4;
    ValDigits8(T(c));
    ValDigits8(S1(c));
    ValDigits8(S2(c));
    ValDigits8(S3(c));
    ValDigits8(S4(c));
    ValDigits8(D1(c));
    ValDigits8(D2(c));
    ValDigits8(D3(c));
    ValDigits8(D4(c));
  }

  // ------------------------------------------------------- the reduction

  /** result and the signed carry hold total. */
  ghost predicate Holds(words: seq<nat>, carry: int, total: int, w: nat)
  {
    IsWords(words, w) && Val(words, w) + carry * TwoTo256() == total
  }

  lemma HoldsFacts(words: seq<nat>, carry: int, total: int, w: nat)
    ensures Holds(words, carry, total, w) <==> IsWords(words, w) && Val(words, w) + carry * TwoTo256() == total
  {
  }

  /** tmp[lo..] = words */
  method Load(tmp: array<nat>, lo: nat, words: seq<nat>)
    requires lo + |words| == tmp.Length
    modifies tmp
    ensures tmp[..] == old(tmp[..lo]) + words && (lo == 0 ==> tmp[..] == words)
  {
    for i := 0 to |words|
      invariant forall j :: 0 <= j < lo ==> tmp[j] == old(tmp[j])
      invariant forall j :: 0 <= j < i ==> tmp[lo + j] == words[j]
    {
      tmp[lo + i] := words[i];
    }
  }

  lemma WeightOf(n: nat, w: nat)
    requires n * w == 256
    ensures Pow(Base(w), n) == TwoTo256()
  {
    Powers();
    hide *;
    BasePow(w, n);
    assert w * n == 256;
  }

  /** carry += ecdsa_vli_add(result, result, tmp) */
  method Accumulate(result: array<nat>, tmp: array<nat>, carry: int, w: nat, ghost total: int) returns (carry': int)
    requires w >= 1 && result.Length * w == 256 && tmp.Length == result.Length
    requires IsWords(tmp[..], w) && Holds(result[..], carry, total, w)
    modifies result
    ensures Holds(result[..], carry', total + old(Val(tmp[..], w)), w)
    ensures carry <= carry' <= carry + 1
  {
    hide *;
    WeightOf(result.Length, w);
    HoldsFacts(result[..], carry, total, w);
    var c := VliAdd(result, result, tmp, w);
    carry' := carry + c;
    CarryArith(c, carry, 1, TwoTo256());
    HoldsFacts(result[..], carry', total + old(Val(tmp[..], w)), w);
  }

  lemma CarryArith(c: int, carry: int, sign: int, m: nat)
    requires sign == 1 || sign == -1
    ensures (carry + sign * c) * m == carry * m + sign * (c * m)
  {
  }

  /** carry -= ecdsa_vli_sub(result, result, tmp) */
  method Deduct(result: array<nat>, tmp: array<nat>, carry: int, w: nat, ghost total: int) returns (carry': int)
    requires w >= 1 && result.Length * w == 256 && tmp.Length == result.Length && tmp != result
    requires IsWords(tmp[..], w) && Holds(result[..], carry, total, w)
    modifies result
    ensures Holds(result[..], carry', total - Val(tmp[..], w), w)
    ensures carry - 1 <= carry' <= carry
  {
    hide *;
    WeightOf(result.Length, w);
    HoldsFacts(result[..], carry, total, w);
    var b := VliSub(result, result, tmp, w);
    carry' := carry - b;
    CarryArith(b, carry, -1, TwoTo256());
    HoldsFacts(result[..], carry', total - Val(tmp[..], w), w);
  }

  lemma CarrySign(v: nat, carry: int, total: int, m: nat)
    requires v + carry * m == total && v < m
    ensures carry < 0 <==> total < 0
    ensures carry == 0 ==> total == v
    ensures carry > 0 ==> total >= m
  {
    assert carry <= -1 ==> carry * m + m <= 0;
    assert carry >= 1 ==> carry * m >= m;
  }

  lemma HoldsSign(words: seq<nat>, carry: int, total: int, w: nat)
    requires w >= 1 && |words| * w == 256 && Holds(words, carry, total, w)
    ensures IsWords(words, w) && (carry < 0 <==> total < 0)
    ensures carry == 0 ==> total == Val(words, w)
    ensures carry > 0 ==> total >= TwoTo256()
  {
    hide *;
    HoldsFacts(words, carry, total, w);
    ValBound(words, w);
    WeightOf(|words|, w);
    CarrySign(Val(words, w), carry, total, TwoTo256());
  }

  lemma PrimeBelow()
    ensures PrimeP() < TwoTo256()
  {
  }

  /** The correction loops: add the prime while the carry is negative, else subtract it while it fits. */
  method Correct(result: array<nat>, p: array<nat>, carry0: int, w: nat, ghost total0: int)
    requires w >= 1 && result.Length * w == 256 && p.Length == result.Length && p != result
    requires IsWords(p[..], w) && Val(p[..], w) == PrimeP() && Holds(result[..], carry0, total0, w)
    modifies result
    ensures IsWords(result[..], w) && Val(result[..], w) == total0 % PrimeP()
  {
    hide *;
    PrimeBelow();
    var carry := carry0;
    ghost var total, m, k := total0, PrimeP(), 0;
    HoldsSign(result[..], carry, total, w);
    if carry < 0 {
      carry := Accumulate(result, p, carry, w, total);
      total, k := total + m, 1;
      HoldsSign(result[..], carry, total, w);
      Multiple(total0, 0, m);
      while carry < 0
        invariant Holds(result[..], carry, total, w) && IsWords(p[..], w) && Val(p[..], w) == m
        invariant total == total0 + k * m && total < m && (carry < 0 <==> total < 0)
        decreases -total
      {
        carry := Accumulate(result, p, carry, w, total);
        Multiple(total0, k, m);
        total, k := total + m, k + 1;
        HoldsSign(result[..], carry, total, w);
      }
    } else {
      var cmp := VliCmp(p, result, w);
      Multiple(total0, 0, m);
      while carry != 0 || cmp != 1
        invariant Holds(result[..], carry, total, w) && IsWords(p[..], w) && Val(p[..], w) == m
        invariant total == total0 + k * m && total >= 0 && IsWords(result[..], w)
        invariant carry == 0 ==> total == Val(result[..], w)
        invariant carry >= 0 && (carry > 0 ==> total >= TwoTo256())
        invariant cmp == 1 <==> m > Val(result[..], w)
        decreases total
      {
        carry := Deduct(result, p, carry, w, total);
        Multiple(total0, k - 1, m);
        total, k := total - m, k - 1;
        HoldsSign(result[..], carry, total, w);
        cmp := VliCmp(p, result, w);
      }
    }
    HoldsSign(result[..], carry, total, w);
    Reduced(total0, total, k, m);
  }

  lemma Multiple(t: int, k: int, m: nat)
    ensures t + (k + 1) * m == t + k * m + m
  {
  }

  lemma Reduced(t: int, total: int, k: int, m: nat)
    requires 0 <= total < m && total == t + k * m
    ensures t % m == total
  {
    var q := -k;
    assert t == total + q * m;
    ModAddMultiple(total, q, m);
    ModSmall(total, m);
  }

  lemma PickedWords(c: seq<nat>)
    requires |c| == 16 && IsWords(c, 32)
    ensures IsWords(T(c), 32) && IsWords(S1(c), 32) && IsWords(S2(c), 32) && IsWords(S3(c), 32) && IsWords(S4(c), 32)
    ensures IsWords(D1(c), 32) && IsWords(D2(c), 32) && IsWords(D3(c), 32) && IsWords(D4(c), 32)
  {
    assert forall i :: 0 <= i < 16 ==> c[i] < Base(32);
    hide Base, Pow;
  }

  /** Doubling a term whose low words are zero leaves them zero. */
  lemma DoubledLowWords(s: seq<nat>, t: seq<nat>, carry: nat, k: nat, w: nat)
    requires k <= |s| == |t| && IsWords(t, w) && carry <= 1
    requires forall i :: 0 <= i < k ==> s[i] == 0
    requires Val(t, w) + carry * Pow(Base(w), |s|) == Val(s, w) + Val(s, w)
    ensures forall i :: 0 <= i < k ==> t[i] == 0
  {
    hide *;
    LowZeros(s, k, w);
    PowAdd(Base(w), k, |s| - k);
    ValLow(t, k, w);
    StillMultiple(Val(t, w), carry, Val(s[k..], w), Pow(Base(w), k), Pow(Base(w), |s| - k), Val(s, w),
                  Pow(Base(w), |s|));
    ValZeros(t[..k], w);
    assert forall i :: 0 <= i < k ==> t[i] == t[..k][i];
  }

  lemma StillMultiple(t: nat, carry: nat, v: nat, p: nat, r: nat, s: nat, pr: nat)
    requires p > 0 && pr == p * r && s == p * v && t + carry * pr == s + s
    ensures t % p == 0
  {
    var k := 2 * v - carry * r;
    assert carry * pr == (carry * r) * p;
    assert k * p == 2 * (p * v) - (carry * r) * p;
    ModMultiple(k, p);
  }

  /** carry += ecdsa_vli_add(tmp, tmp, tmp); carry += ecdsa_vli_add(result, result, tmp) */
  method AccumulateTwice(result: array<nat>, tmp: array<nat>, carry: int, w: nat, k: nat, ghost total: int)
    returns (carry': int)
    requires w >= 1 && result.Length * w == 256 && tmp.Length == result.Length && tmp != result
    requires IsWords(tmp[..], w) && Holds(result[..], carry, total, w)
    requires k <= tmp.Length && forall i :: 0 <= i < k ==> tmp[i] == 0
    modifies result, tmp
    ensures Holds(result[..], carry', total + 2 * old(Val(tmp[..], w)), w)
    ensures carry <= carry' <= carry + 2
    ensures forall i :: 0 <= i < k ==> tmp[i] == 0
  {
    hide *;
    ghost var s := tmp[..];
    WeightOf(result.Length, w);
    HoldsFacts(result[..], carry, total, w);
    var c := VliAdd(tmp, tmp, tmp, w);
    DoubledLowWords(s, tmp[..], c, k, w);
    carry' := carry + c;
    CarryArith(c, carry, 1, TwoTo256());
    ghost var total' := total + c * TwoTo256();
    HoldsFacts(result[..], carry', total', w);
    carry' := Accumulate(result, tmp, carry', w, total');
  }

  lemma NoFoldYet(words: seq<nat>, w: nat)
    requires IsWords(words, w)
    ensures Holds(words, 0, Val(words, w), w)
  {
  }

  /** The straight-line part of the 32-bit form: carry and result hold the folded product. */
  method Fold32(result: array<nat>, product: array<nat>) returns (carry: int)
    requires result.Length == 8 && product.Length == 16 && result != product && IsWords(product[..], 32)
    modifies result
    ensures Holds(result[..], carry, Fold(product[..]), 32)
  {
    hide *;
    ghost var c := product[..];
    PickedWords(c);
    Summands(c);
    var tmp := new nat[8];
    ghost var total := Val(T(c), 32);
    VliSet(result, 0, product, 8);
    assert result[..] == result[0..8] == product[..8] == T(c);
    NoFoldYet(T(c), 32);
    carry := Fold32Doubles(result, product, tmp, total);
    total := total + 2 * Val(S1(c), 32) + 2 * Val(S2(c), 32);
    carry := Fold32Sums(result, product, tmp, carry, total);
    total := total + Val(S3(c), 32) + Val(S4(c), 32);
    carry := Fold32Differences(result, product, tmp, carry, total);
    FoldIs(c);
  }

  /** vli_mmod_fast_secp256r1 for 32-bit words: result = product % curve_p. */
  method MmodFast32(result: array<nat>, product: array<nat>, p: array<nat>)
    requires result.Length == 8 && product.Length == 16 && p.Length == 8
    requires result != product && result != p && IsWords(product[..], 32) && p[..] == PrimeWords(32)
    modifies result
    ensures IsWords(result[..], 32) && Val(result[..], 32) == Val(product[..], 32) % PrimeP()
  {
    hide *;
    PrimeWordsValue(32);
    var carry := Fold32(result, product);
    Correct(result, p, carry, 32, Fold(product[..]));
    FoldCongruent(product[..]);
  }

  lemma FoldIs(c: seq<nat>)
    requires |c| == 16
    ensures Fold(c) == Val(T(c), 32) + 2 * Val(S1(c), 32) + 2 * Val(S2(c), 32) + Val(S3(c), 32) + Val(S4(c), 32)
      - Val(D1(c), 32) - Val(D2(c), 32) - Val(D3(c), 32) - Val(D4(c), 32)
  {
    hide Val;
  }

  /** The blocks s1 and s2 of the 32-bit form. */
  method Fold32Doubles(result: array<nat>, product: array<nat>, tmp: array<nat>, ghost total: int) returns (carry: int)
    requires result.Length == 8 && product.Length == 16 && tmp.Length == 8
    requires result != product && result != tmp && tmp != product && IsWords(product[..], 32)
    requires Holds(result[..], 0, total, 32)
    modifies result, tmp
    ensures Holds(result[..], carry, total + 2 * Val(S1(product[..]), 32) + 2 * Val(S2(product[..]), 32), 32)
  {
    ghost var c := product[..];
    hide *;
    PickedWords(c);
    Load(tmp, 0, S1(product[..]));
    FirstZeros(c);
    carry := AccumulateTwice(result, tmp, 0, 32, 3, total);
    // The three low words of tmp are still zero.
    LowZeroWords(tmp[..], c);
    Load(tmp, 3, S2(product[..])[3..]);
    assert tmp[..] == S2(c);
    carry := AccumulateTwice(result, tmp, carry, 32, 3, total + 2 * Val(S1(c), 32));
  }

  /** Loads eight words and adds them. */
  method AccumulateWords(result: array<nat>, tmp: array<nat>, words: seq<nat>, carry: int, w: nat, ghost total: int)
    returns (carry': int)
    requires w >= 1 && result.Length * w == 256 && tmp.Length == result.Length == |words| && tmp != result
    requires IsWords(words, w) && Holds(result[..], carry, total, w)
    modifies result, tmp
    ensures Holds(result[..], carry', total + Val(words, w), w)
  {
    hide *;
    Load(tmp, 0, words);
    carry' := Accumulate(result, tmp, carry, w, total);
  }

  /** Loads eight words and subtracts them. */
  method DeductWords(result: array<nat>, tmp: array<nat>, words: seq<nat>, carry: int, w: nat, ghost total: int)
    returns (carry': int)
    requires w >= 1 && result.Length * w == 256 && tmp.Length == result.Length == |words| && tmp != result
    requires IsWords(words, w) && Holds(result[..], carry, total, w)
    modifies result, tmp
    ensures Holds(result[..], carry', total - Val(words, w), w)
  {
    hide *;
    Load(tmp, 0, words);
    carry' := Deduct(result, tmp, carry, w, total);
  }

  /** The blocks s3 and s4 of the 32-bit form. */
  method Fold32Sums(result: array<nat>, product: array<nat>, tmp: array<nat>, carry0: int, ghost total: int)
    returns (carry: int)
    requires result.Length == 8 && product.Length == 16 && tmp.Length == 8
    requires result != product && result != tmp && tmp != product && IsWords(product[..], 32)
    requires Holds(result[..], carry0, total, 32)
    modifies result, tmp
    ensures Holds(result[..], carry, total + Val(S3(product[..]), 32) + Val(S4(product[..]), 32), 32)
  {
    ghost var c := product[..];
    hide *;
    PickedWords(c);
    carry := AccumulateWords(result, tmp, S3(product[..]), carry0, 32, total);
    carry := AccumulateWords(result, tmp, S4(product[..]), carry, 32, total + Val(S3(c), 32));
  }

  /** The blocks d1 to d4 of the 32-bit form. */
  method Fold32Differences(result: array<nat>, product: array<nat>, tmp: array<nat>, carry0: int, ghost total0: int)
    returns (carry: int)
    requires result.Length == 8 && product.Length == 16 && tmp.Length == 8
    requires result != product && result != tmp && tmp != product && IsWords(product[..], 32)
    requires Holds(result[..], carry0, total0, 32)
    modifies result, tmp
    ensures var c := product[..];
      Holds(result[..], carry, total0 - Val(D1(c), 32) - Val(D2(c), 32) - Val(D3(c), 32) - Val(D4(c), 32), 32)
  {
    ghost var c := product[..];
    hide *;
    PickedWords(c);
    ghost var v1, v2, v3 := Val(D1(c), 32), Val(D2(c), 32), Val(D3(c), 32);
    carry := DeductWords(result, tmp, D1(product[..]), carry0, 32, total0);
    carry := DeductWords(result, tmp, D2(product[..]), carry, 32, total0 - v1);
    carry := DeductWords(result, tmp, D3(product[..]), carry, 32, total0 - v1 - v2);
    carry := DeductWords(result, tmp, D4(product[..]), carry, 32, total0 - v1 - v2 - v3);
  }

  lemma FirstZeros(c: seq<nat>)
    requires |c| == 16
    ensures forall i :: 0 <= i < 3 ==> S1(c)[i] == 0
  {
  }

  lemma LowZeroWords(t: seq<nat>, c: seq<nat>)
    requires |t| == 8 && |c| == 16 && forall i :: 0 <= i < 3 ==> t[i] == 0
    ensures t[..3] + S2(c)[3..] == S2(c)
  {
  }

  // ------------------------------------------------------- 64-bit words

  const HALF: nat := 0x1_0000_0000
  const WORD: nat := 0x1_0000_0000_0000_0000

  /** The 32-bit digits of a sequence of 64-bit words. */
  function Halves(s: seq<nat>): (h: seq<nat>)
    ensures |h| == 2 * |s|
    ensures forall i :: 0 <= i < |s| ==> h[2 * i] == s[i] % HALF && h[2 * i + 1] == s[i] / HALF
  {
    seq(2 * |s|, j requires 0 <= j < 2 * |s| => if j % 2 == 0 then s[j / 2] % HALF else s[j / 2] / HALF)
  }

  /** Two digits as one 64-bit word. */
  function Pair(low: nat, high: nat): (r: nat)
  {
    low + HALF * high
  }

  /** Eight digits as four 64-bit words. */
  function Pack(c: seq<nat>): (s: seq<nat>)
    requires |c| == 8
    ensures |s| == 4
  {
    [Pair(c[0], c[1]), Pair(c[2], c[3]), Pair(c[4], c[5]), Pair(c[6], c[7])]
  }

  lemma PackValue(c: seq<nat>)
    requires |c| == 8
    ensures Val(Pack(c), 64) == Val(c, 32)
  {
    ValWords4(Pack(c));
    ValDigits8(c);
    hide Val;
  }

  lemma PackWords(c: seq<nat>)
    requires |c| == 8 && IsWords(c, 32)
    ensures IsWords(Pack(c), 64)
  {
    Bases();
    assert forall i :: 0 <= i < 8 ==> c[i] < HALF;
    hide Base, Pow;
  }

  lemma HalvesWords(s: seq<nat>)
    requires IsWords(s, 64)
    ensures IsWords(Halves(s), 32)
  {
    Bases();
    hide Base, Pow;
    forall j | 0 <= j < 2 * |s|
      ensures Halves(s)[j] < HALF
    {
      assert s[j / 2] < WORD;
      assert j == 2 * (j / 2) || j == 2 * (j / 2) + 1;
    }
  }

  lemma HalvesAt(s: seq<nat>, i: nat)
    requires i < |s|
    ensures s[i] == Pair(Halves(s)[2 * i], Halves(s)[2 * i + 1])
  {
    hide Halves;
  }

  lemma HalvesSplit(s: seq<nat>)
    requires |s| == 8
    ensures s[..4] == Pack(Halves(s)[..8]) && s[4..] == Pack(Halves(s)[8..])
  {
    hide Halves, Pair;
    HalvesAt(s, 0);
    HalvesAt(s, 1);
    HalvesAt(s, 2);
    HalvesAt(s, 3);
    HalvesAt(s, 4);
    HalvesAt(s, 5);
    HalvesAt(s, 6);
    HalvesAt(s, 7);
  }

  lemma HalvesValue(s: seq<nat>)
    requires |s| == 8
    ensures Val(Halves(s), 32) == Val(s, 64)
  {
    hide *;
    var c := Halves(s);
    HalvesSplit(s);
    PackValue(c[..8]);
    PackValue(c[8..]);
    ValSplit(s, 4, 64);
    ValSplit(c, 8, 32);
    Bases();
  }

  /** x << 32, dropping the bits that leave the word. */
  function Shl32(x: nat): (r: nat)
  {
    (x * HALF) % WORD
  }

  /** x >> 32 */
  function Shr32(x: nat): (r: nat)
  {
    x / HALF
  }

  /** x & 0xffffffff */
  function Low32(x: nat): (r: nat)
  {
    x % HALF
  }

  /** x & 0xffffffff00000000 */
  function High32(x: nat): (r: nat)
  {
    x - x % HALF
  }

  /** Joining a low half with a word that has none: the bitwise-or of the C code is a Pair. */
  lemma OrPair(low: nat, x: nat)
    requires low < HALF && x < WORD
    ensures Shl32(x) == Pair(0, x % HALF) && High32(x) == Pair(0, x / HALF)
    ensures BitOr(low, Shl32(x)) == Pair(low, x % HALF)
    ensures BitOr(low, High32(x)) == Pair(low, x / HALF)
  {
    Powers();
    var h, r := x / HALF, x % HALF;
    ShiftedHalves(x, h, r);
    ModMultiple(r, HALF);
    ModMultiple(h, HALF);
    hide BitOr, Pow, Shl32, High32;
    BitOrDisjoint(r * HALF, low, 32);
    BitOrDisjoint(h * HALF, low, 32);
  }

  lemma ShiftedHalves(x: nat, h: nat, r: nat)
    requires x < WORD && h == x / HALF && r == x % HALF
    ensures Shl32(x) == r * HALF && High32(x) == h * HALF
  {
    assert x == h * HALF + r;
    assert x * HALF == h * WORD + r * HALF;
    DivModUnique(x * HALF, WORD, h, r * HALF);
  }

  lemma OrPairs(s: seq<nat>)
    requires IsWords(s, 64)
    ensures forall i, j :: 0 <= i < |s| && 0 <= j < |s| ==>
      BitOr(Shr32(s[i]), Shl32(s[j])) == Pair(s[i] / HALF, s[j] % HALF)
    ensures forall i, j :: 0 <= i < |s| && 0 <= j < |s| ==>
      BitOr(Low32(s[i]), Shl32(s[j])) == Pair(s[i] % HALF, s[j] % HALF)
    ensures forall i, j :: 0 <= i < |s| && 0 <= j < |s| ==>
      BitOr(Shr32(s[i]), High32(s[j])) == Pair(s[i] / HALF, s[j] / HALF)
    ensures forall j :: 0 <= j < |s| ==> Shl32(s[j]) == Pair(0, s[j] % HALF) && High32(s[j]) == Pair(0, s[j] / HALF)
  {
    Bases();
    hide Base, Pow, BitOr;
    forall i, j | 0 <= i < |s| && 0 <= j < |s|
      ensures BitOr(Shr32(s[i]), Shl32(s[j])) == Pair(s[i] / HALF, s[j] % HALF)
      ensures BitOr(Low32(s[i]), Shl32(s[j])) == Pair(s[i] % HALF, s[j] % HALF)
      ensures BitOr(Shr32(s[i]), High32(s[j])) == Pair(s[i] / HALF, s[j] / HALF)
      ensures Shl32(s[j]) == Pair(0, s[j] % HALF) && High32(s[j]) == Pair(0, s[j] / HALF)
    {
      assert s[i] < WORD && s[j] < WORD;
      OrPair(Shr32(s[i]), s[j]);
      OrPair(Low32(s[i]), s[j]);
    }
  }

  lemma PairZero(x: nat)
    ensures Pair(x, 0) == x && Pair(0, 0) == 0
  {
  }

  /** The digits of words 4 to 7 of a 64-bit product. */
  lemma UpperDigits(p: seq<nat>)
    requires |p| == 8
    ensures var c := Halves(p);
      && c[8] == Low32(p[4]) && c[9] == Shr32(p[4]) && c[10] == Low32(p[5]) && c[11] == Shr32(p[5])
      && c[12] == Low32(p[6]) && c[13] == Shr32(p[6]) && c[14] == Low32(p[7]) && c[15] == Shr32(p[7])
      && p[4] == Pair(c[8], c[9]) && p[5] == Pair(c[10], c[11])
      && p[6] == Pair(c[12], c[13]) && p[7] == Pair(c[14], c[15])
  {
    hide Halves, Pair;
    HalvesAt(p, 4);
    HalvesAt(p, 5);
    HalvesAt(p, 6);
    HalvesAt(p, 7);
    var c := Halves(p);
    assert c[2 * 4] == Low32(p[4]) && c[2 * 5] == Low32(p[5]) && c[2 * 6] == Low32(p[6]) && c[2 * 7] == Low32(p[7]);
    assert c[2 * 4 + 1] == Shr32(p[4]) && c[2 * 5 + 1] == Shr32(p[5]);
    assert c[2 * 6 + 1] == Shr32(p[6]) && c[2 * 7 + 1] == Shr32(p[7]);
  }

  lemma PackIs(c: seq<nat>)
    requires |c| == 8
    ensures Pack(c) == [Pair(c[0], c[1]), Pair(c[2], c[3]), Pair(c[4], c[5]), Pair(c[6], c[7])]
  {
  }

  /** The added word blocks of the 64-bit form are the packed digit blocks of the 32-bit form. */
  lemma RepackedSums(p: seq<nat>)
    requires |p| == 8 && IsWords(p, 64)
    ensures var c := Halves(p);
      && Pack(S1(c)) == [0, High32(p[5]), p[6], p[7]]
      && Pack(S2(c)) == [0, Shl32(p[6]), BitOr(Shr32(p[6]), Shl32(p[7])), Shr32(p[7])]
      && Pack(S3(c)) == [p[4], Low32(p[5]), 0, p[7]]
      && Pack(S4(c)) == [BitOr(Shr32(p[4]), Shl32(p[5])), BitOr(Shr32(p[5]), High32(p[6])), p[7],
                         BitOr(Shr32(p[6]), Shl32(p[4]))]
  {
    hide *;
    var c := Halves(p);
    OrPairs(p);
    UpperDigits(p);
    Summands(c);
    PackIs(S1(c));
    PackIs(S2(c));
    PackIs(S3(c));
    PackIs(S4(c));
    PairZero(c[10]);
    PairZero(c[15]);
  }

  /** The subtracted word blocks likewise. */
  lemma RepackedDifferences(p: seq<nat>)
    requires |p| == 8 && IsWords(p, 64)
    ensures var c := Halves(p);
      && Pack(D1(c)) == [BitOr(Shr32(p[5]), Shl32(p[6])), Shr32(p[6]), 0, BitOr(Low32(p[4]), Shl32(p[5]))]
      && Pack(D2(c)) == [p[6], p[7], 0, BitOr(Shr32(p[4]), High32(p[5]))]
      && Pack(D3(c)) == [BitOr(Shr32(p[6]), Shl32(p[7])), BitOr(Shr32(p[7]), Shl32(p[4])),
                         BitOr(Shr32(p[4]), Shl32(p[5])), Shl32(p[6])]
      && Pack(D4(c)) == [p[7], High32(p[4]), p[5], High32(p[6])]
  {
    hide *;
    var c := Halves(p);
    OrPairs(p);
    UpperDigits(p);
    Summands(c);
    PackIs(D1(c));
    PackIs(D2(c));
    PackIs(D3(c));
    PackIs(D4(c));
    PairZero(c[13]);
  }

  /** The straight-line part of the 64-bit form. */
  method Fold64(result: array<nat>, product: array<nat>) returns (carry: int)
    requires result.Length == 4 && product.Length == 8 && result != product && IsWords(product[..], 64)
    modifies result
    ensures Holds(result[..], carry, Fold(Halves(product[..])), 64)
  {
    hide *;
    ghost var c := Halves(product[..]);
    var tmp := new nat[4];
    ghost var total := Val(T(c), 32);
    VliSet(result, 0, product, 4);
    assert result[..] == result[0..4] == product[..4] == product[..][..4];
    LowHalf(result[..], product[..]);
    carry := Fold64Doubles(result, product, tmp, total);
    total := total + 2 * Val(S1(c), 32) + 2 * Val(S2(c), 32);
    carry := Fold64Sums(result, product, tmp, carry, total);
    total := total + Val(S3(c), 32) + Val(S4(c), 32);
    carry := Fold64Differences(result, product, tmp, carry, total);
    FoldIs(c);
  }

  lemma LowHalf(low: seq<nat>, p: seq<nat>)
    requires |p| == 8 && IsWords(p, 64) && low == p[..4]
    ensures Holds(low, 0, Val(T(Halves(p)), 32), 64)
  {
    hide *;
    HalvesSplit(p);
    Summands(Halves(p));
    PackValue(T(Halves(p)));
    WordsSlice(p, 4, 64);
    NoFoldYet(low, 64);
  }

  /** vli_mmod_fast_secp256r1 for 64-bit words: result = product % curve_p. */
  method MmodFast64(result: array<nat>, product: array<nat>, p: array<nat>)
    requires result.Length == 4 && product.Length == 8 && p.Length == 4
    requires result != product && result != p && IsWords(product[..], 64) && p[..] == PrimeWords(64)
    modifies result
    ensures IsWords(result[..], 64) && Val(result[..], 64) == Val(product[..], 64) % PrimeP()
  {
    hide *;
    ghost var c := Halves(product[..]);
    PrimeWordsValue(64);
    HalvesValue(product[..]);
    var carry := Fold64(result, product);
    Correct(result, p, carry, 64, Fold(c));
    FoldCongruent(c);
  }

  /** The block s2 of the 64-bit form; the low word of tmp is still zero. */
  method Fold64Second(result: array<nat>, product: array<nat>, tmp: array<nat>, carry0: int, ghost total: int)
    returns (carry: int)
    requires result.Length == 4 && product.Length == 8 && tmp.Length == 4 && tmp[0] == 0
    requires result != product && result != tmp && tmp != product && IsWords(product[..], 64)
    requires Holds(result[..], carry0, total, 64)
    modifies result, tmp
    ensures Holds(result[..], carry, total + 2 * Val(S2(Halves(product[..])), 32), 64)
  {
    hide *;
    ghost var c := Halves(product[..]);
    HalvesWords(product[..]);
    PickedWords(c);
    RepackedSums(product[..]);
    PackValue(S2(c));
    PackWords(S2(c));
    assert tmp[..1] == [0];
    Load(tmp, 1, [Shl32(product[6]), BitOr(Shr32(product[6]), Shl32(product[7])), Shr32(product[7])]);
    assert tmp[..] == Pack(S2(c));
    carry := AccumulateTwice(result, tmp, carry0, 64, 1, total);
  }

  /** The blocks s1 and s2 of the 64-bit form. */
  method Fold64Doubles(result: array<nat>, product: array<nat>, tmp: array<nat>, ghost total: int) returns (carry: int)
    requires result.Length == 4 && product.Length == 8 && tmp.Length == 4
    requires result != product && result != tmp && tmp != product && IsWords(product[..], 64)
    requires Holds(result[..], 0, total, 64)
    modifies result, tmp
    ensures var c := Halves(product[..]);
      Holds(result[..], carry, total + 2 * Val(S1(c), 32) + 2 * Val(S2(c), 32), 64)
  {
    hide *;
    ghost var c := Halves(product[..]);
    HalvesWords(product[..]);
    PickedWords(c);
    RepackedSums(product[..]);
    PackValue(S1(c));
    PackWords(S1(c));
    Load(tmp, 0, [0, High32(product[5]), product[6], product[7]]);
    assert tmp[..] == Pack(S1(c));
    carry := AccumulateTwice(result, tmp, 0, 64, 1, total);
    carry := Fold64Second(result, product, tmp, carry, total + 2 * Val(S1(c), 32));
  }

  /** The blocks s3 and s4 of the 64-bit form. */
  method Fold64Sums(result: array<nat>, product: array<nat>, tmp: array<nat>, carry0: int, ghost total: int)
    returns (carry: int)
    requires result.Length == 4 && product.Length == 8 && tmp.Length == 4
    requires result != product && result != tmp && tmp != product && IsWords(product[..], 64)
    requires Holds(result[..], carry0, total, 64)
    modifies result, tmp
    ensures var c := Halves(product[..]);
      Holds(result[..], carry, total + Val(S3(c), 32) + Val(S4(c), 32), 64)
  {
    hide *;
    ghost var c := Halves(product[..]);
    HalvesWords(product[..]);
    PickedWords(c);
    RepackedSums(product[..]);
    PackValue(S3(c));
    PackValue(S4(c));
    PackWords(S3(c));
    PackWords(S4(c));
    Load(tmp, 0, [product[4], Low32(product[5]), 0, product[7]]);
    assert tmp[..] == Pack(S3(c));
    carry := Accumulate(result, tmp, carry0, 64, total);
    Load(tmp, 0, [BitOr(Shr32(product[4]), Shl32(product[5])), BitOr(Shr32(product[5]), High32(product[6])),
                  product[7], BitOr(Shr32(product[6]), Shl32(product[4]))]);
    assert tmp[..] == Pack(S4(c));
    carry := Accumulate(result, tmp, carry, 64, total + Val(S3(c), 32));
  }

  /** The blocks d1 to d4 of the 64-bit form. */
  method Fold64Differences(result: array<nat>, product: array<nat>, tmp: array<nat>, carry0: int, ghost total0: int)
    returns (carry: int)
    requires result.Length == 4 && product.Length == 8 && tmp.Length == 4
    requires result != product && result != tmp && tmp != product && IsWords(product[..], 64)
    requires Holds(result[..], carry0, total0, 64)
    modifies result, tmp
    ensures var c := Halves(product[..]);
      Holds(result[..], carry, total0 - Val(D1(c), 32) - Val(D2(c), 32) - Val(D3(c), 32) - Val(D4(c), 32), 64)
  {
    hide *;
    ghost var c := Halves(product[..]);
    ghost var total := total0;
    HalvesWords(product[..]);
    PickedWords(c);
    RepackedDifferences(product[..]);
    PackValue(D1(c));
    PackValue(D2(c));
    PackValue(D3(c));
    PackValue(D4(c));
    PackWords(D1(c));
    PackWords(D2(c));
    PackWords(D3(c));
    PackWords(D4(c));
    Load(tmp, 0, [BitOr(Shr32(product[5]), Shl32(product[6])), Shr32(product[6]), 0,
                  BitOr(Low32(product[4]), Shl32(product[5]))]);
    assert tmp[..] == Pack(D1(c));
    carry := Deduct(result, tmp, carry0, 64, total);
    total := total - Val(D1(c), 32);
    Load(tmp, 0, [product[6], product[7], 0, BitOr(Shr32(product[4]), High32(product[5]))]);
    assert tmp[..] == Pack(D2(c));
    carry := Deduct(result, tmp, carry, 64, total);
    total := total - Val(D2(c), 32);
    Load(tmp, 0, [BitOr(Shr32(product[6]), Shl32(product[7])), BitOr(Shr32(product[7]), Shl32(product[4])),
                  BitOr(Shr32(product[4]), Shl32(product[5])), Shl32(product[6])]);
    assert tmp[..] == Pack(D3(c));
    carry := Deduct(result, tmp, carry, 64, total);
    total := total - Val(D3(c), 32);
    Load(tmp, 0, [product[7], High32(product[4]), product[5], High32(product[6])]);
    assert tmp[..] == Pack(D4(c));
    carry := Deduct(result, tmp, carry, 64, total);
  }

  // ---------------------------------------------- the other curve constants

  /** The secp256r1 group order, curve_secp256r1.n. */
  function OrderN(): (n: nat)
    ensures n > 2 && n % 2 == 1
  {
    0xffffffff00000000ffffffffffffffffbce6faada7179e84f3b9cac2fc632551
  }

  /** curve_secp256r1.b */
  function CurveB(): (r: nat)
  {
    0x5ac635d8aa3a93e7b3ebbd55769886bc651d06b0cc53b0f63bce3c3e27d2604b
  }

  /** The coordinates of the generator, curve_secp256r1.G. */
  function GX(): (r: nat)
  {
    0x6b17d1f2e12c4247f8bce6e563a440f277037d812deb33a0f4a13945d898c296
  }

  function GY(): (r: nat)
  {
    0x4fe342e2fe1a7f9b8ee7eb4a7c0f9e162bce33576b315ececbb6406837bf51f5
  }

  function OrderWords(w: nat): (r: seq<nat>)
  {
    if w == 32 then [0xfc632551, 0xf3b9cac2, 0xa7179e84, 0xbce6faad, 0xffffffff, 0xffffffff, 0x0, 0xffffffff]
    else [0xf3b9cac2fc632551, 0xbce6faada7179e84, 0xffffffffffffffff, 0xffffffff00000000]
  }

  function BWords(w: nat): (r: seq<nat>)
  {
    if w == 32 then [0x27d2604b, 0x3bce3c3e, 0xcc53b0f6, 0x651d06b0, 0x769886bc, 0xb3ebbd55, 0xaa3a93e7, 0x5ac635d8]
    else [0x3bce3c3e27d2604b, 0x651d06b0cc53b0f6, 0xb3ebbd55769886bc, 0x5ac635d8aa3a93e7]
  }

  function GXWords(w: nat): (r: seq<nat>)
  {
    if w == 32 then [0xd898c296, 0xf4a13945, 0x2deb33a0, 0x77037d81, 0x63a440f2, 0xf8bce6e5, 0xe12c4247, 0x6b17d1f2]
    else [0xf4a13945d898c296, 0x77037d812deb33a0, 0xf8bce6e563a440f2, 0x6b17d1f2e12c4247]
  }

  function GYWords(w: nat): (r: seq<nat>)
  {
    if w == 32 then [0x37bf51f5, 0xcbb64068, 0x6b315ece, 0x2bce3357, 0x7c0f9e16, 0x8ee7eb4a, 0xfe1a7f9b, 0x4fe342e2]
    else [0xcbb6406837bf51f5, 0x2bce33576b315ece, 0x8ee7eb4a7c0f9e16, 0x4fe342e2fe1a7f9b]
  }

  lemma OrderWordsValue(w: nat)
    requires w == 32 || w == 64
    ensures |OrderWords(w)| * w == 256 && IsWords(OrderWords(w), w) && Val(OrderWords(w), w) == OrderN()
  {
    Bases();
    hide Val, Pow, Base;
    if w == 32 {
      ValDigits8(OrderWords(32));
    } else {
      ValWords4(OrderWords(64));
    }
  }

  lemma BWordsValue(w: nat)
    requires w == 32 || w == 64
    ensures |BWords(w)| * w == 256 && IsWords(BWords(w), w) && Val(BWords(w), w) == CurveB()
  {
    Bases();
    hide Val, Pow, Base;
    if w == 32 {
      ValDigits8(BWords(32));
    } else {
      ValWords4(BWords(64));
    }
  }

  lemma GXWordsValue(w: nat)
    requires w == 32 || w == 64
    ensures |GXWords(w)| * w == 256 && IsWords(GXWords(w), w) && Val(GXWords(w), w) == GX()
  {
    Bases();
    hide Val, Pow, Base;
    if w == 32 {
      ValDigits8(GXWords(32));
    } else {
      ValWords4(GXWords(64));
    }
  }

  lemma GYWordsValue(w: nat)
    requires w == 32 || w == 64
    ensures |GYWords(w)| * w == 256 && IsWords(GYWords(w), w) && Val(GYWords(w), w) == GY()
  {
    Bases();
    hide Val, Pow, Base;
    if w == 32 {
      ValDigits8(GYWords(32));
    } else {
      ValWords4(GYWords(64));
    }
  }

  /** The generator is a point of the curve with both coordinates reduced, and p < 2n, n < p. */
  lemma CurveConstants()
    ensures GX() < PrimeP() && GY() < PrimeP() && 0 < CurveB() < PrimeP() && GX() > 0
    ensures (GY() * GY()) % PrimeP() == (GX() * GX() * GX() - 3 * GX() + CurveB()) % PrimeP()
    ensures OrderN() < PrimeP() < 2 * OrderN() && TwoTo256() < 2 * OrderN() && OrderN() + 3 < TwoTo256()
  {
  }

  /** A number of 256 bits exceeds p by less than either coordinate of G. */
  lemma SlackBelowGenerator()
    ensures TwoTo256() < 2 * PrimeP() && TwoTo256() < GX() + PrimeP() && TwoTo256() < GY() + PrimeP()
  {
  }
}
