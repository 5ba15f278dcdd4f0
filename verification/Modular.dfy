/**
 Modular arithmetic on word arrays: ecdsa_vli_modAdd, modSub, the shift-and-subtract
 reduction ecdsa_vli_mmod with its two swapped buffers, and ecdsa_vli_modMult.
 */
module Modular {
  import opened Arith
  import opened Words
  import opened Mult

  /** Adding d times the weight p of an n-word number is the only way a wrapped value can differ. */
  lemma WrapIsZero(v: int, t: int, d: int, p: int)
    requires v == t + d * p && 0 <= v < p && 0 <= t < p
    ensures d == 0 && v == t
  {
    assert d >= 1 ==> d * p >= p;
    assert d <= -1 ==> d * p <= -p;
  }

  /**
   ecdsa_vli_modAdd. One subtraction is made at most; for reduced operands that is the sum mod m,
   and for unreduced ones it still leaves left + right or left + right - m.
   */
  method VliModAdd(result: array<nat>, left: array<nat>, right: array<nat>, mod: array<nat>, w: nat)
    requires w >= 1 && result.Length == left.Length == right.Length == mod.Length && result != mod
    requires IsWords(left[..], w) && IsWords(right[..], w) && IsWords(mod[..], w)
    requires Val(left[..], w) + Val(right[..], w) < Val(mod[..], w) + Pow(Base(w), mod.Length)
    modifies result
    ensures IsWords(result[..], w)
    ensures var sum := old(Val(left[..], w)) + old(Val(right[..], w));
      Val(result[..], w) == if sum < Val(mod[..], w) then sum else sum - Val(mod[..], w)
  {
    hide *;
    ghost var sum, m, p := Val(left[..], w) + Val(right[..], w), Val(mod[..], w), Pow(Base(w), mod.Length);
    ValBound(mod[..], w);
    var carry := VliAdd(result, left, right, w);
    ValBound(result[..], w);
    assert carry * p == if carry == 0 then 0 else p;
    var cmp := VliCmp(mod, result, w);
    if carry == 1 || cmp != 1 {
      ghost var v := Val(result[..], w);
      var borrow := VliSub(result, result, mod, w);
      ValBound(result[..], w);
      assert borrow * p == if borrow == 0 then 0 else p;
    }
  }

  /** ecdsa_vli_modSub. */
  method VliModSub(result: array<nat>, left: array<nat>, right: array<nat>, mod: array<nat>, w: nat)
    requires w >= 1 && result.Length == left.Length == right.Length == mod.Length && result != mod
    requires IsWords(left[..], w) && IsWords(right[..], w) && IsWords(mod[..], w)
    requires Val(right[..], w) <= Val(left[..], w) + Val(mod[..], w)
    modifies result
    ensures IsWords(result[..], w)
    ensures var l, r := old(Val(left[..], w)), old(Val(right[..], w));
      Val(result[..], w) == if l >= r then l - r else l - r + Val(mod[..], w)
  {
    hide *;
    ghost var p := Pow(Base(w), mod.Length);
    ValBound(left[..], w);
    ValBound(mod[..], w);
    var borrow := VliSub(result, left, right, w);
    ValBound(result[..], w);
    assert borrow * p == if borrow == 0 then 0 else p;
    if borrow == 1 {
      var carry := VliAdd(result, result, mod, w);
      ValBound(result[..], w);
      assert carry * p == if carry == 0 then 0 else p;
    }
  }

  // ------------------------------------------- the shifted modulus of mmod

  /** One word of mod << bits. */
  lemma ShiftWord(x: nat, bits: nat, w: nat)
    requires 0 < bits < w && x < Base(w)
    ensures var low, high := (x * Pow(2, bits)) % Base(w), x / Pow(2, w - bits);
      low + high * Base(w) == x * Pow(2, bits) && low < Base(w) && high < Pow(2, bits) && low % Pow(2, bits) == 0
  {
    hide *;
    var p, q := Pow(2, bits), Pow(2, w - bits);
    BaseSplit(bits, w);
    var high, r := x / q, x % q;
    QuotientParts(x, q);
    ShiftSplit(x, high, r, p, q, Base(w));
  }

  lemma BaseSplit(bits: nat, w: nat)
    requires bits <= w
    ensures Base(w) == Pow(2, bits) * Pow(2, w - bits) && Pow(2, bits) > 0 && Pow(2, w - bits) > 0
  {
    PowAdd(2, bits, w - bits);
  }

  lemma QuotientParts(x: nat, q: nat)
    requires q > 0
    ensures x == (x / q) * q + x % q && x % q < q
  {
  }

  lemma ShiftSplit(x: nat, high: nat, r: nat, p: nat, q: nat, b: nat)
    requires p > 0 && q > 0 && b == p * q && x == high * q + r && r < q && x < b
    ensures b > 0 && (x * p) % b == r * p && (r * p) % p == 0 && r * p < b && r * p + high * b == x * p && high < p
  {
    assert x * p == high * b + r * p;
    MulStrict(r, q, p);
    DivModUnique(x * p, b, high, r * p);
    ModMultiple(r, p);
    if high >= p {
      MulMono(p, high, q);
    }
  }

  lemma ShiftWordStep(done: seq<nat>, m: seq<nat>, i: nat, bits: nat, c: nat, word: nat, c': nat, w: nat)
    requires |done| == i < |m|
    requires Val(done, w) + c * Pow(Base(w), i) == Val(m[..i], w) * Pow(2, bits)
    requires word + c' * Base(w) == m[i] * Pow(2, bits) + c
    ensures Val(done + [word], w) + c' * Pow(Base(w), i + 1) == Val(m[..i + 1], w) * Pow(2, bits)
  {
    hide *;
    AppendWord(done, word, w);
    ValSnoc(m, i, w);
    PowStep(Base(w), i);
    ShiftColumns(Val(done, w), c, Pow(Base(w), i), Val(m[..i], w), Pow(2, bits), word, c', Base(w), m[i],
                 Pow(Base(w), i + 1), Val(m[..i + 1], w));
  }

  lemma ShiftColumns(v: nat, c: nat, p: nat, u: nat, k: nat, word: nat, c': nat, b: nat, x: nat, p': nat, u': nat)
    requires v + c * p == u * k && word + c' * b == x * k + c && p' == b * p && u' == u + x * p
    ensures v + word * p + c' * p' == u' * k
  {
    assert (word + c' * b) * p == word * p + c' * p';
    assert (x * k + c) * p == (x * p) * k + c * p;
    assert (u + x * p) * k == u * k + (x * p) * k;
  }

  /** The words shifted so far and the carry are mod[..i] << bits. */
  ghost predicate ShiftedSoFar(done: seq<nat>, carry: nat, m: seq<nat>, i: nat, bits: nat, w: nat)
  {
    |done| == i <= |m| && IsWords(done, w) && carry < Pow(2, bits)
    && Val(done, w) + carry * Pow(Base(w), i) == Val(m[..i], w) * Pow(2, bits)
  }

  lemma NothingShifted(m: seq<nat>, bits: nat, w: nat)
    ensures ShiftedSoFar([], 0, m, 0, bits, w)
  {
    NoWords(w);
    assert m[..0] == [];
  }

  /** (x << bits) | carry is the low word of x * 2^bits + carry, x >> (w - bits) the rest. */
  lemma ShiftedWordFits(x: nat, c: nat, bits: nat, w: nat)
    requires 0 < bits < w && x < Base(w) && c < Pow(2, bits)
    ensures var word, c' := BitOr((x * Pow(2, bits)) % Base(w), c), x / Pow(2, w - bits);
      word < Base(w) && c' < Pow(2, bits) && word + c' * Base(w) == x * Pow(2, bits) + c
  {
    hide *;
    ShiftWord(x, bits, w);
    var low := (x * Pow(2, bits)) % Base(w);
    BitOrDisjoint(low, c, bits);
    WordFits(low, c, bits, w);
  }

  lemma ShiftNext(done: seq<nat>, c: nat, m: seq<nat>, i: nat, bits: nat, w: nat)
    requires 0 < bits < w && i < |m| && m[i] < Base(w) && ShiftedSoFar(done, c, m, i, bits, w)
    ensures var word := BitOr((m[i] * Pow(2, bits)) % Base(w), c);
      ShiftedSoFar(done + [word], m[i] / Pow(2, w - bits), m, i + 1, bits, w)
  {
    hide Val, Pow, Base, BitOr;
    ShiftedWordFits(m[i], c, bits, w);
    var word, c' := BitOr((m[i] * Pow(2, bits)) % Base(w), c), m[i] / Pow(2, w - bits);
    ShiftWordStep(done, m, i, bits, c, word, c', w);
  }

  /** mod_multiple[lo + index] = (mod[index] << bit_shift) | carry for every word. */
  method ShiftInto(multiple: array<nat>, lo: nat, mod: array<nat>, bits: nat, w: nat) returns (carry: nat)
    requires 0 < bits < w && multiple != mod && multiple.Length == lo + mod.Length && IsWords(mod[..], w)
    modifies multiple
    ensures multiple[..lo] == old(multiple[..lo])
    ensures ShiftedSoFar(multiple[lo..], carry, mod[..], mod.Length, bits, w)
  {
    hide *;
    ghost var m := mod[..];
    carry := 0;
    NothingShifted(m, bits, w);
    assert multiple[lo..lo] == [];
    for index := 0 to mod.Length
      invariant mod[..] == m && multiple[..lo] == old(multiple[..lo])
      invariant ShiftedSoFar(multiple[lo..lo + index], carry, m, index, bits, w)
    {
      ghost var done := multiple[lo..lo + index];
      WordsAt(m, index, w);
      ShiftNext(done, carry, m, index, bits, w);
      multiple[lo + index] := BitOr((mod[index] * Pow(2, bits)) % Base(w), carry);
      carry := mod[index] / Pow(2, w - bits);
      assert multiple[lo..lo + index + 1] == done + [multiple[lo + index]];
    }
    assert multiple[lo..lo + mod.Length] == multiple[lo..];
  }

  lemma WordFits(low: nat, c: nat, bits: nat, w: nat)
    requires 0 < bits < w && low < Base(w) && low % Pow(2, bits) == 0 && c < Pow(2, bits)
    ensures low + c < Base(w)
  {
    var p, q := Pow(2, bits), Pow(2, w - bits);
    assert Base(w) == p * q by { PowAdd(2, bits, w - bits); }
    hide Pow, Base;
    var k := low / p;
    assert low == k * p;
    MultipleBelow(k, p, q, c);
  }

  lemma MultipleBelow(k: nat, p: nat, q: nat, c: nat)
    requires k * p < p * q && c < p
    ensures k * p + c < p * q
  {
    assert k >= q ==> k * p >= q * p;
    MulMono(k + 1, q, p);
    assert (k + 1) * p == k * p + p;
  }

  lemma NoCarryLeft(v: nat, c: nat, p: nat, total: nat)
    requires v + c * p == total && total < p
    ensures c == 0 && v == total
  {
    assert c >= 1 ==> c * p >= p;
  }

  lemma ModulusFits(m: nat, p: nat, bits: nat, numBits: nat, total: nat)
    requires m < Pow(2, numBits) && numBits + bits == total && p == Pow(2, bits)
    ensures m * p < Pow(2, total)
  {
    PowAdd(2, numBits, bits);
    hide Pow;
    MulStrict(m, Pow(2, numBits), p);
  }

  lemma LowZeros(s: seq<nat>, n: nat, w: nat)
    requires n <= |s| && forall i :: 0 <= i < n ==> s[i] == 0
    ensures Val(s, w) == Pow(Base(w), n) * Val(s[n..], w)
  {
    hide *;
    ValSplit(s, n, w);
    ValZeros(s[..n], w);
  }

  /** Splitting shift into whole words and bits, when the modulus uses its top word. */
  lemma ShiftParts(shift: nat, numBits: nat, n: nat, w: nat)
    requires w >= 1 && n >= 1 && w * (n - 1) < numBits <= w * n && shift == 2 * n * w - numBits
    ensures shift / w == n && shift % w + numBits == w * n && shift == n * w + shift % w
  {
    var r := shift - n * w;
    assert 2 * n * w == n * w + n * w;
    assert w * (n - 1) == n * w - w && w * n == n * w;
    DivModUnique(shift, w, n, r);
  }

  /** The first half of ecdsa_vli_mmod: mod << shift in 2n words, its top bit at the maximum position. */
  method ShiftedModulus(mod: array<nat>, w: nat) returns (multiple: array<nat>, shift: nat)
    requires w >= 1 && mod.Length >= 1 && IsWords(mod[..], w) && mod[mod.Length - 1] > 0
    ensures fresh(multiple) && multiple.Length == 2 * mod.Length && IsWords(multiple[..], w)
    ensures Val(multiple[..], w) == Val(mod[..], w) * Pow(2, shift)
    ensures Pow(Base(w), 2 * mod.Length) <= Val(mod[..], w) * Pow(2, shift + 1)
  {
    hide *;
    var n := mod.Length;
    multiple := new nat[2 * n];
    var numBits := VliNumBits(mod, w);
    TopWordNonZero(mod[..], w);
    shift := 2 * n * w - numBits;
    ShiftParts(shift, numBits, n, w);
    var bitShift := shift % w;
    VliClear(multiple, 0, shift / w);
    ghost var m := mod[..];
    ModulusFits(Val(m, w), Pow(2, bitShift), bitShift, numBits, w * n);
    BasePow(w, n);
    if bitShift > 0 {
      var carry := ShiftInto(multiple, n, mod, bitShift, w);
      ShiftFinished(multiple[n..], carry, m, bitShift, w);
    } else {
      VliSet(multiple, n, mod, n);
      assert multiple[n..] == multiple[n..n + n] == m by { assert mod[..n] == m; }
      UnshiftedValue(m, w);
    }
    AssembleMultiple(multiple[..], m, n, bitShift, shift, w);
    HalfRange(Val(m, w), numBits, shift, n, w);
  }

  lemma TopWordNonZero(s: seq<nat>, w: nat)
    requires |s| >= 1 && s[|s| - 1] > 0
    ensures Val(s, w) > 0
  {
    ValZeros(s, w);
  }

  lemma UnshiftedValue(m: seq<nat>, w: nat)
    ensures Val(m, w) == Val(m, w) * Pow(2, 0)
  {
  }

  lemma ShiftedSoFarIs(done: seq<nat>, carry: nat, m: seq<nat>, bits: nat, w: nat) returns (total: nat)
    requires ShiftedSoFar(done, carry, m, |m|, bits, w)
    ensures |done| == |m| && IsWords(done, w)
    ensures total == Val(m, w) * Pow(2, bits) && Val(done, w) + carry * Pow(Base(w), |m|) == total
  {
    assert m[..|m|] == m;
    total := Val(m, w) * Pow(2, bits);
    hide Val, Pow, Base, IsWords;
  }

  lemma ShiftFinished(high: seq<nat>, carry: nat, m: seq<nat>, bits: nat, w: nat)
    requires ShiftedSoFar(high, carry, m, |m|, bits, w) && Val(m, w) * Pow(2, bits) < Pow(Base(w), |m|)
    ensures |high| == |m| && IsWords(high, w) && Val(high, w) == Val(m, w) * Pow(2, bits)
  {
    hide *;
    var total := ShiftedSoFarIs(high, carry, m, bits, w);
    NoCarryLeft(Val(high, w), carry, Pow(Base(w), |m|), total);
  }

  lemma AssembleMultiple(s: seq<nat>, m: seq<nat>, n: nat, bits: nat, shift: nat, w: nat)
    requires |s| == 2 * n && |m| == n && shift == n * w + bits && IsWords(s[n..], w)
    requires forall i :: 0 <= i < n ==> s[..n][i] == 0
    requires Val(s[n..], w) == Val(m, w) * Pow(2, bits)
    ensures IsWords(s, w) && Val(s, w) == Val(m, w) * Pow(2, shift)
  {
    WordsAboveZeros(s, n, w);
    hide *;
    LowZeros(s, n, w);
    WholeWordsUp(n, bits, shift, w);
    ShiftedTwice(Val(m, w), Pow(Base(w), n), Pow(2, bits));
  }

  lemma WholeWordsUp(n: nat, bits: nat, shift: nat, w: nat)
    requires shift == n * w + bits
    ensures Pow(2, shift) == Pow(Base(w), n) * Pow(2, bits)
  {
    hide *;
    BasePow(w, n);
    assert w * n == n * w;
    PowAdd(2, n * w, bits);
  }

  lemma WordsAboveZeros(s: seq<nat>, n: nat, w: nat)
    requires n <= |s| && IsWords(s[n..], w) && forall i :: 0 <= i < n ==> s[..n][i] == 0
    ensures IsWords(s, w) && forall i :: 0 <= i < n ==> s[i] == 0
  {
    hide Base;
    assert forall i :: 0 <= i < n ==> s[i] == s[..n][i];
    assert forall i :: n <= i < |s| ==> s[i] == s[n..][i - n];
  }

  lemma ShiftedTwice(v: nat, p: nat, q: nat)
    ensures p * (v * q) == v * (p * q)
  {
  }

  lemma HalfRange(m: nat, numBits: nat, shift: nat, n: nat, w: nat)
    requires numBits >= 1 && Pow(2, numBits - 1) <= m && shift + numBits == 2 * n * w
    ensures Pow(Base(w), 2 * n) <= m * Pow(2, shift + 1)
  {
    hide *;
    BasePow(w, 2 * n);
    assert w * (2 * n) == 2 * n * w;
    PowAdd(2, numBits - 1, shift + 1);
    MulMono(Pow(2, numBits - 1), m, Pow(2, shift + 1));
  }

  // ---------------------------------------------------- halving 2n words

  lemma TopWordLow(s: seq<nat>, w: nat)
    requires w >= 1 && |s| >= 1 && IsWords(s, w) && 2 * Val(s, w) < Pow(Base(w), |s|)
    ensures s[|s| - 1] < HighBit(w)
  {
    var n := |s| - 1;
    var p, h := Pow(Base(w), n), HighBit(w);
    assert s[..n + 1] == s;
    hide Val, IsWords, Pow, HighBit;
    ValSnoc(s, n, w);
    PowStep(Base(w), n);
    TopBelowHalf(Val(s[..n], w), s[n], p, h, Base(w));
  }

  lemma TopBelowHalf(low: nat, x: nat, p: nat, h: nat, b: nat)
    requires b == 2 * h && 2 * (low + x * p) < b * p && p > 0
    ensures x < h
  {
    assert b * p == 2 * (h * p);
    assert x >= h ==> x * p >= h * p;
  }

  lemma LowBit(s: seq<nat>, w: nat)
    requires w >= 1 && |s| >= 1
    ensures Val(s, w) % 2 == s[0] % 2
  {
    var h := HighBit(w);
    assert Base(w) * Val(s[1..], w) == 2 * (h * Val(s[1..], w));
  }

  lemma EvenPower(n: nat, w: nat)
    requires w >= 1 && n >= 1
    ensures Pow(Base(w), n) == 2 * (HighBit(w) * Pow(Base(w), n - 1))
  {
    var h, p := HighBit(w), Pow(Base(w), n - 1);
    assert (2 * h) * p == 2 * (h * p);
  }

  lemma HalveJoined(low: nat, high: nat, half: nat, bit: nat)
    requires bit == high % 2
    ensures (low + (2 * half) * high) / 2 == low / 2 + bit * half + (2 * half) * (high / 2)
  {
    var q := high / 2;
    assert high == 2 * q + bit;
    assert (2 * half) * high == 2 * (half * high);
    assert half * high == (2 * half) * q + bit * half;
  }

  lemma BitMoves(x: nat, y: nat, w: nat)
    requires w >= 1 && x < HighBit(w)
    ensures BitOr(x, (y * Pow(2, w - 1)) % Base(w)) == x + (y % 2) * HighBit(w) < Base(w)
  {
    var h := HighBit(w);
    LostBit(y, h);
    ModMultiple(y % 2, h);
    hide BitOr;
    BitOrDisjoint((y % 2) * h, x, w - 1);
  }

  lemma HalfBelow(v: nat, p: nat)
    requires v < p
    ensures 2 * (v / 2) < p
  {
  }

  lemma JoinHalvesVal(s: seq<nat>, t: seq<nat>, n: nat, bit: nat, w: nat)
    requires w >= 1 && n >= 1 && |s| == |t| == 2 * n
    requires bit == Val(s[n..], w) % 2
    requires Val(t[..n], w) == Val(s[..n], w) / 2 + bit * (HighBit(w) * Pow(Base(w), n - 1))
    requires Val(t[n..], w) == Val(s[n..], w) / 2
    ensures Val(t, w) == Val(s, w) / 2
  {
    hide *;
    ValSplit(s, n, w);
    ValSplit(t, n, w);
    EvenPower(n, w);
    HalveJoined(Val(s[..n], w), Val(s[n..], w), HighBit(w) * Pow(Base(w), n - 1), bit);
  }

  lemma TopBitValue(low: seq<nat>, bit: nat, w: nat)
    requires w >= 1 && |low| >= 1
    ensures Val(low[|low| - 1 := low[|low| - 1] + bit * HighBit(w)], w)
         == Val(low, w) + bit * (HighBit(w) * Pow(Base(w), |low| - 1))
  {
    hide *;
    ValUpdate(low, |low| - 1, low[|low| - 1] + bit * HighBit(w), w);
    MulAssoc(bit, HighBit(w), Pow(Base(w), |low| - 1));
  }

  /** rshift1 on the low half, whose top bit becomes the low bit of the high half. */
  method HalveLow(multiple: array<nat>, n: nat, w: nat)
    requires w >= 1 && n >= 1 && multiple.Length == 2 * n && IsWords(multiple[..], w)
    modifies multiple
    ensures IsWords(multiple[..], w) && multiple[n..] == old(multiple[n..])
    ensures Val(multiple[..n], w) == old(Val(multiple[..n], w)) / 2
                                   + old(Val(multiple[n..], w)) % 2 * (HighBit(w) * Pow(Base(w), n - 1))
  {
    hide *;
    ghost var s := multiple[..];
    WordsSlice(s, n, w);
    ValBound(s[..n], w);
    LowBit(s[n..], w);
    HalfBelow(Val(s[..n], w), Pow(Base(w), n));
    assert multiple[0..n] == s[..n] == multiple[..n] && multiple[n..] == s[n..];
    VliRshift1(multiple, 0, n, w);
    ghost var t := multiple[..];
    ghost var low := t[..n];
    assert multiple[0..n] == low && multiple[n] == s[n] && s[n..][0] == s[n];
    WordsSlice(t, n, w);
    TopWordLow(low, w);
    BitMoves(multiple[n - 1], multiple[n], w);
    TopBitValue(low, s[n] % 2, w);
    multiple[n - 1] := BitOr(multiple[n - 1], (multiple[n] * Pow(2, w - 1)) % Base(w));
    WordsUpdate(t, n - 1, multiple[n - 1], w);
    assert multiple[..] == t[n - 1 := multiple[n - 1]];
    assert multiple[..n] == low[n - 1 := multiple[n - 1]];
  }

  /** The shift of mod_multiple at the end of each round of mmod: two half shifts and the bit between them. */
  method HalveMultiple(multiple: array<nat>, n: nat, w: nat)
    requires w >= 1 && n >= 1 && multiple.Length == 2 * n && IsWords(multiple[..], w)
    modifies multiple
    ensures IsWords(multiple[..], w) && Val(multiple[..], w) == old(Val(multiple[..], w)) / 2
  {
    hide *;
    ghost var s := multiple[..];
    assert s[..n] == multiple[..n] && s[n..] == multiple[n..];
    HalveLow(multiple, n, w);
    ghost var u := multiple[..n];
    assert multiple[n..n + n] == s[n..];
    VliRshift1(multiple, n, n, w);
    assert multiple[n..n + n] == multiple[..][n..];
    assert multiple[..][..n] == u;
    JoinHalvesVal(s, multiple[..], n, Val(s[n..], w) % 2, w);
  }

  // -------------------------------------------------------- ecdsa_vli_mmod

  /** What holds at the head of the loop: v is congruent to the product and below twice the next multiple. */
  ghost predicate MmodInvariant(v: nat, multiple: nat, product: nat, m: nat, shift: int)
    requires m > 0
  {
    shift >= -1 && v % m == product % m && v < m * Pow(2, shift + 1)
    && (shift >= 0 ==> multiple == m * Pow(2, shift))
  }

  lemma MmodStep(v: nat, multiple: nat, product: nat, m: nat, shift: nat, v': nat, keep: bool)
    requires m > 0 && MmodInvariant(v, multiple, product, m, shift)
    requires keep == (v < multiple) && v' == if keep then v else v - multiple
    ensures MmodInvariant(v', multiple / 2, product, m, shift - 1)
  {
    hide *;
    var p := Pow(2, shift);
    MmodIs(v, multiple, product, m, shift);
    MmodIs(v', multiple / 2, product, m, shift - 1);
    Pow2Step(shift);
    TwiceProduct(m, p);
    if !keep {
      assert v' == v + (-p) * m;
      ModAddMultiple(v, -p, m);
    }
    if shift >= 1 {
      Pow2Step(shift - 1);
      TwiceProduct(m, Pow(2, shift - 1));
    }
  }

  lemma MmodIs(v: nat, multiple: nat, product: nat, m: nat, shift: int)
    requires m > 0
    ensures MmodInvariant(v, multiple, product, m, shift)
       <==> shift >= -1 && v % m == product % m && v < m * Pow(2, shift + 1)
            && (shift >= 0 ==> multiple == m * Pow(2, shift))
  {
    hide Pow;
  }

  lemma TwiceProduct(m: nat, p: nat)
    ensures m * (2 * p) == 2 * (m * p)
  {
  }

  /** ecdsa_vli_mmod: result = product % mod, for a 2n-word product; product is used as a buffer. */
  method VliMmod(result: array<nat>, product: array<nat>, mod: array<nat>, w: nat)
    requires w >= 1 && mod.Length >= 1 && result.Length == mod.Length && product.Length == 2 * mod.Length
    requires result != product && result != mod && product != mod
    requires IsWords(product[..], w) && IsWords(mod[..], w) && mod[mod.Length - 1] > 0
    modifies result, product
    ensures IsWords(result[..], w) && Val(mod[..], w) > 0
    ensures Val(result[..], w) == old(Val(product[..], w)) % Val(mod[..], w)
  {
    hide *;
    var n := mod.Length;
    ghost var m, x := Val(mod[..], w), Val(product[..], w);
    TopWordNonZero(mod[..], w);
    ValBound(product[..], w);
    ValBound(mod[..], w);
    var multiple, top := ShiftedModulus(mod, w);
    var tmp := new nat[2 * n];
    VliClear(tmp, 0, 2 * n);
    ZeroWords(tmp[..], w);
    var v := [tmp, product];
    var index := 1;
    var shift: int := top;
    MmodStart(x, Val(multiple[..], w), m, top, Pow(Base(w), 2 * n));
    while shift >= 0
      invariant shift >= -1 && 0 <= index <= 1 && v == [tmp, product]
      invariant fresh(multiple) && fresh(tmp) && tmp != multiple && tmp.Length == multiple.Length == 2 * n
      invariant mod[..] == old(mod[..]) && m == Val(mod[..], w)
      invariant IsWords(tmp[..], w) && IsWords(product[..], w) && IsWords(multiple[..], w)
      invariant MmodInvariant(Val(v[index][..], w), Val(multiple[..], w), x, m, shift)
      decreases shift
    {
      ghost var before, limit := Val(v[index][..], w), Val(multiple[..], w);
      var borrow := VliSub(v[1 - index], v[index], multiple, w);
      ValBound(v[1 - index][..], w);
      ValBound(multiple[..], w);
      ValBound(v[index][..], w);
      BorrowTells(before, limit, Val(v[1 - index][..], w), borrow, Pow(Base(w), 2 * n));
      index := if index == borrow then 1 else 0; // !(index ^ borrow)
      ghost var after := Val(v[index][..], w);
      HalveMultiple(multiple, n, w);
      assert Val(v[index][..], w) == after;
      MmodStep(before, limit, x, m, shift, after, borrow == 1);
      shift := shift - 1;
    }
    VliSet(result, 0, v[index], n);
    assert result[0..n] == result[..];
    MmodEnd(v[index][..], Val(multiple[..], w), x, mod[..], shift, w);
  }

  lemma ZeroWords(s: seq<nat>, w: nat)
    requires forall i :: 0 <= i < |s| ==> s[i] == 0
    ensures IsWords(s, w)
  {
  }

  lemma MmodStart(x: nat, multiple: nat, m: nat, shift: nat, p: nat)
    requires m > 0 && x < p && multiple == m * Pow(2, shift) && p <= m * Pow(2, shift + 1)
    ensures MmodInvariant(x, multiple, x, m, shift)
  {
  }

  lemma BorrowTells(x: nat, y: nat, z: nat, borrow: nat, p: nat)
    requires borrow <= 1 && z - borrow * p == x - y && z < p && x < p
    ensures (borrow == 1 <==> x < y) && (borrow == 0 ==> z == x - y)
  {
  }

  lemma MmodEnd(s: seq<nat>, multiple: nat, x: nat, mod: seq<nat>, shift: int, w: nat)
    requires |s| == 2 * |mod| && IsWords(s, w) && IsWords(mod, w) && Val(mod, w) > 0
    requires shift == -1 && MmodInvariant(Val(s, w), multiple, x, Val(mod, w), shift)
    ensures IsWords(s[..|mod|], w) && Val(s[..|mod|], w) == x % Val(mod, w)
  {
    assert Pow(2, 0) == 1;
    var m, n := Val(mod, w), |mod|;
    ModSmall(Val(s, w), m);
    hide Val, Pow, Base;
    WordsSlice(s, n, w);
    ValBound(mod, w);
    ValLow(s, n, w);
    ModSmall(Val(s, w), Pow(Base(w), n));
  }

  /** ecdsa_vli_modMult: result = left * right % mod. */
  method VliModMult(result: array<nat>, left: array<nat>, right: array<nat>, mod: array<nat>, w: nat)
    requires w >= 1 && 1 <= mod.Length <= Base(w)
    requires result.Length == left.Length == right.Length == mod.Length && result != mod
    requires IsWords(left[..], w) && IsWords(right[..], w) && IsWords(mod[..], w) && mod[mod.Length - 1] > 0
    modifies result
    ensures IsWords(result[..], w) && Val(mod[..], w) > 0
    ensures Val(result[..], w) == (old(Val(left[..], w)) * old(Val(right[..], w))) % Val(mod[..], w)
  {
    hide *;
    var product := new nat[2 * mod.Length];
    VliMult(product, left, right, w);
    VliMmod(result, product, mod, w);
  }
}
