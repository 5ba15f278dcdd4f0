/**
 bits2int: the integer of a message digest. The bytes are cut to the bit length of the group order and
 only reduced when bits had to be shifted out; otherwise the integer may exceed the order.
 */
module Digest {
  import opened Arith
  import opened Words
  import opened Bytes
  import opened Keys

  /** How many leading bytes of the digest are used: BITS_TO_BYTES(num_n_bits) at most. */
  function UsedBytes(size: nat, numBits: nat): (k: nat)
    ensures k <= size && 8 * k < numBits + 8
  {
    if size > (numBits + 7) / 8 then (numBits + 7) / 8 else size
  }

  /** The leftmost numBits bits of a digest, as SEC 1 v2 section 4.1.3 step 5 takes them. */
  function LeftmostBits(bits: seq<nat>, numBits: nat): (r: nat)
  {
    var k := UsedBytes(|bits|, numBits);
    if 8 * k <= numBits then BigEndian(bits[..k]) else BigEndian(bits[..k]) / Pow(2, 8 * k - numBits)
  }

  /** What bits2int leaves in native. */
  function DigestInt(bits: seq<nat>, n: nat, numBits: nat): (r: nat)
  {
    var v := LeftmostBits(bits, numBits);
    if 8 * UsedBytes(|bits|, numBits) > numBits && v >= n then v - n else v
  }

  lemma LeftmostRange(bits: seq<nat>, numBits: nat)
    requires IsBytes(bits)
    ensures LeftmostBits(bits, numBits) < Pow(2, numBits)
  {
    hide *;
    var k := UsedBytes(|bits|, numBits);
    var v := BigEndian(bits[..k]);
    BytesPrefix(bits, k);
    BigEndianBound(bits[..k]);
    BytePower(k);
    LeftmostIs(bits, numBits, k);
    if 8 * k <= numBits {
      PowMonotone(2, 8 * k, numBits);
    } else {
      PowAdd(2, numBits, 8 * k - numBits);
      PowPositive(2, 8 * k - numBits);
      QuotientBelow(v, Pow(2, 8 * k - numBits), Pow(2, numBits));
    }
  }

  lemma LeftmostIs(bits: seq<nat>, numBits: nat, k: nat)
    requires k == UsedBytes(|bits|, numBits)
    ensures 8 * k <= numBits ==> LeftmostBits(bits, numBits) == BigEndian(bits[..k])
    ensures 8 * k > numBits ==> LeftmostBits(bits, numBits) == BigEndian(bits[..k]) / Pow(2, 8 * k - numBits)
  {
    hide BigEndian, Pow;
  }

  /** They are what remains of the whole digest's number when the bits beyond the first numBits are dropped. */
  lemma LeftmostLaw(bits: seq<nat>, numBits: nat)
    requires IsBytes(bits)
    ensures LeftmostBits(bits, numBits)
         == if 8 * |bits| <= numBits then BigEndian(bits) else BigEndian(bits) / Pow(2, 8 * |bits| - numBits)
  {
    hide *;
    var k, size := UsedBytes(|bits|, numBits), |bits|;
    LeftmostIs(bits, numBits, k);
    UsedIs(size, numBits);
    assert bits[..k] + bits[k..] == bits;
    if 8 * size <= numBits {
      assert k == size && bits[..k] == bits;
    } else {
      var v, low := BigEndian(bits[..k]), BigEndian(bits[k..]);
      BigEndianConcat(bits[..k], bits[k..]);
      BytesSuffixOf(bits, k);
      BigEndianBound(bits[k..]);
      BytePower(size - k);
      PowAdd(2, 8 * k - numBits, 8 * (size - k));
      PowPositive(2, 8 * k - numBits);
      PowPositive(2, 8 * (size - k));
      DropTwice(v, low, Pow(2, 8 * (size - k)), Pow(2, 8 * k - numBits));
      DividedByOne(v);
      PowZero();
    }
  }

  lemma BytesSuffixOf(s: seq<nat>, k: nat)
    requires IsBytes(s) && k <= |s|
    ensures IsBytes(s[k..])
  {
  }

  lemma DropTwice(v: nat, low: nat, p: nat, q: nat)
    requires low < p && q > 0
    ensures q * p > 0 && (v * p + low) / (q * p) == v / q
  {
    var a, b := v / q, v % q;
    assert v == a * q + b;
    assert (a * q + b) * p + low == a * (q * p) + (b * p + low);
    assert b * p + low < q * p by { assert (b + 1) * p <= q * p; }
    assert q * p > 0;
    DivModUnique(v * p + low, q * p, a, b * p + low);
  }

  lemma QuotientBelow(v: nat, p: nat, q: nat)
    requires p > 0 && v < q * p
    ensures v / p < q
  {
    var d := v / p;
    assert v == d * p + v % p;
    if d >= q {
      MulMono(q, d, p);
    }
  }

  /** The integer is the leftmost bits modulo n, and it is below n whenever bits were shifted out. */
  lemma DigestLaw(bits: seq<nat>, n: nat, numBits: nat)
    requires IsBytes(bits) && ExactBits(n, numBits)
    ensures DigestInt(bits, n, numBits) % n == LeftmostBits(bits, numBits) % n
    ensures DigestInt(bits, n, numBits) < Pow(2, numBits)
    ensures DigestInt(bits, n, numBits) >= n
       <==> 8 * UsedBytes(|bits|, numBits) <= numBits && LeftmostBits(bits, numBits) >= n
  {
    hide *;
    LeftmostRange(bits, numBits);
    ExactBitsAre(n, numBits);
    DigestIs(bits, n, numBits);
    OneSubtraction(LeftmostBits(bits, numBits), n, Pow(2, numBits), 8 * UsedBytes(|bits|, numBits) > numBits,
                   DigestInt(bits, n, numBits));
  }

  lemma OneSubtraction(v: nat, n: nat, p: nat, shifted: bool, x: nat)
    requires v < p && n < p <= 2 * n && x == if shifted && v >= n then v - n else v
    ensures x % n == v % n && x < p && (x >= n <==> !shifted && v >= n)
  {
    ModAddMultiple(v, -1, n);
  }

  // ------------------------------------------------------------ the shift

  lemma ShiftedDown(temp: nat, low: nat, p: nat, h: nat, shift: nat, w: nat)
    requires 0 < shift < w && p == Pow(2, shift) && h == Pow(2, w - shift) && temp < Base(w) && low < p
    ensures BitOr(temp / p, low * h) == temp / p + low * h < Base(w)
    ensures (temp * h) % Base(w) == (temp % p) * h
  {
    hide *;
    PowPositive(2, shift);
    PowPositive(2, w - shift);
    BaseIsPow(w);
    PowAdd(2, shift, w - shift);
    ShiftParts(temp, low, p, h, Base(w));
    ModMultiple(low, h);
    var x := low * h;
    BitOrDisjoint(x, temp / p, w - shift);
  }

  lemma ShiftParts(temp: nat, low: nat, p: nat, h: nat, b: nat)
    requires p > 0 && h > 0 && b == p * h && temp < b && low < p
    ensures temp / p < h && temp / p + low * h < b && (temp * h) % b == (temp % p) * h
  {
    var q, r := temp / p, temp % p;
    assert temp == q * p + r;
    assert p * h == h * p;
    QuotientBelow(temp, p, h);
    MulMono(low + 1, p, h);
    assert (low + 1) * h == low * h + h;
    hide *;
    ScaledRemainder(temp, q, r, p, h, b);
  }

  lemma ScaledRemainder(temp: nat, q: nat, r: nat, p: nat, h: nat, b: nat)
    requires p > 0 && h > 0 && b == p * h && temp == q * p + r && r < p
    ensures b > 0 && (temp * h) % b == r * h
  {
    assert temp * h == q * b + r * h;
    MulMono(r + 1, p, h);
    assert (r + 1) * h == r * h + h;
    DivModUnique(temp * h, b, q, r * h);
  }

  lemma ShiftDownColumn(temp: nat, low: nat, p: nat, h: nat, b: nat, upper: nat)
    requires p > 0 && b == p * h
    ensures p * (temp / p + low * h + b * upper) + temp % p == temp + b * (p * upper + low)
  {
    var q, r := temp / p, temp % p;
    assert temp == p * q + r;
    hide *;
    ShiftDownTerms(q, low, p, h, b, upper);
  }

  lemma ShiftDownTerms(q: nat, low: nat, p: nat, h: nat, b: nat, upper: nat)
    requires b == p * h
    ensures p * (q + low * h + b * upper) == p * q + b * (p * upper + low)
  {
    assert p * (low * h) == b * low;
    assert p * (b * upper) == b * (p * upper);
  }

  ghost predicate ShiftedFrom(done: seq<nat>, s: seq<nat>, i: nat, low: nat, shift: nat, w: nat)
  {
    i <= |s| && low < Pow(2, shift) && IsWords(done, w)
    && Pow(2, shift) * Val(done, w) + low == Val(s[i..], w)
  }

  lemma ShiftedIs(done: seq<nat>, s: seq<nat>, i: nat, low: nat, shift: nat, w: nat)
    ensures ShiftedFrom(done, s, i, low, shift, w)
       <==> i <= |s| && low < Pow(2, shift) && IsWords(done, w)
            && Pow(2, shift) * Val(done, w) + low == Val(s[i..], w)
  {
    hide Val, Pow, IsWords;
  }

  lemma ShiftedStart(s: seq<nat>, shift: nat, w: nat)
    ensures ShiftedFrom([], s, |s|, 0, shift, w)
  {
    assert s[|s|..] == [];
    NoWords(w);
    assert Pow(2, shift) * 0 == 0;
  }

  lemma ConsWord(done: seq<nat>, x: nat, w: nat)
    requires IsWords(done, w) && x < Base(w)
    ensures IsWords([x] + done, w) && Val([x] + done, w) == x + Base(w) * Val(done, w)
  {
    assert ([x] + done)[1..] == done;
    ValHead([x] + done, w);
    hide Val, Base;
  }

  /** One word down: what the loop stores, and the bits it carries on. */
  lemma ShiftedNext(done: seq<nat>, s: seq<nat>, i: nat, low: nat, shift: nat, w: nat,
                    p: nat, h: nat, carry: nat, x: nat, next: nat)
    requires 0 < shift < w && i < |s| && IsWords(s, w) && ShiftedFrom(done, s, i + 1, low, shift, w)
    requires p == Pow(2, shift) && h == Pow(2, w - shift) && carry == low * h && p > 0 && Base(w) > 0
    requires x == BitOr(s[i] / p, carry) && next == (s[i] * h) % Base(w)
    ensures ShiftedFrom([x] + done, s, i, s[i] % p, shift, w) && next == (s[i] % p) * h
  {
    hide *;
    WordsAt(s, i, w);
    assert low < p by { ShiftedIs(done, s, i + 1, low, shift, w); }
    ShiftedDown(s[i], low, p, h, shift, w);
    ShiftedNextAt(done, s, i, low, shift, w, p, h, x, s[i] % p);
  }

  lemma ShiftedNextAt(done: seq<nat>, s: seq<nat>, i: nat, low: nat, shift: nat, w: nat, p: nat, h: nat, x: nat, r: nat)
    requires 0 < shift < w && i < |s| && IsWords(s, w) && ShiftedFrom(done, s, i + 1, low, shift, w)
    requires p == Pow(2, shift) && h == Pow(2, w - shift) && p > 0
    requires x == s[i] / p + low * h < Base(w) && r == s[i] % p
    ensures ShiftedFrom([x] + done, s, i, r, shift, w)
  {
    hide *;
    ShiftedIs(done, s, i + 1, low, shift, w);
    ConsWord(done, x, w);
    ValCons(s, i, w);
    BaseIsPow(w);
    PowAdd(2, shift, w - shift);
    NextColumn(s[i], low, p, h, Base(w), Val(done, w), Val(s[i + 1..], w), x, Val([x] + done, w), Val(s[i..], w));
    Remainder(s[i], p);
    ShiftedIs([x] + done, s, i, r, shift, w);
  }

  lemma Remainder(a: nat, p: nat)
    requires p > 0
    ensures a % p < p
  {
  }

  lemma NextColumn(temp: nat, low: nat, p: nat, h: nat, b: nat, upper: nat, rest: nat, x: nat, v: nat, whole: nat)
    requires p > 0 && b == p * h && x == temp / p + low * h && v == x + b * upper && whole == temp + b * rest
    requires p * upper + low == rest
    ensures p * v + temp % p == whole
  {
    hide *;
    ShiftDownColumn(temp, low, p, h, b, upper);
  }

  lemma ShiftedEnd(done: seq<nat>, s: seq<nat>, low: nat, shift: nat, w: nat)
    requires ShiftedFrom(done, s, 0, low, shift, w)
    ensures IsWords(done, w) && Pow(2, shift) > 0 && Val(done, w) == Val(s, w) / Pow(2, shift)
  {
    hide *;
    ShiftedIs(done, s, 0, low, shift, w);
    assert s[0..] == s;
    PowPositive(2, shift);
    assert Pow(2, shift) * Val(done, w) == Val(done, w) * Pow(2, shift);
    DivModUnique(Val(s, w), Pow(2, shift), Val(done, w), low);
  }

  /** The loop of bits2int: shifts all words right by less than a word. */
  method ShiftRight(native: array<nat>, shift: nat, w: nat)
    requires 0 < shift < w && IsWords(native[..], w)
    modifies native
    ensures IsWords(native[..], w)
    ensures Pow(2, shift) > 0 && Val(native[..], w) == old(Val(native[..], w)) / Pow(2, shift)
  {
    hide *;
    ghost var s := native[..];
    ghost var low: nat := 0;
    var carry := 0;
    var i := native.Length;
    ShiftedStart(s, shift, w);
    assert native[i..] == [];
    PowPositive(2, shift);
    BasePositive(w);
    while i > 0
      invariant 0 <= i <= native.Length && native[..i] == s[..i]
      invariant carry == low * Pow(2, w - shift)
      invariant ShiftedFrom(native[i..], s, i, low, shift, w)
    {
      i := i - 1;
      ghost var done := native[i + 1..];
      var temp := native[i];
      assert temp == s[..i + 1][i];
      ghost var before := carry;
      native[i] := BitOr(temp / Pow(2, shift), carry);
      carry := (temp * Pow(2, w - shift)) % Base(w);
      ShiftedNext(done, s, i, low, shift, w, Pow(2, shift), Pow(2, w - shift), before, native[i], carry);
      low := temp % Pow(2, shift);
      assert native[i..] == [native[i]] + done;
      assert s[..i + 1][..i] == s[..i];
    }
    assert native[0..] == native[..];
    ShiftedEnd(native[..], s, low, shift, w);
  }

  // -------------------------------------------------------------- bits2int

  lemma EnoughWords(k: nat, numBits: nat, wordBytes: nat, n: nat)
    requires wordBytes >= 1 && 8 * k < numBits + 8 && numBits <= (8 * wordBytes) * n
    ensures WordsFor(k, wordBytes) <= n
  {
    assert (8 * wordBytes) * n == 8 * (wordBytes * n);
    var m := wordBytes * n;
    assert k <= m;
    var q := (k + (wordBytes - 1)) / wordBytes;
    assert q * wordBytes <= k + (wordBytes - 1);
    assert (n + 1) * wordBytes == m + wordBytes;
    if q >= n + 1 {
      MulMono(n + 1, q, wordBytes);
    }
  }

  lemma ZeroAbove(s: seq<nat>, k: nat, w: nat)
    requires k <= |s| && IsWords(s[..k], w) && forall i :: k <= i < |s| ==> s[i] == 0
    ensures IsWords(s, w) && Val(s, w) == Val(s[..k], w)
  {
    var high := s[k..];
    assert forall i :: 0 <= i < |high| ==> high[i] == s[k + i];
    ZeroVal(high, w);
    ValSplit(s, k, w);
    assert forall i :: 0 <= i < k ==> s[i] == s[..k][i];
    hide Val;
    assert Pow(Base(w), k) * 0 == 0;
  }

  lemma DigestIs(bits: seq<nat>, n: nat, numBits: nat)
    ensures DigestInt(bits, n, numBits)
         == (if 8 * UsedBytes(|bits|, numBits) > numBits && LeftmostBits(bits, numBits) >= n
             then LeftmostBits(bits, numBits) - n else LeftmostBits(bits, numBits))
  {
    hide LeftmostBits, UsedBytes;
  }

  lemma UsedIs(size: nat, numBits: nat)
    ensures UsedBytes(size, numBits) == if size > (numBits + 7) / 8 then (numBits + 7) / 8 else size
  {
  }

  /** bits2int */
  method Bits2Int(native: array<nat>, bits: array<nat>, bitsSize: nat, n: array<nat>, numBits: nat, wordBytes: nat)
    requires wordBytes >= 1 && native.Length == n.Length && native != n && native != bits
    requires bitsSize <= bits.Length && IsBytes(bits[..bitsSize])
    requires IsWords(n[..], 8 * wordBytes) && numBits <= (8 * wordBytes) * n.Length
    modifies native
    ensures IsWords(native[..], 8 * wordBytes)
    ensures Val(native[..], 8 * wordBytes) == DigestInt(bits[..bitsSize], Val(n[..], 8 * wordBytes), numBits)
  {
    hide *;
    ghost var w, s := 8 * wordBytes, bits[..bitsSize];
    ghost var nv := Val(n[..], w);
    UsedIs(bitsSize, numBits);
    var size := if bitsSize > (numBits + 7) / 8 then (numBits + 7) / 8 else bitsSize;
    EnoughWords(size, numBits, wordBytes, n.Length);
    DigestIs(s, nv, numBits);
    LeftmostIs(s, numBits, size);
    VliClear(native, 0, native.Length);
    assert bits[0..0 + size] == s[..size];
    BytesPrefix(s, size);
    ghost var k := WordsFor(size, wordBytes);
    BytesToNative(native, bits, 0, size, wordBytes);
    assert forall i :: k <= i < native.Length ==> native[i] == native[k..][i - k];
    assert native[..][..k] == native[..k];
    ZeroAbove(native[..], k, w);
    if size * 8 <= numBits {
      return;
    }
    ShiftRight(native, size * 8 - numBits, 8 * wordBytes);
    var c := VliCmp(n, native, 8 * wordBytes);
    if c != 1 {
      ghost var v := Val(native[..], w);
      var borrow := VliSub(native, native, n, 8 * wordBytes);
      ValBound(native[..], w);
      NoBorrow(Val(native[..], w), borrow, v - nv, Pow(Base(w), n.Length));
    }
  }

  lemma BytesPrefix(s: seq<nat>, k: nat)
    requires k <= |s| && IsBytes(s)
    ensures IsBytes(s[..k])
  {
  }
}
