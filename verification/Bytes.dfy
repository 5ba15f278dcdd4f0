/**
 The conversions between big-endian byte strings and little-endian words:
 ecdsa_vli_nativeToBytes and ecdsa_vli_bytesToNative for words of w = 8 * wordBytes bits.
 */
module Bytes {
  import opened Arith
  import opened Words

  predicate IsBytes(s: seq<nat>)
  {
    IsWords(s, 8)
  }

  /** The number a byte string stands for, most significant byte first (SEC 1 v2 section 2.3.8). */
  function BigEndian(s: seq<nat>): (r: nat)
  {
    if |s| == 0 then 0 else 256 * BigEndian(s[..|s| - 1]) + s[|s| - 1]
  }

  lemma ByteBase()
    ensures Base(8) == 256 == Pow(2, 8)
  {
    assert Pow(2, 8) == 256;
  }

  lemma BytePower(n: nat)
    ensures Pow(256, n) == Pow(2, 8 * n)
  {
    ByteBase();
    BasePow(8, n);
  }

  lemma ByteRange(s: seq<nat>, i: nat)
    requires IsBytes(s) && i < |s|
    ensures s[i] < 256
  {
    ByteBase();
  }

  lemma BigEndianSnoc(s: seq<nat>, i: nat)
    requires i < |s|
    ensures BigEndian(s[..i + 1]) == 256 * BigEndian(s[..i]) + s[i]
  {
    var t := s[..i + 1];
    assert t[..|t| - 1] == s[..i];
  }

  lemma {:induction false} BigEndianBound(s: seq<nat>)
    requires IsBytes(s)
    ensures BigEndian(s) < Pow(256, |s|)
  {
    if |s| == 0 {
    } else {
      BigEndianBound(s[..|s| - 1]);
      ByteRange(s, |s| - 1);
      PowStep(256, |s| - 1);
    }
  }

  /** The bytes of s are worth 256 for each byte of t behind them: the most significant byte comes first. */
  lemma {:induction false} BigEndianConcat(s: seq<nat>, t: seq<nat>)
    ensures BigEndian(s + t) == BigEndian(s) * Pow(256, |t|) + BigEndian(t)
  {
    if |t| == 0 {
      assert s + t == s;
    } else {
      var k := |t| - 1;
      assert (s + t)[..|s + t| - 1] == s + t[..k];
      BigEndianConcat(s, t[..k]);
      PowStep(256, k);
      hide *;
      ConcatStep(BigEndian(s), Pow(256, k), BigEndian(t[..k]), t[k]);
    }
  }

  lemma ConcatStep(s: nat, p: nat, t: nat, x: nat)
    ensures 256 * (s * p + t) + x == s * (256 * p) + (256 * t + x)
  {
  }

  /** Byte strings of one length with the same value are the same string. */
  lemma {:induction false} BigEndianInjective(s: seq<nat>, t: seq<nat>)
    requires |s| == |t| && IsBytes(s) && IsBytes(t) && BigEndian(s) == BigEndian(t)
    ensures s == t
  {
    if |s| == 0 {
    } else {
      var k := |s| - 1;
      ByteRange(s, k);
      ByteRange(t, k);
      BigEndianInjective(s[..k], t[..k]);
      assert s == s[..k] + [s[k]] && t == t[..k] + [t[k]];
    }
  }

  // --------------------------------------------------------- nativeToBytes

  /** Byte b of a number sits in word b / wordBytes, at bit 8 * (b % wordBytes). */
  lemma ByteIndex(b: nat, wordBytes: nat, n: nat)
    requires wordBytes >= 1 && b < wordBytes * n
    ensures b / wordBytes < n && b % wordBytes < wordBytes
    ensures 8 * b == (8 * wordBytes) * (b / wordBytes) + 8 * (b % wordBytes)
  {
    WordIndex(b, wordBytes, n);
    MulAssoc(8, wordBytes, b / wordBytes);
  }

  lemma ByteOf(s: seq<nat>, b: nat, wordBytes: nat)
    requires wordBytes >= 1 && b < wordBytes * |s| && IsWords(s, 8 * wordBytes)
    ensures b / wordBytes < |s|
    ensures (s[b / wordBytes] / Pow(2, 8 * (b % wordBytes))) % 256 == (Val(s, 8 * wordBytes) / Pow(2, 8 * b)) % 256
  {
    hide *;
    ByteIndex(b, wordBytes, |s|);
    ByteAt(s, b / wordBytes, b % wordBytes, wordBytes, 8 * b);
  }

  lemma ByteAt(s: seq<nat>, q: nat, r: nat, wordBytes: nat, bit: nat)
    requires q < |s| && r < wordBytes && IsWords(s, 8 * wordBytes) && bit == (8 * wordBytes) * q + 8 * r
    ensures (s[q] / Pow(2, 8 * r)) % 256 == (Val(s, 8 * wordBytes) / Pow(2, bit)) % 256
  {
    hide *;
    var w := 8 * wordBytes;
    ValLow(s, q, w);
    ValCons(s, q, w);
    BasePow(w, q);
    PowAdd(2, w * q, 8 * r);
    PowPositive(2, w * q);
    PowPositive(2, 8 * r);
    ByteSplit(w, 8 * r);
    ByteOfSum(Val(s, w), s[q], Val(s[q + 1..], w), Base(w), Pow(Base(w), q), Pow(2, 8 * r), Pow(2, w - 8 * r - 8));
  }

  lemma ByteSplit(w: nat, k: nat)
    requires k + 8 <= w
    ensures Base(w) == Pow(2, k) * (256 * Pow(2, w - k - 8))
  {
    ByteBase();
    hide *;
    BaseIsPow(w);
    PowAdd(2, k, w - k);
    PowAdd(2, 8, w - k - 8);
  }

  lemma BaseIsPow(w: nat)
    ensures Base(w) == Pow(2, w)
  {
  }

  lemma ByteOfSum(v: nat, x: nat, rest: nat, b: nat, p: nat, q: nat, above: nat)
    requires p > 0 && q > 0 && v / p == x + b * rest && b == q * (256 * above)
    ensures p * q > 0 && (v / (p * q)) % 256 == (x / q) % 256
  {
    var m := above * rest;
    ByteMultiple(q, above, rest, b, m);
    DivDiv(v, p, q);
    DivAddMultiple(x, 256 * m, q);
    hide *;
    ModAddMultiple(x / q, m, 256);
  }

  lemma ByteMultiple(q: nat, above: nat, rest: nat, b: nat, m: nat)
    requires b == q * (256 * above) && m == above * rest
    ensures b * rest == (256 * m) * q
  {
  }

  /** The bits of v from 8k up, in terms of those from 8(k+1) up. */
  lemma NextByte(v: nat, k: nat)
    ensures v / Pow(2, 8 * k) == 256 * (v / Pow(2, 8 * (k + 1))) + (v / Pow(2, 8 * k)) % 256
  {
    ByteBase();
    assert Pow(2, 8 * (k + 1)) == Pow(2, 8 * k) * 256 by { hide *; PowAdd(2, 8 * k, 8); }
    DivDiv(v, Pow(2, 8 * k), 256);
  }

  lemma DividedByOne(v: nat)
    ensures v / Pow(2, 8 * 0) == v
  {
  }

  lemma Residue(v: nat, m: nat)
    requires m > 0
    ensures 0 <= v % m < m
  {
  }

  lemma SmallQuotient(v: nat, p: nat)
    requires v < p
    ensures v / p == 0
  {
    ModSmall(v, p);
  }

  /** The low n bytes of a number are those of its residue. */
  lemma LowByte(v: nat, b: nat, n: nat)
    requires b < n
    ensures Pow(2, 8 * n) > 0
    ensures (v / Pow(2, 8 * b)) % 256 == ((v % Pow(2, 8 * n)) / Pow(2, 8 * b)) % 256
  {
    hide *;
    ByteBase();
    PowPositive(2, 8 * n);
    PowPositive(2, 8 * b);
    PowAdd(2, 8 * b, 8);
    PowAdd(2, 8 * b + 8, 8 * (n - b - 1));
    ByteBelow(v, Pow(2, 8 * n), Pow(2, 8 * b), Pow(2, 8 * (n - b - 1)));
  }

  lemma ByteBelow(v: nat, m: nat, d: nat, h: nat)
    requires m > 0 && d > 0 && m == (d * 256) * h
    ensures (v / d) % 256 == ((v % m) / d) % 256
  {
    var q, r := v / m, v % m;
    assert v == r + m * q;
    ShiftedMultiple(m, d, h, q);
    hide *;
    DivAddMultiple(r, 256 * (h * q), d);
    ModAddMultiple(r / d, h * q, 256);
  }

  lemma ShiftedMultiple(m: nat, d: nat, h: nat, q: nat)
    requires m == (d * 256) * h
    ensures m * q == (256 * (h * q)) * d && 256 * (h * q) == (h * q) * 256
  {
    MulAssoc(d * 256, h, q);
    MulAssoc(d, 256, h * q);
  }

  /** ecdsa_vli_nativeToBytes into bytes[lo..lo + numBytes]; bytes further up are dropped. */
  method NativeToBytes(bytes: array<nat>, lo: nat, numBytes: nat, native: array<nat>, wordBytes: nat)
    requires wordBytes >= 1 && lo + numBytes <= bytes.Length && bytes != native
    requires numBytes <= wordBytes * native.Length && IsWords(native[..], 8 * wordBytes)
    modifies bytes
    ensures IsBytes(bytes[lo..lo + numBytes]) && Pow(2, 8 * numBytes) > 0
    ensures BigEndian(bytes[lo..lo + numBytes]) == Val(native[..], 8 * wordBytes) % Pow(2, 8 * numBytes)
    ensures bytes[..lo] == old(bytes[..lo]) && bytes[lo + numBytes..] == old(bytes[lo + numBytes..])
  {
    hide *;
    PowPositive(2, 8 * numBytes);
    ghost var v := Val(native[..], 8 * wordBytes) % Pow(2, 8 * numBytes);
    Residue(Val(native[..], 8 * wordBytes), Pow(2, 8 * numBytes));
    SmallQuotient(v, Pow(2, 8 * numBytes));
    EmptyBytes();
    assert bytes[lo..lo + 0] == [];
    assert BytesSoFar([], v, numBytes) by { BytesSoFarIs([], v, numBytes); }
    var i := 0;
    while i < numBytes
      invariant 0 <= i <= numBytes
      invariant BytesSoFar(bytes[lo..lo + i], v, numBytes - i)
      invariant forall j :: 0 <= j < lo || lo + numBytes <= j < bytes.Length ==> bytes[j] == old(bytes[j])
    {
      var b := numBytes - 1 - i;
      var x := ByteOfWords(native, b, wordBytes);
      LowByte(Val(native[..], 8 * wordBytes), b, numBytes);
      ghost var done := bytes[lo..lo + i];
      bytes[lo + i] := x;
      assert bytes[lo..lo + i + 1] == done + [x];
      NextBytes(done, v, b, x);
      i := i + 1;
    }
    DividedByOne(v);
    BytesSoFarIs(bytes[lo..lo + numBytes], v, 0);
  }

  /** The bytes written hold the bits of v from 8 * left up. */
  ghost predicate BytesSoFar(s: seq<nat>, v: nat, left: nat)
  {
    IsBytes(s) && BigEndian(s) == v / Pow(2, 8 * left)
  }

  lemma BytesSoFarIs(s: seq<nat>, v: nat, left: nat)
    ensures BytesSoFar(s, v, left) <==> IsBytes(s) && BigEndian(s) == v / Pow(2, 8 * left)
  {
    hide IsBytes, BigEndian, Pow;
  }

  lemma NextBytes(s: seq<nat>, v: nat, b: nat, x: nat)
    requires BytesSoFar(s, v, b + 1) && x == (v / Pow(2, 8 * b)) % 256
    ensures BytesSoFar(s + [x], v, b)
  {
    hide *;
    BytesSoFarIs(s, v, b + 1);
    BytesSoFarIs(s + [x], v, b);
    NextByte(v, b);
    AppendByte(s, x);
  }

  /** (uint8_t) (native[b / ecdsa_WORD_SIZE] >> (8 * (b % ecdsa_WORD_SIZE))) */
  method ByteOfWords(native: array<nat>, b: nat, wordBytes: nat) returns (x: nat)
    requires wordBytes >= 1 && b < wordBytes * native.Length && IsWords(native[..], 8 * wordBytes)
    ensures x == (Val(native[..], 8 * wordBytes) / Pow(2, 8 * b)) % 256
  {
    hide *;
    ByteOf(native[..], b, wordBytes);
    PowPositive(2, 8 * (b % wordBytes));
    x := (native[b / wordBytes] / Pow(2, 8 * (b % wordBytes))) % 256;
  }

  lemma EmptyBytes()
    ensures IsBytes([]) && BigEndian([]) == 0
  {
  }

  lemma AppendByte(s: seq<nat>, x: nat)
    requires IsBytes(s) && x < 256
    ensures IsBytes(s + [x]) && BigEndian(s + [x]) == 256 * BigEndian(s) + x
  {
    ByteBase();
    assert (s + [x])[..|s|] == s;
  }

  // --------------------------------------------------------- bytesToNative

  /** A word whose value sits above bit k leaves room for a byte at bit k - 8. */
  lemma RoomForByte(x: nat, byte: nat, k: nat, w: nat)
    requires k + 8 <= w && x < Base(w) && x % Pow(2, k + 8) == 0 && byte < 256
    ensures BitOr(x, byte * Pow(2, k)) == x + byte * Pow(2, k) < Base(w)
  {
    hide *;
    var p := Pow(2, k);
    ByteSplit(w, k);
    ByteBase();
    PowAdd(2, k, 8);
    PowPositive(2, k);
    var y := byte * p;
    assert y < Pow(2, k + 8) by { MulStrict(byte, 256, p); }
    BitOrDisjoint(x, y, k + 8);
    MulAssoc(p, 256, Pow(2, w - k - 8));
    TopMultiple(x, Pow(2, k + 8), Pow(2, w - k - 8), y);
  }

  lemma TopMultiple(x: nat, m: nat, h: nat, y: nat)
    requires m > 0 && x % m == 0 && x < m * h && y < m
    ensures x + y < m * h
  {
    var q := x / m;
    assert x == q * m;
    assert q >= h ==> q * m >= h * m;
    MulMono(q + 1, h, m);
    assert (q + 1) * m == q * m + m;
  }

  /** The word a byte goes to is a multiple of 2^(8(r+1)) when the whole value is one of 2^(8(b+1)). */
  lemma WordIsMultiple(s: seq<nat>, b: nat, wordBytes: nat, high: nat)
    requires wordBytes >= 1 && b < wordBytes * |s| && IsWords(s, 8 * wordBytes)
    requires Val(s, 8 * wordBytes) == high * Pow(2, 8 * (b + 1))
    ensures b / wordBytes < |s| && s[b / wordBytes] % Pow(2, 8 * (b % wordBytes) + 8) == 0
    ensures Pow(2, 8 * b) == Pow(Base(8 * wordBytes), b / wordBytes) * Pow(2, 8 * (b % wordBytes))
  {
    hide *;
    ByteIndex(b, wordBytes, |s|);
    WordIsMultipleAt(s, b / wordBytes, b % wordBytes, wordBytes, 8 * b, high);
  }

  lemma WordIsMultipleAt(s: seq<nat>, q: nat, r: nat, wordBytes: nat, bit: nat, high: nat)
    requires q < |s| && r < wordBytes && IsWords(s, 8 * wordBytes) && bit == (8 * wordBytes) * q + 8 * r
    requires Val(s, 8 * wordBytes) == high * Pow(2, bit + 8)
    ensures s[q] % Pow(2, 8 * r + 8) == 0
    ensures Pow(2, bit) == Pow(Base(8 * wordBytes), q) * Pow(2, 8 * r)
  {
    hide *;
    var w := 8 * wordBytes;
    BasePow(w, q);
    PowAdd(2, w * q, 8 * r);
    PowAdd(2, w * q, 8 * r + 8);
    PowPositive(2, w * q);
    PowPositive(2, 8 * r + 8);
    ValLow(s, q, w);
    ValCons(s, q, w);
    BaseIsPow(w);
    PowAdd(2, 8 * r + 8, w - 8 * r - 8);
    MultipleBelow(Val(s, w), high, Pow(Base(w), q), Pow(2, 8 * r + 8), s[q], Val(s[q + 1..], w), Base(w),
                  Pow(2, w - 8 * r - 8));
  }

  lemma MultipleBelow(v: nat, high: nat, p: nat, x: nat, word: nat, rest: nat, b: nat, h: nat)
    requires p > 0 && x > 0 && v == high * (p * x) && v / p == word + b * rest && b == x * h
    ensures word % x == 0
  {
    assert v == (high * x) * p + 0;
    DivModUnique(v, p, high * x, 0);
    assert word == 0 + (high - h * rest) * x by { assert b * rest == (h * rest) * x; }
    ModAddMultiple(0, high - h * rest, x);
    ModSmall(0, x);
  }

  lemma PlaceByte(v: nat, high: nat, byte: nat, p: nat, x: nat, y: nat, d: nat)
    requires v == high * (256 * d) && d == p * x && y == byte * x
    ensures v + y * p == (256 * high + byte) * d
  {
  }

  /** Or-ing one byte of the string into its word. */
  lemma OrByte(s: seq<nat>, b: nat, byte: nat, high: nat, wordBytes: nat)
    requires wordBytes >= 1 && b < wordBytes * |s| && IsWords(s, 8 * wordBytes) && byte < 256
    requires Val(s, 8 * wordBytes) == high * Pow(2, 8 * (b + 1))
    ensures b / wordBytes < |s|
    ensures var t := s[b / wordBytes := BitOr(s[b / wordBytes], byte * Pow(2, 8 * (b % wordBytes)))];
      IsWords(t, 8 * wordBytes) && Val(t, 8 * wordBytes) == (256 * high + byte) * Pow(2, 8 * b)
  {
    hide *;
    var q, r, w := b / wordBytes, b % wordBytes, 8 * wordBytes;
    ByteIndex(b, wordBytes, |s|);
    WordIsMultiple(s, b, wordBytes, high);
    WordsAt(s, q, w);
    RoomForByte(s[q], byte, 8 * r, w);
    ByteBase();
    var y := byte * Pow(2, 8 * r);
    ValUpdate(s, q, s[q] + y, w);
    SetWord(s, q, s[q] + y, w);
    assert Pow(2, 8 * (b + 1)) == 256 * Pow(2, 8 * b) by { hide *; PowAdd(2, 8 * b, 8); }
    PlaceByte(Val(s, w), high, byte, Pow(Base(w), q), Pow(2, 8 * r), y, Pow(2, 8 * b));
  }

  lemma SetWord(s: seq<nat>, q: nat, x: nat, w: nat)
    requires q < |s| && IsWords(s, w) && x < Base(w)
    ensures IsWords(s[q := x], w)
  {
  }

  lemma {:induction false} ZeroVal(s: seq<nat>, w: nat)
    requires forall i :: 0 <= i < |s| ==> s[i] == 0
    ensures IsWords(s, w) && Val(s, w) == 0
  {
    ValZeros(s, w);
  }

  /** Number of words that numBytes bytes occupy. */
  function WordsFor(numBytes: nat, wordBytes: nat): (n: nat)
    requires wordBytes >= 1
    ensures wordBytes * n >= numBytes
  {
    (numBytes + (wordBytes - 1)) / wordBytes
  }

  /** ecdsa_vli_bytesToNative from bytes[lo..lo + numBytes]; words above the bytes are left alone. */
  method BytesToNative(native: array<nat>, bytes: array<nat>, lo: nat, numBytes: nat, wordBytes: nat)
    requires wordBytes >= 1 && lo + numBytes <= bytes.Length && bytes != native
    requires WordsFor(numBytes, wordBytes) <= native.Length && IsBytes(bytes[lo..lo + numBytes])
    modifies native
    ensures var n := WordsFor(numBytes, wordBytes);
      && IsWords(native[..n], 8 * wordBytes)
      && Val(native[..n], 8 * wordBytes) == BigEndian(bytes[lo..lo + numBytes])
      && native[n..] == old(native[n..])
  {
    var n := WordsFor(numBytes, wordBytes);
    ghost var s, w := bytes[lo..lo + numBytes], 8 * wordBytes;
    VliClear(native, 0, n);
    ZeroVal(native[..n], w);
    EmptyBytes();
    hide *;
    assert s[..0] == [];
    NothingPlaced(native[..n], s, numBytes, w);
    var i := 0;
    while i < numBytes
      invariant 0 <= i <= numBytes
      invariant Placed(native[..n], s, i, numBytes - i, w)
      invariant native[n..] == old(native[n..])
    {
      assert s[i] == bytes[lo + i];
      PlaceOne(native, n, numBytes - 1 - i, bytes[lo + i], s, i, wordBytes);
      i := i + 1;
    }
    PlacedIs(native[..n], s, numBytes, 0, w);
    assert s[..numBytes] == s;
    TimesOne256(BigEndian(s));
  }

  /** The words hold the first i bytes, moved up over the bytes that are left. */
  ghost predicate Placed(native: seq<nat>, s: seq<nat>, i: nat, left: nat, w: nat)
    requires i <= |s|
  {
    IsWords(native, w) && Val(native, w) == BigEndian(s[..i]) * Pow(2, 8 * left)
  }

  lemma PlacedIs(native: seq<nat>, s: seq<nat>, i: nat, left: nat, w: nat)
    requires i <= |s|
    ensures Placed(native, s, i, left, w)
       <==> IsWords(native, w) && Val(native, w) == BigEndian(s[..i]) * Pow(2, 8 * left)
  {
    hide IsWords, Val, BigEndian, Pow;
  }

  lemma NothingPlaced(native: seq<nat>, s: seq<nat>, left: nat, w: nat)
    requires IsWords(native, w) && Val(native, w) == 0
    ensures Placed(native, s, 0, left, w)
  {
    assert s[..0] == [];
    EmptyBytes();
    hide Val, Pow, IsWords, BigEndian;
  }

  /** native[b / ecdsa_WORD_SIZE] |= bytes[i] << (8 * (b % ecdsa_WORD_SIZE)) */
  method PlaceOne(native: array<nat>, n: nat, b: nat, byte: nat, ghost s: seq<nat>, ghost i: nat, wordBytes: nat)
    requires wordBytes >= 1 && n <= native.Length && b < wordBytes * n && i < |s| && s[i] == byte && IsBytes(s)
    requires Placed(native[..n], s, i, b + 1, 8 * wordBytes)
    modifies native
    ensures Placed(native[..n], s, i + 1, b, 8 * wordBytes) && native[n..] == old(native[n..])
  {
    hide *;
    ghost var before, w := native[..n], 8 * wordBytes;
    ByteRange(s, i);
    PlacedIs(before, s, i, b + 1, w);
    OrByte(before, b, byte, BigEndian(s[..i]), wordBytes);
    native[b / wordBytes] := BitOr(native[b / wordBytes], byte * Pow(2, 8 * (b % wordBytes)));
    assert native[..n] == before[b / wordBytes := native[b / wordBytes]];
    BigEndianSnoc(s, i);
    PlacedIs(native[..n], s, i + 1, b, w);
  }

  lemma TimesOne256(v: nat)
    ensures v * Pow(2, 8 * 0) == v
  {
  }
}
