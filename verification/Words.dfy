/**
 Multi-word little-endian integers (the "vli" layer). A word has w bits; every
 operation wraps modulo Base(w) exactly where the C code does.
 */
module Words {
  import opened Arith

  function Base(w: nat): (b: nat)
    ensures b >= 1
  {
    Pow(2, w)
  }

  /** Half of the base: HIGH_BIT_SET, the value of the top bit of a word. */
  function HighBit(w: nat): (b: nat)
    requires w >= 1
    ensures b >= 1 && Base(w) == 2 * b
  {
    Pow(2, w - 1)
  }

  predicate IsWords(s: seq<nat>, w: nat)
  {
    forall i :: 0 <= i < |s| ==> s[i] < Base(w)
  }

  /** The number a word sequence stands for, least significant word first. */
  function Val(s: seq<nat>, w: nat): (r: nat)
  {
    if |s| == 0 then 0 else s[0] + Base(w) * Val(s[1..], w)
  }

  // -------------------------------------------------------- value lemmas

  /** Distributing one factor, with every intermediate value named. */
  lemma Distribute(b: int, v: int, x: int, p: int, y: int, q: int)
    requires v == x + p * y && q == b * p
    ensures b * v == b * x + q * y
  {
  }

  lemma {:induction false} ValSplit(s: seq<nat>, i: nat, w: nat)
    requires i <= |s|
    ensures Val(s, w) == Val(s[..i], w) + Pow(Base(w), i) * Val(s[i..], w)
  {
    if i == 0 {
      assert s[0..] == s;
    } else {
      var t := s[1..];
      ValSplit(t, i - 1, w);
      assert t[i - 1..] == s[i..] && t[..i - 1] == s[..i][1..];
      ValHead(s, w);
      ValHead(s[..i], w);
      PowStep(Base(w), i - 1);
      hide *;
      Distribute(Base(w), Val(t, w), Val(t[..i - 1], w), Pow(Base(w), i - 1), Val(s[i..], w), Pow(Base(w), i));
    }
  }

  lemma ValHead(s: seq<nat>, w: nat)
    requires |s| > 0
    ensures Val(s, w) == s[0] + Base(w) * Val(s[1..], w)
  {
  }

  lemma ValSingle(x: nat, w: nat)
    ensures Val([x], w) == x
  {
    assert [x][1..] == [];
    assert Val([], w) == 0;
    ValHead([x], w);
  }

  /** Extending a prefix by one word. */
  lemma ValSnoc(s: seq<nat>, i: nat, w: nat)
    requires i < |s|
    ensures Val(s[..i + 1], w) == Val(s[..i], w) + s[i] * Pow(Base(w), i)
  {
    hide *;
    var t := s[..i + 1];
    ValSplit(t, i, w);
    assert t[..i] == s[..i] && t[i..] == [s[i]];
    ValSingle(s[i], w);
  }

  /** Extending a suffix downwards by one word. */
  lemma ValCons(s: seq<nat>, i: nat, w: nat)
    requires i < |s|
    ensures Val(s[i..], w) == s[i] + Base(w) * Val(s[i + 1..], w)
  {
    assert s[i..][1..] == s[i + 1..];
  }

  lemma HeadBound(x: nat, v: nat, b: nat, p: nat)
    requires x < b && v < p
    ensures x + b * v < b * p
  {
    MulMono(v + 1, p, b);
    assert b * v == v * b;
    assert (v + 1) * b == v * b + b;
  }

  lemma {:induction false} ValBound(s: seq<nat>, w: nat)
    requires IsWords(s, w)
    ensures Val(s, w) < Pow(Base(w), |s|)
  {
    if |s| == 0 {
    } else {
      ValBound(s[1..], w);
      ValHead(s, w);
      PowStep(Base(w), |s| - 1);
      assert s[0] < Base(w);
      hide *;
      HeadBound(s[0], Val(s[1..], w), Base(w), Pow(Base(w), |s| - 1));
    }
  }

  lemma {:induction false} ValZeros(s: seq<nat>, w: nat)
    ensures Val(s, w) == 0 <==> forall i :: 0 <= i < |s| ==> s[i] == 0
  {
    if |s| == 0 {
    } else {
      ValZeros(s[1..], w);
      ValHead(s, w);
      hide *;
      var b, v := Base(w), Val(s[1..], w);
      if v > 0 {
        MulGe(b, v);
        var i :| 0 <= i < |s[1..]| && s[1..][i] != 0;
        assert s[i + 1] != 0;
      } else {
        assert b * v == 0;
        assert forall i :: 1 <= i < |s| ==> s[i] == s[1..][i - 1];
      }
    }
  }

  /** The low digit and the rest of a number in base b are unique. */
  lemma DigitUnique(x: nat, y: nat, u: nat, v: nat, b: nat)
    requires x < b && y < b && x + b * u == y + b * v
    ensures x == y && u == v
  {
    DivModUnique(x + b * u, b, u, x);
    DivModUnique(y + b * v, b, v, y);
  }

  /** Equal values on equally many words come from equal words. */
  lemma {:induction false} ValInjective(s: seq<nat>, t: seq<nat>, w: nat)
    requires |s| == |t| && IsWords(s, w) && IsWords(t, w)
    requires Val(s, w) == Val(t, w)
    ensures s == t
  {
    if |s| == 0 {
    } else {
      ValHead(s, w);
      ValHead(t, w);
      assert s[0] < Base(w) && t[0] < Base(w);
      hide Val, Base;
      DigitUnique(s[0], t[0], Val(s[1..], w), Val(t[1..], w), Base(w));
      ValInjective(s[1..], t[1..], w);
      assert s == [s[0]] + s[1..] && t == [t[0]] + t[1..];
    }
  }

  lemma HigherDigitWins(x: nat, y: nat, r: nat, b: nat, lowX: nat, lowY: nat, p: nat, u: nat, v: nat)
    requires x < y && lowX < p && u == x + b * r && v == y + b * r
    ensures lowX + p * u < lowY + p * v
  {
    MulMono(u + 1, v, p);
    assert (u + 1) * p == p * u + p && v * p == p * v;
  }

  /** The first differing word from the top decides the comparison. */
  lemma ValCompare(s: seq<nat>, t: seq<nat>, i: nat, w: nat)
    requires |s| == |t| && i < |s| && IsWords(s, w) && IsWords(t, w)
    requires s[i + 1..] == t[i + 1..] && s[i] < t[i]
    ensures Val(s, w) < Val(t, w)
  {
    ValBound(s[..i], w);
    hide *;
    ValSplit(s, i, w);
    ValSplit(t, i, w);
    ValCons(s, i, w);
    ValCons(t, i, w);
    HigherDigitWins(s[i], t[i], Val(s[i + 1..], w), Base(w), Val(s[..i], w), Val(t[..i], w),
                    Pow(Base(w), i), Val(s[i..], w), Val(t[i..], w));
  }

  lemma UpdateDigit(x: int, y: int, r: int, p: int, u: int, v: int)
    requires u == x + r && v == y + r
    ensures p * u == p * v + (x - y) * p
  {
  }

  /** Replacing word j changes the value by the difference of the words times Base^j. */
  lemma ValUpdate(s: seq<nat>, j: nat, x: nat, w: nat)
    requires j < |s|
    ensures Val(s[j := x], w) == Val(s, w) + (x - s[j]) * Pow(Base(w), j)
  {
    hide *;
    var t := s[j := x];
    ValSplit(s, j, w);
    ValSplit(t, j, w);
    ValCons(s, j, w);
    ValCons(t, j, w);
    assert t[..j] == s[..j] && t[j + 1..] == s[j + 1..];
    UpdateDigit(x, s[j], Base(w) * Val(s[j + 1..], w), Pow(Base(w), j), Val(t[j..], w), Val(s[j..], w));
  }

  lemma BasePow(w: nat, n: nat)
    ensures Pow(Base(w), n) == Pow(2, w * n)
  {
    PowMul(2, w, n);
  }

  lemma WordsSlice(s: seq<nat>, i: nat, w: nat)
    requires i <= |s| && IsWords(s, w)
    ensures IsWords(s[..i], w) && IsWords(s[i..], w)
  {
  }

  lemma LowHigh(v: nat, low: nat, p: nat, high: nat)
    requires v == low + p * high && low < p
    ensures v / p == high && v % p == low
  {
    DivModUnique(v, p, high, low);
  }

  /** The low part of a value is the value of its low words, the rest that of its high words. */
  lemma ValLow(s: seq<nat>, i: nat, w: nat)
    requires i <= |s| && IsWords(s, w)
    ensures Val(s, w) / Pow(Base(w), i) == Val(s[i..], w)
    ensures Val(s, w) % Pow(Base(w), i) == Val(s[..i], w)
  {
    hide *;
    WordsSlice(s, i, w);
    ValBound(s[..i], w);
    ValSplit(s, i, w);
    LowHigh(Val(s, w), Val(s[..i], w), Pow(Base(w), i), Val(s[i..], w));
  }

  // ------------------------------------------------------------ operations

  /** ecdsa_vli_clear on words lo .. lo+n. */
  method VliClear(vli: array<nat>, lo: nat, n: nat)
    requires lo + n <= vli.Length
    modifies vli
    ensures forall i :: lo <= i < lo + n ==> vli[i] == 0
    ensures vli[..lo] == old(vli[..lo]) && vli[lo + n..] == old(vli[lo + n..])
  {
    for i := 0 to n
      invariant forall j :: lo <= j < lo + i ==> vli[j] == 0
      invariant forall j :: 0 <= j < lo || lo + i <= j < vli.Length ==> vli[j] == old(vli[j])
    {
      vli[lo + i] := 0;
    }
  }

  /** ecdsa_vli_set: copies the first n words of src to dest[lo..]. */
  method VliSet(dest: array<nat>, lo: nat, src: array<nat>, n: nat)
    requires lo + n <= dest.Length && n <= src.Length && dest != src
    modifies dest
    ensures dest[lo..lo + n] == src[..n]
    ensures dest[..lo] == old(dest[..lo]) && dest[lo + n..] == old(dest[lo + n..])
  {
    for i := 0 to n
      invariant forall j :: 0 <= j < i ==> dest[lo + j] == src[j]
      invariant forall j :: 0 <= j < lo || lo + i <= j < dest.Length ==> dest[j] == old(dest[j])
    {
      dest[lo + i] := src[i];
    }
  }

  /** ecdsa_vli_isZero */
  method VliIsZero(vli: array<nat>, w: nat) returns (zero: bool)
    ensures zero <==> Val(vli[..], w) == 0
  {
    var bits := 0;
    for i := 0 to vli.Length
      invariant bits == 0 <==> forall j :: 0 <= j < i ==> vli[j] == 0
    {
      BitOrZero(bits, vli[i]);
      bits := BitOr(bits, vli[i]);
    }
    ValZeros(vli[..], w);
    zero := bits == 0;
  }

  /** ecdsa_vli_equal */
  method VliEqual(left: array<nat>, right: array<nat>, w: nat) returns (equal: bool)
    requires left.Length == right.Length
    requires IsWords(left[..], w) && IsWords(right[..], w)
    ensures equal <==> Val(left[..], w) == Val(right[..], w)
  {
    var diff := 0;
    var i := left.Length;
    while i > 0
      invariant 0 <= i <= left.Length
      invariant diff == 0 <==> forall j :: i <= j < left.Length ==> left[j] == right[j]
    {
      i := i - 1;
      BitXorZero(left[i], right[i]);
      BitOrZero(diff, BitXor(left[i], right[i]));
      diff := BitOr(diff, BitXor(left[i], right[i]));
    }
    if Val(left[..], w) == Val(right[..], w) {
      ValInjective(left[..], right[..], w);
      assert forall j :: 0 <= j < left.Length ==> left[..][j] == right[..][j];
    }
    if diff == 0 {
      assert left[..] == right[..];
    }
    equal := diff == 0;
  }

  /** ecdsa_vli_cmp_unsafe: the sign of left - right. */
  method VliCmp(left: array<nat>, right: array<nat>, w: nat) returns (c: int)
    requires left.Length == right.Length
    requires IsWords(left[..], w) && IsWords(right[..], w)
    ensures -1 <= c <= 1
    ensures c == 1 <==> Val(left[..], w) > Val(right[..], w)
    ensures c == -1 <==> Val(left[..], w) < Val(right[..], w)
  {
    var i := left.Length;
    while i > 0
      invariant 0 <= i <= left.Length
      invariant left[..][i..] == right[..][i..]
    {
      i := i - 1;
      if left[i] > right[i] {
        ValCompare(right[..], left[..], i, w);
        return 1;
      } else if left[i] < right[i] {
        ValCompare(left[..], right[..], i, w);
        return -1;
      }
      assert left[..][i..] == [left[i]] + left[..][i + 1..];
      assert right[..][i..] == [right[i]] + right[..][i + 1..];
    }
    assert left[..] == left[..][0..] && right[..] == right[..][0..];
    c := 0;
  }

  /** ecdsa_vli_testBit */
  method VliTestBit(vli: array<nat>, bit: nat, w: nat) returns (on: bool)
    requires w >= 1 && bit < w * vli.Length && IsWords(vli[..], w)
    ensures on <==> Bit(Val(vli[..], w), bit) == 1
  {
    hide *;
    WordIndex(bit, w, vli.Length);
    TestBitWord(vli[..], bit / w, bit % w, w);
    on := Bit(vli[bit / w], bit % w) == 1;
  }

  lemma WordIndex(bit: nat, w: nat, n: nat)
    requires w >= 1 && bit < w * n
    ensures bit / w < n && bit % w < w && w * (bit / w) + bit % w == bit
  {
    var i := bit / w;
    assert i >= n ==> i * w >= n * w;
  }

  /** Bit k of the i-th word. */
  lemma TestBitWord(s: seq<nat>, i: nat, k: nat, w: nat)
    requires w >= 1 && i < |s| && k < w && IsWords(s, w)
    ensures Bit(Val(s, w), w * i + k) == Bit(s[i], k)
  {
    var v, rest, p, q := Val(s, w), Val(s[i + 1..], w), Pow(Base(w), i), Pow(2, k);
    var h := Pow(2, w - k - 1);
    assert v / p == s[i] + Base(w) * rest by { hide *; ValLow(s, i, w); ValCons(s, i, w); }
    assert Pow(2, w * i + k) == p * q by { hide *; BasePow(w, i); PowAdd(2, w * i, k); }
    assert Base(w) == q * (2 * h) by { PowAdd(2, k, w - k); }
    hide Val, Base, Pow;
    BitOfSum(v, s[i], rest, Base(w), p, q, h);
  }

  /** The words above contribute an even multiple of 2^k. */
  lemma BitOfSum(v: nat, x: nat, rest: nat, b: nat, p: nat, q: nat, h: nat)
    requires p > 0 && q > 0 && v / p == x + b * rest && b == q * (2 * h)
    ensures p * q > 0 && (v / (p * q)) % 2 == (x / q) % 2
  {
    var m := h * rest;
    MultipleOfTwice(q, h, rest, b, m);
    DivDiv(v, p, q);
    DivAddMultiple(x, 2 * m, q);
    hide *;
    ModAddMultiple(x / q, m, 2);
  }

  lemma MultipleOfTwice(q: nat, h: nat, rest: nat, b: nat, m: nat)
    requires b == q * (2 * h) && m == h * rest
    ensures b * rest == (2 * m) * q
  {
  }

  // ------------------------------------------------- addition, subtraction

  /** One column of a carry loop, scaled to the column's weight. */
  lemma AddColumn(p: nat, p': nat, b: nat, x: int, y: int, carry: int, sum: int, carry': int)
    requires sum + carry' * b == x + y + carry && p' == b * p
    ensures sum * p + carry' * p' == x * p + y * p + carry * p
  {
    assert (sum + carry' * b) * p == sum * p + carry' * (b * p);
  }

  lemma AppendWord(done: seq<nat>, x: nat, w: nat)
    ensures Val(done + [x], w) == Val(done, w) + x * Pow(Base(w), |done|)
  {
    hide *;
    var t, i := done + [x], |done|;
    ValSnoc(t, i, w);
    assert t[..i] == done && t[..i + 1] == t;
  }

  /** One iteration of the addition loop keeps "words so far + carry == sum of prefixes". */
  lemma AddStep(done: seq<nat>, l: seq<nat>, r: seq<nat>, i: nat, w: nat, c: nat, sum: nat, c': nat)
    requires i == |done| && i < |l| && i < |r|
    requires Val(done, w) + c * Pow(Base(w), i) == Val(l[..i], w) + Val(r[..i], w)
    requires sum + c' * Base(w) == l[i] + r[i] + c
    ensures Val(done + [sum], w) + c' * Pow(Base(w), i + 1) == Val(l[..i + 1], w) + Val(r[..i + 1], w)
  {
    hide *;
    AppendWord(done, sum, w);
    ValSnoc(l, i, w);
    ValSnoc(r, i, w);
    PowStep(Base(w), i);
    AddColumn(Pow(Base(w), i), Pow(Base(w), i + 1), Base(w), l[i], r[i], c, sum, c');
  }

  /** One iteration of the subtraction loop. */
  lemma SubStep(done: seq<nat>, l: seq<nat>, r: seq<nat>, i: nat, w: nat, c: nat, diff: nat, c': nat)
    requires i == |done| && i < |l| && i < |r|
    requires Val(done, w) - c * Pow(Base(w), i) == Val(l[..i], w) - Val(r[..i], w)
    requires diff - c' * Base(w) == l[i] - r[i] - c
    ensures Val(done + [diff], w) - c' * Pow(Base(w), i + 1) == Val(l[..i + 1], w) - Val(r[..i + 1], w)
  {
    hide *;
    AppendWord(done, diff, w);
    ValSnoc(l, i, w);
    ValSnoc(r, i, w);
    PowStep(Base(w), i);
    var y: int, k: int, k': int := -(r[i] as int), -(c as int), -(c' as int);
    AddColumn(Pow(Base(w), i), Pow(Base(w), i + 1), Base(w), l[i], y, k, diff, k');
  }

  lemma NoWords(w: nat)
    ensures Val([], w) == 0 && Pow(Base(w), 0) == 1
  {
  }

  lemma BaseAtLeast2(w: nat)
    requires w >= 1
    ensures Base(w) >= 2
  {
    Pow2Step(w - 1);
  }

  /** ecdsa_vli_add: result = left + right, returning the carry; may be in place. */
  method VliAdd(result: array<nat>, left: array<nat>, right: array<nat>, w: nat) returns (carry: nat)
    requires w >= 1 && result.Length == left.Length == right.Length
    requires IsWords(left[..], w) && IsWords(right[..], w)
    modifies result
    ensures IsWords(result[..], w) && carry <= 1
    ensures Val(result[..], w) + carry * Pow(Base(w), result.Length)
         == old(Val(left[..], w)) + old(Val(right[..], w))
  {
    hide Val, Base, Pow;
    ghost var l, r, n, b := left[..], right[..], result.Length, Base(w);
    BaseAtLeast2(w);
    NoWords(w);
    carry := 0;
    for i := 0 to result.Length
      invariant carry <= 1
      invariant forall j :: 0 <= j < i ==> result[j] < b
      invariant forall j :: i <= j < n ==> left[j] == l[j] && right[j] == r[j]
      invariant Val(result[..i], w) + carry * Pow(b, i) == Val(l[..i], w) + Val(r[..i], w)
    {
      ghost var before, c0 := result[..i], carry;
      var sum := (left[i] + right[i] + carry) % Base(w);
      WrapSum(l[i], r[i], c0, b);
      if sum != left[i] {
        carry := if sum < left[i] then 1 else 0;
      }
      result[i] := sum;
      assert result[..i + 1] == before + [sum];
      AddStep(before, l, r, i, w, c0, sum, carry);
    }
    assert result[..n] == result[..] && l[..n] == l && r[..n] == r;
  }

  /** The C test for the carry out of a wrapping word addition. */
  lemma WrapSum(x: nat, y: nat, c: nat, b: nat)
    requires x < b && y < b && c <= 1 && b >= 2
    ensures var sum := (x + y + c) % b;
      sum + (if sum != x then (if sum < x then 1 else 0) else c) * b == x + y + c
  {
    if x + y + c < b {
      ModSmall(x + y + c, b);
    } else {
      DivModUnique(x + y + c, b, 1, x + y + c - b);
    }
  }

  /** ecdsa_vli_sub: result = left - right, returning the borrow; may be in place. */
  method VliSub(result: array<nat>, left: array<nat>, right: array<nat>, w: nat) returns (borrow: nat)
    requires w >= 1 && result.Length == left.Length == right.Length
    requires IsWords(left[..], w) && IsWords(right[..], w)
    modifies result
    ensures IsWords(result[..], w) && borrow <= 1
    ensures Val(result[..], w) - borrow * Pow(Base(w), result.Length)
         == old(Val(left[..], w)) - old(Val(right[..], w))
  {
    hide Val, Base, Pow;
    ghost var l, r, n, b := left[..], right[..], result.Length, Base(w);
    BaseAtLeast2(w);
    NoWords(w);
    borrow := 0;
    for i := 0 to result.Length
      invariant borrow <= 1
      invariant forall j :: 0 <= j < i ==> result[j] < b
      invariant forall j :: i <= j < n ==> left[j] == l[j] && right[j] == r[j]
      invariant Val(result[..i], w) - borrow * Pow(b, i) == Val(l[..i], w) - Val(r[..i], w)
    {
      ghost var before, c0 := result[..i], borrow;
      var diff := (left[i] - right[i] - borrow) % Base(w);
      WrapDiff(l[i], r[i], c0, b);
      if diff != left[i] {
        borrow := if diff > left[i] then 1 else 0;
      }
      result[i] := diff;
      assert result[..i + 1] == before + [diff];
      SubStep(before, l, r, i, w, c0, diff, borrow);
    }
    assert result[..n] == result[..] && l[..n] == l && r[..n] == r;
  }

  /** A difference that is not negative leaves no borrow. */
  lemma NoBorrow(v: nat, borrow: nat, d: nat, p: nat)
    requires v - borrow * p == d && v < p
    ensures borrow == 0 && v == d
  {
    if borrow >= 1 {
      MulMono(1, borrow, p);
    }
  }

  /** ecdsa_vli_cmp: the sign of left - right, from a subtraction of all words. */
  method VliCmpBySub(left: array<nat>, right: array<nat>, w: nat) returns (c: int)
    requires w >= 1 && left.Length == right.Length
    requires IsWords(left[..], w) && IsWords(right[..], w)
    ensures -1 <= c <= 1
    ensures c == 1 <==> Val(left[..], w) > Val(right[..], w)
    ensures c == -1 <==> Val(left[..], w) < Val(right[..], w)
  {
    hide *;
    var tmp := new nat[left.Length];
    var neg := VliSub(tmp, left, right, w);
    var equal := VliIsZero(tmp, w);
    ValBound(tmp[..], w);
    ValBound(left[..], w);
    ValBound(right[..], w);
    SignOfBorrow(Val(tmp[..], w), neg, Val(left[..], w), Val(right[..], w), Pow(Base(w), left.Length));
    var different: int, negative: int := if equal then 0 else 1, neg;
    c := different - 2 * negative;
  }

  lemma SignOfBorrow(d: nat, neg: nat, x: nat, y: nat, p: nat)
    requires neg <= 1 && d - neg * p == x - y && d < p && x < p && y < p
    ensures neg == 1 <==> x < y
    ensures d == 0 <==> x == y
  {
  }

  /** The C test for the borrow out of a wrapping word subtraction. */
  lemma WrapDiff(x: nat, y: nat, c: nat, b: nat)
    requires x < b && y < b && c <= 1 && b >= 2
    ensures var diff := (x - y - c) % b;
      diff - (if diff != x then (if diff > x then 1 else 0) else c) * b == x - y - c
  {
    if x - y - c >= 0 {
      ModSmall(x - y - c, b);
    } else {
      DivModUnique(x - y - c, b, -1, x - y - c + b);
    }
  }

  /** Words that hold nothing but a small number in the lowest one. */
  lemma SmallValue(s: seq<nat>, x: nat, w: nat)
    requires x < Base(w) && |s| >= 1 && s[0] == x && forall i :: 1 <= i < |s| ==> s[i] == 0
    ensures IsWords(s, w) && Val(s, w) == x
  {
    ValZeros(s[1..], w);
    ValHead(s, w);
    hide Val;
    assert Base(w) * 0 == 0;
  }

  // ------------------------------------------------------------- shifting

  /** ecdsa_vli_rshift1 on words lo .. lo+n. */
  method VliRshift1(vli: array<nat>, lo: nat, n: nat, w: nat)
    requires w >= 1 && lo + n <= vli.Length && IsWords(vli[..], w)
    modifies vli
    ensures IsWords(vli[..], w)
    ensures Val(vli[lo..lo + n], w) == old(Val(vli[lo..lo + n], w)) / 2
    ensures forall i :: 0 <= i < lo || lo + n <= i < vli.Length ==> vli[i] == old(vli[i])
  {
    hide *;
    ghost var s, h := vli[lo..lo + n], HighBit(w);
    ghost var bit: nat := 0; // the bit that carry holds in the top position
    var carry := 0;
    var i := n;
    assert vli[lo + n..lo + n] == s[n..] == [];
    NoWords(w);
    BasePositive(w);
    while i > 0
      invariant 0 <= i <= n && 0 <= bit <= 1 && carry == bit * h
      invariant forall j :: 0 <= j < lo + i || lo + n <= j < vli.Length ==> vli[j] == old(vli[j])
      invariant IsWords(vli[..], w)
      invariant 2 * Val(vli[lo + i..lo + n], w) + bit == Val(s[i..], w)
    {
      i := i - 1;
      ghost var words, upper := vli[..], vli[lo + i + 1..lo + n];
      var temp := vli[lo + i];
      assert temp == s[i];
      WordsAt(words, lo + i, w);
      ShiftedWord(temp, bit, w);
      ghost var x: nat := temp / 2 + bit * h;
      HalvedWord(temp, bit, w, upper, Val(s[i + 1..], w), x);
      WordsUpdate(words, lo + i, x, w);
      vli[lo + i] := BitOr(temp / 2, carry);
      carry := (temp * Pow(2, w - 1)) % Base(w);
      assert vli[..] == words[lo + i := x];
      assert vli[lo + i..lo + n] == [x] + upper;
      ValCons(s, i, w);
      bit := temp % 2;
    }
    assert s[0..] == s;
    HalfIs(Val(vli[lo..lo + n], w), bit);
  }

  lemma BasePositive(w: nat)
    ensures Base(w) > 0
  {
  }

  lemma HalfIs(v: nat, bit: nat)
    requires bit <= 1
    ensures v == (2 * v + bit) / 2
  {
  }

  lemma WordsUpdate(s: seq<nat>, i: nat, x: nat, w: nat)
    requires i < |s| && IsWords(s, w) && x < Base(w)
    ensures IsWords(s[i := x], w)
  {
  }

  /** One more word: the halved words stay half of the words read, up to the bit handed down. */
  lemma HalvedWord(temp: nat, bit: nat, w: nat, upper: seq<nat>, rest: nat, x: nat)
    requires w >= 1 && x == temp / 2 + bit * HighBit(w) && 2 * Val(upper, w) + bit == rest
    ensures 2 * Val([x] + upper, w) + temp % 2 == temp + Base(w) * rest
  {
    hide *;
    HighBitIs(w);
    ValHead([x] + upper, w);
    assert ([x] + upper)[1..] == upper;
    ShiftColumn(temp, bit, HighBit(w), Base(w), Val(upper, w), rest, x, Val([x] + upper, w));
  }

  lemma HighBitIs(w: nat)
    requires w >= 1
    ensures Base(w) == 2 * HighBit(w)
  {
  }

  lemma ShiftedWord(temp: nat, bit: nat, w: nat)
    requires w >= 1 && temp < Base(w) && bit <= 1
    ensures BitOr(temp / 2, bit * HighBit(w)) == temp / 2 + bit * HighBit(w) < Base(w)
    ensures (temp * Pow(2, w - 1)) % Base(w) == (temp % 2) * HighBit(w)
  {
    var h := HighBit(w);
    ModMultiple(bit, h);
    LostBit(temp, h);
    hide BitOr;
    BitOrDisjoint(bit * h, temp / 2, w - 1);
  }

  lemma LostBit(temp: nat, h: nat)
    requires h >= 1
    ensures (temp * h) % (2 * h) == (temp % 2) * h
  {
    var q, r := temp / 2, temp % 2;
    assert temp == 2 * q + r;
    assert temp * h == q * (2 * h) + r * h;
    DivModUnique(temp * h, 2 * h, q, r * h);
  }

  lemma ShiftColumn(temp: nat, bit: nat, h: nat, b: nat, upper: nat, rest: nat, x: nat, v: nat)
    requires b == 2 * h && rest == 2 * upper + bit && x == temp / 2 + bit * h && v == x + b * upper
    ensures 2 * v + temp % 2 == temp + b * rest
  {
    assert b * rest == 2 * (b * upper) + 2 * (bit * h);
  }

  // ------------------------------------------------------------ bit length

  /** ecdsa_vli_numBits (with vli_numDigits inlined): the bit length. */
  method VliNumBits(vli: array<nat>, w: nat) returns (bits: nat)
    requires w >= 1 && IsWords(vli[..], w)
    ensures bits <= w * vli.Length
    ensures Val(vli[..], w) == 0 ==> bits == 0
    ensures Val(vli[..], w) > 0 ==> bits >= 1 && Pow(2, bits - 1) <= Val(vli[..], w) < Pow(2, bits)
    ensures vli.Length > 0 && vli[vli.Length - 1] > 0 ==> bits > w * (vli.Length - 1)
  {
    hide *;
    ghost var s := vli[..];
    var digits := vli.Length;
    while digits > 0 && vli[digits - 1] == 0
      invariant 0 <= digits <= vli.Length
      invariant forall j :: digits <= j < vli.Length ==> vli[j] == 0
    {
      digits := digits - 1;
    }
    ValZeros(s, w);
    if digits == 0 {
      return 0;
    }
    ValZeros(s[digits..], w);
    ValSplit(s, digits, w);
    WordsAt(s, digits - 1, w);
    var i := DigitBits(vli[digits - 1], w);
    bits := (digits - 1) * w + i;
    WordsSlice(s, digits, w);
    TopDigit(s[..digits], i, w);
    DigitCount(digits, i, w, vli.Length);
  }

  lemma WordsAt(s: seq<nat>, i: nat, w: nat)
    requires i < |s| && IsWords(s, w)
    ensures s[i] < Base(w)
  {
  }

  /** The inner loop of ecdsa_vli_numBits: shifts the top digit out. */
  method DigitBits(d: nat, w: nat) returns (i: nat)
    requires 0 < d < Base(w)
    ensures 1 <= i <= w && d / Pow(2, i) == 0 && d / Pow(2, i - 1) > 0
  {
    hide *;
    HalvedZero(d);
    PowPositive(2, 0);
    var digit := d;
    i := 0;
    while digit > 0
      invariant 0 <= i <= w && Pow(2, i) > 0 && digit == d / Pow(2, i)
      invariant i > 0 ==> Pow(2, i - 1) > 0 && d / Pow(2, i - 1) > 0
      decreases digit
    {
      PowPositive(2, i + 1);
      HalvedDigit(d, i, w);
      i := i + 1;
      digit := digit / 2;
    }
  }

  lemma HalvedZero(d: nat)
    ensures d / Pow(2, 0) == d
  {
  }

  lemma HalvedDigit(d: nat, i: nat, w: nat)
    requires i <= w && d < Base(w) && d / Pow(2, i) > 0
    ensures i < w && d / Pow(2, i + 1) == (d / Pow(2, i)) / 2
  {
    if i == w {
      ModSmall(d, Base(w));
    }
    DivDiv(d, Pow(2, i), 2);
    assert Pow(2, i + 1) == Pow(2, i) * 2;
  }

  lemma DigitCount(digits: nat, i: nat, w: nat, n: nat)
    requires 1 <= digits <= n && 1 <= i <= w
    ensures (digits - 1) * w + i <= w * n
    ensures digits == n ==> (digits - 1) * w + i > w * (n - 1)
  {
    MulMono(digits, n, w);
    assert digits * w == (digits - 1) * w + w;
  }

  lemma TopDigit(s: seq<nat>, i: nat, w: nat)
    requires |s| > 0 && IsWords(s, w) && i >= 1
    requires s[|s| - 1] / Pow(2, i) == 0 && s[|s| - 1] / Pow(2, i - 1) > 0
    ensures Pow(2, (|s| - 1) * w + i - 1) <= Val(s, w) < Pow(2, (|s| - 1) * w + i)
  {
    hide *;
    var k, d := |s| - 1, s[|s| - 1];
    ValSnoc(s, k, w);
    assert s[..k + 1] == s;
    WordsSlice(s, k, w);
    ValBound(s[..k], w);
    BasePow(w, k);
    assert w * k == k * w;
    PowAdd(2, k * w, i);
    PowAdd(2, k * w, i - 1);
    TopDigitBounds(Val(s[..k], w), d, Pow(Base(w), k), Pow(2, i), Pow(2, i - 1));
  }

  lemma TopDigitBounds(low: nat, d: nat, p: nat, x: nat, y: nat)
    requires low < p && 0 < x && 0 < y && d / x == 0 && d / y > 0
    ensures p * y <= low + d * p < p * x
  {
    assert d < x by { assert d == (d / x) * x + d % x; }
    assert d >= y by { if d < y { ModSmall(d, y); } }
    hide *;
    MulMono(d + 1, x, p);
    MulMono(y, d, p);
    assert (d + 1) * p == d * p + p;
    assert p * x == x * p && p * y == y * p;
  }
}
