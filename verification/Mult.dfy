/**
 Word-by-word multiplication: the three-word column accumulator (muladd) and the
 column-wise product ecdsa_vli_mult.
 */
module Mult {
  import opened Arith
  import opened Words

  /** The number held by the accumulator words r0, r1, r2. */
  function Acc(r0: nat, r1: nat, r2: nat, b: nat): (r: nat)
  {
    r0 + b * (r1 + b * r2)
  }

  /** The value fits the three accumulator words. */
  ghost predicate Fits3(acc: nat, b: nat)
  {
    acc < b * (b * b)
  }

  /** (s1, s0) and the carry are (r1, r0) + p. */
  ghost predicate DwordSum(s0: nat, s1: nat, carry: nat, r0: nat, r1: nat, p: nat, b: nat)
  {
    s0 + b * s1 + carry * (b * b) == r1 * b + r0 + p
  }

  // ----------------------------------------------------------------- muladd

  /** muladd, double-word form: adds a * b to the accumulator. */
  method MulAdd(a: nat, b: nat, r0: nat, r1: nat, r2: nat, base: nat) returns (s0: nat, s1: nat, s2: nat)
    requires a < base && b < base && r0 < base && r1 < base && r2 < base
    requires Fits3(Acc(r0, r1, r2, base) + a * b, base)
    ensures s0 < base && s1 < base && s2 < base
    ensures Acc(s0, s1, s2, base) == Acc(r0, r1, r2, base) + a * b
  {
    hide *;
    ghost var p := Product(a, b);
    var carry: nat;
    s0, s1, carry := AddDword(a, b, r0, r1, base);
    CarryFits(r0, r1, r2, base, p, s0, s1, carry);
    s2 := (r2 + carry) % base;
  }

  /** A wrapping addition with the carry test of the C code. */
  method WrappedSum(x: nat, y: nat, m: nat) returns (sum: nat, carry: nat)
    requires x < m && y < m
    ensures sum < m && carry <= 1 && sum + carry * m == x + y
  {
    WrapAdd(x, y, m);
    sum := (x + y) % m;
    carry := if sum < y then 1 else 0;
  }

  /** The double-word step of muladd: (r1, r0) += a * b, with the C carry test. */
  method AddDword(a: nat, b: nat, r0: nat, r1: nat, base: nat) returns (s0: nat, s1: nat, carry: nat)
    requires a < base && b < base && r0 < base && r1 < base
    ensures s0 < base && s1 < base && carry <= 1
    ensures DwordSum(s0, s1, carry, r0, r1, a * b, base)
  {
    hide *;
    assert 0 <= a * b < base * base by { ProductBound(a, b, base); }
    PairBound(r0, r1, base);
    s0, s1, carry := AddAndSplit(r1 * base + r0, a * b, base * base, base);
    DwordIs(s0, s1, carry, r0, r1, a * b, base);
  }

  method AddAndSplit(before: nat, p: nat, dword: nat, base: nat) returns (s0: nat, s1: nat, carry: nat)
    requires before < dword && p < dword && dword == base * base
    ensures s0 < base && s1 < base && carry <= 1 && s0 + base * s1 + carry * dword == before + p
  {
    hide *;
    var r01;
    r01, carry := WrappedSum(before, p, dword);
    s0, s1 := SplitWord(r01, base);
  }

  lemma DwordIs(s0: nat, s1: nat, carry: nat, r0: nat, r1: nat, p: nat, b: nat)
    requires s0 + b * s1 + carry * (b * b) == (r1 * b + r0) + p
    ensures DwordSum(s0, s1, carry, r0, r1, p, b)
  {
  }

  /** The low and the high half of a double-width value. */
  method SplitWord(x: nat, base: nat) returns (low: nat, high: nat)
    requires x < base * base
    ensures low < base && high < base && x == low + base * high
  {
    SplitPair(x, base);
    low, high := x % base, x / base;
  }

  lemma ProductBound(a: nat, b: nat, base: nat)
    requires a < base && b < base
    ensures a * b <= (base - 1) * (base - 1) && 0 <= a * b < base * base
  {
    MulMono(a, base - 1, b);
    MulMono(b, base - 1, base - 1);
    assert (base - 1) * b == b * (base - 1);
    assert (base - 1) * (base - 1) == base * base - 2 * base + 1;
  }

  lemma PairBound(r0: nat, r1: nat, base: nat)
    requires r0 < base && r1 < base
    ensures 0 <= r1 * base + r0 < base * base
  {
    MulMono(r1 + 1, base, base);
    assert (r1 + 1) * base == r1 * base + base;
  }

  /** The C carry test of a wrapping addition: the sum came out below an operand. */
  lemma WrapAdd(x: nat, y: nat, m: nat)
    requires x < m && y < m
    ensures (x + y) % m + (if (x + y) % m < y then 1 else 0) * m == x + y
    ensures (x + y) % m < m
  {
    if x + y < m {
      ModSmall(x + y, m);
    } else {
      DivModUnique(x + y, m, 1, x + y - m);
    }
  }

  lemma SplitPair(r01: nat, base: nat)
    requires r01 < base * base
    ensures r01 / base < base && r01 == r01 % base + base * (r01 / base)
  {
    var q := r01 / base;
    assert q >= base ==> q * base >= base * base;
  }

  lemma AccSquare(r0: nat, r1: nat, r2: nat, base: nat, square: nat)
    requires square == base * base
    ensures Acc(r0, r1, r2, base) == r1 * base + r0 + r2 * square
  {
  }

  lemma TopWordFits(r2: nat, carry: nat, base: nat, square: nat)
    requires 0 < square && (r2 + carry) * square < base * square
    ensures r2 + carry < base
  {
    if r2 + carry >= base {
      MulMono(base, r2 + carry, square);
    }
  }

  lemma Product(a: nat, b: nat) returns (p: nat)
    ensures p == a * b
  {
    p := a * b;
  }

  /** The three-word accumulator has room, so the top word does not wrap. */
  lemma CarryFits(r0: nat, r1: nat, r2: nat, base: nat, p: nat, s0: nat, s1: nat, carry: nat)
    requires 0 < base && r2 < base && carry <= 1
    requires Fits3(Acc(r0, r1, r2, base) + p, base) && DwordSum(s0, s1, carry, r0, r1, p, base)
    ensures (r2 + carry) % base == r2 + carry && r2 + carry < base
    ensures Acc(s0, s1, r2 + carry, base) == Acc(r0, r1, r2, base) + p
  {
    var square := base * base;
    MulPos(base, base);
    AccSquare(r0, r1, r2, base, square);
    AccSquare(s0, s1, r2 + carry, base, square);
    hide Acc;
    AddTop(r2, carry, square);
    TopWordFits(r2, carry, base, square);
    ModSmall(r2 + carry, base);
  }

  lemma AddTop(r2: nat, carry: nat, square: nat)
    ensures (r2 + carry) * square == r2 * square + carry * square
  {
  }

  /**
   muladd, portable form: the word is split into halves of base h, so the word base is h * h.
   It is proved against the same contract as the double-word form.
   */
  method MulAddSplit(a: nat, b: nat, r0: nat, r1: nat, r2: nat, h: nat) returns (s0: nat, s1: nat, s2: nat)
    requires h >= 2 && a < h * h && b < h * h && r0 < h * h && r1 < h * h && r2 < h * h
    requires Fits3(Acc(r0, r1, r2, h * h) + a * b, h * h)
    ensures s0 < h * h && s1 < h * h && s2 < h * h
    ensures Acc(s0, s1, s2, h * h) == Acc(r0, r1, r2, h * h) + a * b
  {
    hide *;
    var base := h * h;
    var p0, p1 := SplitProduct(a, b, h);
    var c1: nat;
    s0, s1, c1 := AddPair(r0, r1, p0, p1, base, a * b);
    CarryFits(r0, r1, r2, base, a * b, s0, s1, c1);
    s2 := (r2 + c1) % base;
  }

  /** *r0 += p0; *r1 += p1 + (*r0 < p0); the flag is what the C code adds to *r2. */
  method AddPair(r0: nat, r1: nat, p0: nat, p1: nat, base: nat, ghost p: nat)
    returns (s0: nat, s1: nat, c1: nat)
    requires r0 < base && r1 < base && p0 < base && p1 + 1 < base && p == p0 + base * p1
    ensures s0 < base && s1 < base && c1 <= 1 && DwordSum(s0, s1, c1, r0, r1, p, base)
  {
    s0 := (r0 + p0) % base;
    WrapAdd(r0, p0, base);
    var c0 := if s0 < p0 then 1 else 0;
    s1 := (r1 + (p1 + c0)) % base;
    WrapAddCarry(r1, p1, c0, base);
    c1 := if s1 < p1 || (s1 == p1 && s0 < p0) then 1 else 0;
    TwoCarries(r0, r1, p0, p1, s0, s1, c0, c1, base, p);
  }

  lemma WrapAddCarry(r1: nat, p1: nat, c: nat, base: nat)
    requires r1 < base && p1 + 1 < base && c <= 1
    ensures var s1 := (r1 + (p1 + c)) % base;
      s1 < base && s1 + (if s1 < p1 || (s1 == p1 && c == 1) then 1 else 0) * base == r1 + p1 + c
  {
    WrapAdd(r1, p1 + c, base);
  }

  /** Two single-word carries make one double-word carry. */
  lemma TwoCarries(r0: nat, r1: nat, p0: nat, p1: nat, s0: nat, s1: nat, c0: nat, c1: nat, base: nat, p: nat)
    requires p == p0 + base * p1
    requires s0 + c0 * base == r0 + p0 && s1 + c1 * base == r1 + p1 + c0
    ensures DwordSum(s0, s1, c1, r0, r1, p, base)
  {
    assert base * (s1 + c1 * base) == base * s1 + c1 * (base * base);
    assert base * (r1 + p1 + c0) == r1 * base + base * p1 + c0 * base;
  }

  /** The half-word schoolbook product, with the one carry that can be lost put back. */
  method SplitProduct(a: nat, b: nat, h: nat) returns (p0: nat, p1: nat)
    requires h >= 2 && a < h * h && b < h * h
    ensures p0 < h * h && p1 + 1 < h * h && p0 + (h * h) * p1 == a * b
  {
    var a0, a1 := SplitWord(a, h);
    var b0, b1 := SplitWord(b, h);
    p0, p1 := HalfProducts(a0, a1, b0, b1, h);
    HighHalfBound(a, b, h * h, p0, p1);
  }

  method HalfProducts(a0: nat, a1: nat, b0: nat, b1: nat, h: nat) returns (p0: nat, p1: nat)
    requires h >= 2 && a0 < h && a1 < h && b0 < h && b1 < h
    ensures p0 < h * h && p0 + (h * h) * p1 == (a0 + h * a1) * (b0 + h * b1)
  {
    hide *;
    var i0, i1, i2, i3 := a0 * b0, a0 * b1, a1 * b0, a1 * b1;
    var square := h * h;
    FourProducts(a0, a1, b0, b1);
    HalfBounds(a0, a1, b0, b1, h, i0, i1, i2, square);
    p0, p1 := JoinProducts(i0, i1, i2, i3, h, square);
    ExpandHalves(a0, a1, b0, b1, h, square, i0, i1, i2, i3);
  }

  lemma FourProducts(a0: nat, a1: nat, b0: nat, b1: nat)
    ensures a0 * b0 >= 0 && a0 * b1 >= 0 && a1 * b0 >= 0 && a1 * b1 >= 0
  {
  }

  /** The shifts, masks and carries that put the four half-word products together. */
  method JoinProducts(i0: nat, i1: nat, i2: nat, i3: nat, h: nat, square: nat) returns (p0: nat, p1: nat)
    requires h >= 2 && square == h * h && i0 < square && i1 < square && i2 + h <= square
    ensures p0 < square && p0 + square * p1 == i0 + h * i1 + h * i2 + square * i3
  {
    hide *;
    var f, g := SplitWord(i0, h);
    var low, c := AddMiddle(g, i1, i2, h);
    var high := i3;
    if c == 1 {
      high := high + h;
    }
    var u, t := SplitWord(low, h);
    PairBound(f, u, h);
    p0 := f + u * h; // (i0 & 0xffffffff) | (i2 << 32): the operands share no bits
    p1 := high + t;
    JoinHalves(i0, i1, i2, i3, h, square, f, g, u, t, c, low, p0, p1);
  }

  /** i2 += i0 >> 32; i2 += i1; the flag is the C test i2 < i1. */
  method AddMiddle(g: nat, i1: nat, i2: nat, h: nat) returns (low: nat, c: nat)
    requires h >= 2 && i1 < h * h && i2 + g < h * h
    ensures low < h * h && c <= 1 && low + c * (h * h) == i2 + g + i1
  {
    var m := h * h;
    ModSmall(i2 + g, m);
    low := (i2 + g) % m;
    WrapAdd(low, i1, m);
    low := (low + i1) % m;
    c := if low < i1 then 1 else 0;
  }

  lemma HalfBounds(a0: nat, a1: nat, b0: nat, b1: nat, h: nat, i0: nat, i1: nat, i2: nat, square: nat)
    requires h >= 2 && a0 < h && a1 < h && b0 < h && b1 < h && square == h * h
    requires i0 == a0 * b0 && i1 == a0 * b1 && i2 == a1 * b0
    ensures i0 < square && i1 < square && i2 + h <= square
  {
    ProductBound(a0, b0, h);
    ProductBound(a0, b1, h);
    ProductBound(a1, b0, h);
    assert (h - 1) * (h - 1) == square - 2 * h + 1;
  }

  /** Collecting the middle half-words: low half f + u*h, high half i3 + c*h + t. */
  lemma MiddleHalves(f: nat, u: nat, h: nat, square: nat, i3: nat, c: nat, t: nat, low: nat, mid: nat)
    requires square == h * h && low == u + h * t && mid == low + c * square
    ensures f + u * h + square * (i3 + c * h + t) == f + h * mid + square * i3
  {
    assert square * (i3 + c * h + t) == square * i3 + h * (c * square) + h * (h * t);
  }

  lemma ExpandHalves(a0: nat, a1: nat, b0: nat, b1: nat, h: nat, square: nat, i0: nat, i1: nat, i2: nat, i3: nat)
    requires square == h * h && i0 == a0 * b0 && i1 == a0 * b1 && i2 == a1 * b0 && i3 == a1 * b1
    ensures (a0 + h * a1) * (b0 + h * b1) == i0 + h * i1 + h * i2 + square * i3
  {
  }

  lemma JoinHalves(i0: nat, i1: nat, i2: nat, i3: nat, h: nat, square: nat,
                   f: nat, g: nat, u: nat, t: nat, c: nat, low: nat, p0: nat, p1: nat)
    requires square == h * h && i0 == f + h * g && low == u + h * t && c <= 1
    requires low + c * square == i2 + g + i1
    requires p0 == f + u * h && p1 == i3 + c * h + t
    ensures p0 + square * p1 == i0 + h * i1 + h * i2 + square * i3
  {
    var mid := i2 + g + i1;
    MiddleHalves(f, u, h, square, i3, c, t, low, mid);
    MiddleSum(h, i2, g, i1, mid);
  }

  lemma MiddleSum(h: nat, x: nat, y: nat, z: nat, mid: nat)
    requires mid == x + y + z
    ensures h * mid == h * x + h * y + h * z
  {
  }

  lemma HighHalfBound(a: nat, b: nat, base: nat, p0: nat, p1: nat)
    requires a < base && b < base && base >= 2 && p0 + base * p1 == a * b
    ensures p1 + 1 < base
  {
    ProductBound(a, b, base);
    hide *;
    HighHalfOf(a * b, base - 1, base, p0, p1);
  }

  lemma HighHalfOf(product: nat, top: nat, base: nat, p0: nat, p1: nat)
    requires base == top + 1 && top >= 1 && product <= top * top && p0 + base * p1 == product
    ensures p1 < top
  {
    if p1 >= top {
      MulMono(top, p1, base);
      MulStrict(top, base, top);
    }
  }

  // ----------------------------------------------------------------- columns

  /** The part of column k of the product that rows 0 .. m contribute. */
  ghost function Column(l: seq<nat>, r: seq<nat>, k: nat, m: nat): (sum: nat)
    requires m <= |l|
  {
    if m == 0 then 0
    else Column(l, r, k, m - 1) + (if 0 <= k - (m - 1) < |r| then l[m - 1] * r[k - (m - 1)] else 0)
  }

  /** The words of r that row i has used once columns below k are done. */
  ghost function Used(r: seq<nat>, k: nat, i: nat): (u: seq<nat>)
  {
    if k <= i then [] else if k - i <= |r| then r[..k - i] else r
  }

  /** The contribution of rows 0 .. m to all columns below k. */
  ghost function Rows(l: seq<nat>, r: seq<nat>, k: nat, m: nat, w: nat): (sum: nat)
    requires m <= |l|
  {
    if m == 0 then 0
    else Rows(l, r, k, m - 1, w) + l[m - 1] * (Pow(Base(w), m - 1) * Val(Used(r, k, m - 1), w))
  }

  lemma {:induction false} NoColumns(l: seq<nat>, r: seq<nat>, m: nat, w: nat)
    requires m <= |l|
    ensures Rows(l, r, 0, m, w) == 0
  {
    if m == 0 {
    } else {
      NoColumns(l, r, m - 1, w);
      assert Used(r, 0, m - 1) == [];
      assert Val([], w) == 0;
    }
  }

  /** Doing one more column adds that column at weight Base^k. */
  lemma {:induction false} NextColumn(l: seq<nat>, r: seq<nat>, k: nat, m: nat, w: nat)
    requires m <= |l|
    ensures Rows(l, r, k + 1, m, w) == Rows(l, r, k, m, w) + Pow(Base(w), k) * Column(l, r, k, m)
  {
    if m == 0 {
    } else {
      NextColumn(l, r, k, m - 1, w);
      var i := m - 1;
      var x := if 0 <= k - i < |r| then r[k - i] else 0;
      RowGrows(r, k, i, x, w);
      hide Val, Pow, Used;
      ColumnSum(l[i], x, Pow(Base(w), k), Pow(Base(w), i) * Val(Used(r, k, i), w),
                Pow(Base(w), i) * Val(Used(r, k + 1, i), w), Column(l, r, k, i), Column(l, r, k, m));
    }
  }

  lemma RowGrows(r: seq<nat>, k: nat, i: nat, x: nat, w: nat)
    requires x == if 0 <= k - i < |r| then r[k - i] else 0
    ensures Pow(Base(w), i) * Val(Used(r, k + 1, i), w) == Pow(Base(w), i) * Val(Used(r, k, i), w) + Pow(Base(w), k) * x
  {
    if 0 <= k - i < |r| {
      assert Used(r, k, i) == r[..k - i] && Used(r, k + 1, i) == r[..k - i + 1];
      hide *;
      ValSnoc(r, k - i, w);
      PowAdd(Base(w), i, k - i);
      Scale(Pow(Base(w), i), Val(r[..k - i], w), Pow(Base(w), k - i), x, Val(r[..k - i + 1], w), Pow(Base(w), k));
    } else {
      assert Used(r, k + 1, i) == Used(r, k, i);
    }
  }

  lemma Scale(p: nat, v: nat, q: nat, x: nat, v': nat, pq: nat)
    requires v' == v + x * q && pq == p * q
    ensures p * v' == p * v + pq * x
  {
    assert p * (x * q) == pq * x;
  }

  lemma ColumnSum(a: nat, x: nat, p: nat, u: nat, u': nat, c: nat, c': nat)
    requires u' == u + p * x && c' == c + a * x
    ensures a * u' - a * u == p * c' - p * c
  {
    assert a * (p * x) == p * (a * x);
  }

  /** Once every column is done, the rows add up to the product. */
  lemma {:induction false} AllColumns(l: seq<nat>, r: seq<nat>, k: nat, m: nat, w: nat)
    requires m <= |l| && k + 1 >= |l| + |r|
    ensures Rows(l, r, k, m, w) == Val(l[..m], w) * Val(r, w)
  {
    if m == 0 {
    } else {
      AllColumns(l, r, k, m - 1, w);
      assert Used(r, k, m - 1) == r;
      hide Val, Pow;
      ValSnoc(l, m - 1, w);
      OneRow(Val(l[..m - 1], w), l[m - 1], Pow(Base(w), m - 1), Val(r, w), Val(l[..m], w));
    }
  }

  lemma OneRow(v: nat, a: nat, p: nat, y: nat, v': nat)
    requires v' == v + a * p
    ensures v' * y == v * y + a * (p * y)
  {
    assert (v + a * p) * y == v * y + a * (p * y);
  }

  lemma {:induction false} ColumnAbove(l: seq<nat>, r: seq<nat>, k: nat, m: nat, n: nat)
    requires m <= n <= |l| && k < m
    ensures Column(l, r, k, n) == Column(l, r, k, m)
  {
    if n == m {
    } else {
      ColumnAbove(l, r, k, m, n - 1);
    }
  }

  lemma {:induction false} ColumnBelow(l: seq<nat>, r: seq<nat>, k: nat, m: nat)
    requires m <= |l| && k - m >= |r| - 1
    ensures Column(l, r, k, m) == 0
  {
    if m == 0 {
    } else {
      ColumnBelow(l, r, k, m - 1);
    }
  }

  // ------------------------------------------------------- ecdsa_vli_mult

  /** What the accumulator may hold after c products of a column. */
  ghost predicate InColumn(acc: nat, c: nat, n: nat, b: nat)
  {
    acc <= n * (b - 1) + c * ((b - 1) * (b - 1))
  }

  lemma RoomForProduct(acc: nat, c: nat, n: nat, b: nat, x: nat, y: nat, p: nat)
    requires b >= 2 && x < b && y < b && p == x * y && c + 1 <= n <= b && InColumn(acc, c, n, b)
    ensures Fits3(acc + p, b) && InColumn(acc + p, c + 1, n, b)
  {
    ProductBound(x, y, b);
    var q := (b - 1) * (b - 1);
    AddTop(c, 1, q);
    MulMono(c + 1, n, q);
    ColumnLimit(n, b, q);
  }

  lemma ColumnTerms(n: int, b: int, q: int, m: int)
    requires q == (b - 1) * (b - 1) && m == n * (b - 1)
    ensures m + n * q == b * m
  {
    assert n * q == m * (b - 1);
  }

  lemma ColumnLimit(n: nat, b: nat, q: nat)
    requires b >= 2 && n <= b && q == (b - 1) * (b - 1)
    ensures n * (b - 1) + n * q < b * (b * b)
    ensures n * (b - 1) + n * q == b * (n * (b - 1))
  {
    var m := n * (b - 1);
    ColumnTerms(n, b, q, m);
    MulMono(n, b, b - 1);
    MulStrict(b - 1, b, b);
    hide *;
    assert b * (b - 1) == (b - 1) * b;
    MulStrict(m, b * b, b);
    assert m * b == b * m && (b * b) * b == b * (b * b);
  }

  lemma QuotientBound(acc: nat, r0: nat, carry: nat, b: nat, limit: nat)
    requires acc == r0 + b * carry && acc <= b * limit && b >= 1
    ensures carry <= limit
  {
    assert b * (carry - limit) == b * carry - b * limit;
    assert carry - limit >= 1 ==> b * (carry - limit) >= b;
  }

  /** Shifting the accumulator down one word leaves a carry small enough for the next column. */
  lemma NextCarry(acc: nat, carry: nat, r0: nat, n: nat, b: nat)
    requires b >= 2 && r0 < b && n <= b && InColumn(acc, n, n, b) && acc == r0 + b * carry
    ensures InColumn(carry, 0, n, b)
  {
    ColumnLimit(n, b, (b - 1) * (b - 1));
    QuotientBound(acc, r0, carry, b, n * (b - 1));
  }

  /** Storing the low accumulator word as result word k. */
  lemma StoreColumn(done: seq<nat>, l: seq<nat>, r: seq<nat>, k: nat, w: nat, acc0: nat, acc: nat, r0: nat, carry: nat)
    requires |done| == k
    requires Val(done, w) + acc0 * Pow(Base(w), k) == Rows(l, r, k, |l|, w)
    requires acc == acc0 + Column(l, r, k, |l|) && acc == r0 + Base(w) * carry
    ensures Val(done + [r0], w) + carry * Pow(Base(w), k + 1) == Rows(l, r, k + 1, |l|, w)
  {
    hide *;
    AppendWord(done, r0, w);
    NextColumn(l, r, k, |l|, w);
    PowStep(Base(w), k);
    StoreArith(Pow(Base(w), k), Pow(Base(w), k + 1), Base(w), acc0, acc, r0, carry, Column(l, r, k, |l|));
  }

  lemma StoreArith(p: nat, p': nat, b: nat, acc0: nat, acc: nat, r0: nat, carry: nat, column: nat)
    requires p' == b * p && acc == acc0 + column && acc == r0 + b * carry
    ensures r0 * p + carry * p' == acc0 * p + p * column
  {
    assert acc * p == acc0 * p + p * column;
    assert acc * p == r0 * p + carry * (b * p);
  }

  /** The accumulator has grown from q by the products of rows lo .. i of column k. */
  ghost predicate ColumnSoFar(l: seq<nat>, r: seq<nat>, k: nat, lo: nat, i: nat, q: nat, acc: nat, b: nat)
  {
    lo <= i <= |l| && acc + Column(l, r, k, lo) == q + Column(l, r, k, i) && InColumn(acc, i - lo, |l|, b)
  }

  lemma AddProduct(l: seq<nat>, r: seq<nat>, k: nat, lo: nat, i: nat, q: nat, acc: nat, w: nat)
    requires w >= 1 && |l| == |r| <= Base(w) && IsWords(l, w) && IsWords(r, w)
    requires i < |l| && 0 <= k - i < |r| && ColumnSoFar(l, r, k, lo, i, q, acc, Base(w))
    ensures Fits3(acc + l[i] * r[k - i], Base(w))
    ensures ColumnSoFar(l, r, k, lo, i + 1, q, acc + l[i] * r[k - i], Base(w))
  {
    var x, y := l[i], r[k - i];
    assert x < Base(w) && y < Base(w);
    BaseAtLeast2(w);
    RoomForProduct(acc, i - lo, |l|, Base(w), x, y, x * y);
    hide Base, InColumn, Fits3;
    assert Column(l, r, k, i + 1) == Column(l, r, k, i) + x * y;
  }

  lemma ColumnDone(l: seq<nat>, r: seq<nat>, k: nat, lo: nat, i: nat, q: nat, acc: nat, b: nat)
    requires b >= 1 && ColumnSoFar(l, r, k, lo, i, q, acc, b)
    ensures acc + Column(l, r, k, lo) == q + Column(l, r, k, i) && InColumn(acc, |l|, |l|, b)
  {
    hide Column;
    MulMono(i - lo, |l|, (b - 1) * (b - 1));
  }

  lemma ColumnBegins(l: seq<nat>, r: seq<nat>, k: nat, lo: nat, q: nat, b: nat)
    requires lo <= |l| && InColumn(q, 0, |l|, b)
    ensures ColumnSoFar(l, r, k, lo, lo, q, q, b)
  {
  }

  lemma DropWord(r0: nat, r1: nat, r2: nat, b: nat)
    ensures Acc(r0, r1, r2, b) == r0 + b * Acc(r1, r2, 0, b)
  {
    assert b * 0 == 0;
  }

  lemma EmptyAcc(n: nat, b: nat)
    requires b >= 1
    ensures Acc(0, 0, 0, b) == 0 && InColumn(0, 0, n, b)
  {
    MulPos(n, b - 1);
  }

  /** After the products of column k: store the low word, carry the rest into column k + 1. */
  lemma FinishColumn(done: seq<nat>, l: seq<nat>, r: seq<nat>, k: nat, lo: nat, hi: nat, w: nat,
                     q: nat, r0: nat, r1: nat, r2: nat)
    requires w >= 1 && |l| == |r| <= Base(w) && |done| == k && r0 < Base(w)
    requires lo <= hi && (lo == 0 || k - lo >= |r| - 1)
    requires hi == |l| || k < hi <= |l|
    requires Acc(r0, r1, r2, Base(w)) + Column(l, r, k, lo) == q + Column(l, r, k, hi)
    requires InColumn(Acc(r0, r1, r2, Base(w)), |l|, |l|, Base(w))
    requires Val(done, w) + q * Pow(Base(w), k) == Rows(l, r, k, |l|, w)
    ensures InColumn(Acc(r1, r2, 0, Base(w)), 0, |l|, Base(w))
    ensures Val(done + [r0], w) + Acc(r1, r2, 0, Base(w)) * Pow(Base(w), k + 1) == Rows(l, r, k + 1, |l|, w)
  {
    hide *;
    BaseAtLeast2(w);
    if lo == 0 {
      ColumnStart(l, r, k);
    } else {
      ColumnBelow(l, r, k, lo);
    }
    if hi < |l| {
      ColumnAbove(l, r, k, hi, |l|);
    }
    DropWord(r0, r1, r2, Base(w));
    var acc, carry := Acc(r0, r1, r2, Base(w)), Acc(r1, r2, 0, Base(w));
    NextCarry(acc, carry, r0, |l|, Base(w));
    StoreColumn(done, l, r, k, w, q, acc, r0, carry);
  }

  /** ecdsa_vli_mult: result = left * right. */
  method VliMult(result: array<nat>, left: array<nat>, right: array<nat>, w: nat)
    requires w >= 1 && 1 <= left.Length == right.Length <= Base(w)
    requires result.Length == 2 * left.Length && result != left && result != right
    requires IsWords(left[..], w) && IsWords(right[..], w)
    modifies result
    ensures IsWords(result[..], w)
    ensures Val(result[..], w) == Val(left[..], w) * Val(right[..], w)
  {
    hide *;
    ghost var l, r := left[..], right[..];
    var n := left.Length;
    BaseAtLeast2(w);
    ColumnsStart(l, r, w);
    var r0, r1 := 0, 0;
    for k := 0 to n
      invariant left[..] == l && right[..] == r
      invariant ColumnsDone(result[..k], l, r, k, r0, r1, w)
    {
      r0, r1 := OneColumn(result, left, right, k, 0, k + 1, r0, r1, w);
    }
    for k := n to n * 2 - 1
      invariant left[..] == l && right[..] == r
      invariant ColumnsDone(result[..k], l, r, k, r0, r1, w)
    {
      r0, r1 := OneColumn(result, left, right, k, k + 1 - n, n, r0, r1, w);
    }
    ghost var done := result[..n * 2 - 1];
    ColumnsAre(done, l, r, n * 2 - 1, r0, r1, w);
    ValBound(l, w);
    ValBound(r, w);
    LastAcc(r0, r1, Base(w));
    assert l[..n] == l;
    AllColumns(l, r, |done|, n, w);
    AppendWord(done, r0, w);
    PowAdd(Base(w), n, n);
    PowStep(Base(w), |done|);
    TopWordSmall(Val(l, w), Val(r, w), Pow(Base(w), n), Pow(Base(w), |done|), Base(w),
                 Acc(r0, r1, 0, Base(w)), r0, r1, Val(done, w), Pow(Base(w), 2 * n));
    result[n * 2 - 1] := r0;
    assert result[..] == done + [r0];
    AppendedWord(done, r0, w);
  }

  /** Columns below k are stored in done; r1:r0 is what they carry on. */
  ghost predicate ColumnsDone(done: seq<nat>, l: seq<nat>, r: seq<nat>, k: nat, r0: nat, r1: nat, w: nat)
  {
    && |done| == k && IsWords(done, w) && r0 < Base(w) && r1 < Base(w)
    && InColumn(Acc(r0, r1, 0, Base(w)), 0, |l|, Base(w))
    && Val(done, w) + Acc(r0, r1, 0, Base(w)) * Pow(Base(w), k) == Rows(l, r, k, |l|, w)
  }

  lemma ColumnsAre(done: seq<nat>, l: seq<nat>, r: seq<nat>, k: nat, r0: nat, r1: nat, w: nat)
    ensures ColumnsDone(done, l, r, k, r0, r1, w)
       <==> && |done| == k && IsWords(done, w) && r0 < Base(w) && r1 < Base(w)
            && InColumn(Acc(r0, r1, 0, Base(w)), 0, |l|, Base(w))
            && Val(done, w) + Acc(r0, r1, 0, Base(w)) * Pow(Base(w), k) == Rows(l, r, k, |l|, w)
  {
    hide Val, Base, Acc, InColumn, Rows, Pow, IsWords;
  }

  lemma AppendedWord(done: seq<nat>, x: nat, w: nat)
    requires IsWords(done, w) && x < Base(w)
    ensures IsWords(done + [x], w)
  {
    hide Base;
  }

  lemma ColumnsStart(l: seq<nat>, r: seq<nat>, w: nat)
    requires w >= 1
    ensures ColumnsDone([], l, r, 0, 0, 0, w)
  {
    BaseAtLeast2(w);
    EmptyAcc(|l|, Base(w));
    NoWords(w);
    NoColumns(l, r, |l|, w);
    hide Val, Base, Acc, InColumn, Rows, Pow;
  }

  /** One column of the Comba loop: its products are accumulated, its low word is stored. */
  method OneColumn(result: array<nat>, left: array<nat>, right: array<nat>, k: nat, lo: nat, hi: nat, q0: nat, q1: nat,
                   w: nat) returns (r0: nat, r1: nat)
    requires w >= 1 && 1 <= left.Length == right.Length <= Base(w) && k < result.Length
    requires result != left && result != right && IsWords(left[..], w) && IsWords(right[..], w)
    requires lo <= hi <= left.Length && hi <= k + 1 && k < lo + right.Length
    requires (lo == 0 || k - lo >= right.Length - 1) && (hi == left.Length || k < hi)
    requires ColumnsDone(result[..k], left[..], right[..], k, q0, q1, w)
    modifies result
    ensures ColumnsDone(result[..k + 1], left[..], right[..], k + 1, r0, r1, w)
  {
    hide *;
    ghost var l, r, done := left[..], right[..], result[..k];
    ColumnsAre(done, l, r, k, q0, q1, w);
    ghost var q := Acc(q0, q1, 0, Base(w));
    var x: nat, y: nat, z: nat := q0, q1, 0;
    BaseAtLeast2(w);
    ColumnBegins(l, r, k, lo, q, Base(w));
    for i := lo to hi
      invariant x < Base(w) && y < Base(w) && z < Base(w)
      invariant left[..] == l && right[..] == r && result[..k] == done
      invariant ColumnSoFar(l, r, k, lo, i, q, Acc(x, y, z, Base(w)), Base(w))
    {
      AddProduct(l, r, k, lo, i, q, Acc(x, y, z, Base(w)), w);
      WordsAt(l, i, w);
      WordsAt(r, k - i, w);
      x, y, z := MulAdd(left[i], right[k - i], x, y, z, Base(w));
    }
    ColumnDone(l, r, k, lo, hi, q, Acc(x, y, z, Base(w)), Base(w));
    FinishColumn(done, l, r, k, lo, hi, w, q, x, y, z);
    result[k] := x;
    assert result[..k + 1] == done + [x];
    AppendedWord(done, x, w);
    r0, r1 := y, z;
    ColumnsAre(done + [x], l, r, k + 1, r0, r1, w);
  }

  lemma ColumnStart(l: seq<nat>, r: seq<nat>, k: nat)
    ensures Column(l, r, k, 0) == 0
  {
  }

  lemma LastAcc(r0: nat, r1: nat, b: nat)
    ensures Acc(r0, r1, 0, b) == r0 + b * r1
  {
  }

  /** A product of n-word numbers fits 2n words, so the last accumulator is its low word. */
  lemma TopWordSmall(x: nat, y: nat, p: nat, t: nat, b: nat, acc: nat, r0: nat, r1: nat, low: nat, pp: nat)
    requires x < p && y < p && pp == p * p && pp == b * t && acc == r0 + b * r1 && low + acc * t == x * y
    ensures acc == r0
  {
    ProductBound(x, y, p);
    if r1 >= 1 {
      MulMono(1, r1, b);
      MulMono(b, acc, t);
    }
    assert b * 0 == 0;
  }
}
