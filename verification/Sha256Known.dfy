/**
 What pins the constants and the functions of Sha256 from outside: the constants are root fractions of the
 first primes (FIPS 180-4 sections 4.2.2 and 5.3.3), and the digest of "abc" is the known one.
 */
module Sha256Known {
  import opened Arith
  import opened Sha256

  // -------------------------------------------------- fractions of square and cube roots

  const PRIMES_0: seq<nat> := [2, 3, 5, 7, 11, 13, 17, 19]
  const PRIMES_1: seq<nat> := [23, 29, 31, 37, 41, 43, 47, 53]
  const PRIMES_2: seq<nat> := [59, 61, 67, 71, 73, 79, 83, 89]
  const PRIMES_3: seq<nat> := [97, 101, 103, 107, 109, 113, 127, 131]
  const PRIMES_4: seq<nat> := [137, 139, 149, 151, 157, 163, 167, 173]
  const PRIMES_5: seq<nat> := [179, 181, 191, 193, 197, 199, 211, 223]
  const PRIMES_6: seq<nat> := [227, 229, 233, 239, 241, 251, 257, 263]
  const PRIMES_7: seq<nat> := [269, 271, 277, 281, 283, 293, 307, 311]

  /** The first 64 primes. */
  const PRIMES: seq<nat> := PRIMES_0 + PRIMES_1 + PRIMES_2 + PRIMES_3 + PRIMES_4 + PRIMES_5 + PRIMES_6 + PRIMES_7

  /** c is the whole part of the cube root of a prime, and k the first 32 bits of its fraction. */
  predicate CubeRoot(k: bv32, prime: nat, c: nat)
  {
    var v := c * 0x1_0000_0000 + (k as nat);
    v * v * v <= prime * 0x1_0000_0000_0000_0000_0000_0000 < (v + 1) * (v + 1) * (v + 1)
  }

  ghost predicate CubeFraction(k: bv32, prime: nat)
  {
    exists c: nat :: CubeRoot(k, prime, c)
  }

  /** c is the whole part of the square root of a prime, and h the first 32 bits of its fraction. */
  predicate SquareRoot(h: bv32, prime: nat, c: nat)
  {
    var v := c * 0x1_0000_0000 + (h as nat);
    v * v <= prime * 0x1_0000_0000_0000_0000 < (v + 1) * (v + 1)
  }

  ghost predicate SquareFraction(h: bv32, prime: nat)
  {
    exists c: nat :: SquareRoot(h, prime, c)
  }

  lemma CubeIntro(k: bv32, prime: nat, c: nat)
    requires CubeRoot(k, prime, c)
    ensures CubeFraction(k, prime)
  {
    hide CubeRoot;
  }

  lemma SquareIntro(h: bv32, prime: nat, c: nat)
    requires SquareRoot(h, prime, c)
    ensures SquareFraction(h, prime)
  {
    hide SquareRoot;
  }

  lemma CubeRoots0a()
    ensures CubeRoot(0x428a2f98, 2, 1)
    ensures CubeRoot(0x71374491, 3, 1)
    ensures CubeRoot(0xb5c0fbcf, 5, 1)
    ensures CubeRoot(0xe9b5dba5, 7, 1)
  {
  }

  lemma CubeRoots0b()
    ensures CubeRoot(0x3956c25b, 11, 2)
    ensures CubeRoot(0x59f111f1, 13, 2)
    ensures CubeRoot(0x923f82a4, 17, 2)
    ensures CubeRoot(0xab1c5ed5, 19, 2)
  {
  }

  lemma Constants0()
    ensures |PRIMES| == 64
    ensures Constants()[0] == 0x428a2f98 && Constants()[1] == 0x71374491
    ensures Constants()[2] == 0xb5c0fbcf && Constants()[3] == 0xe9b5dba5
    ensures PRIMES[0] == 2 && PRIMES[1] == 3 && PRIMES[2] == 5 && PRIMES[3] == 7
    ensures Constants()[4] == 0x3956c25b && Constants()[5] == 0x59f111f1
    ensures Constants()[6] == 0x923f82a4 && Constants()[7] == 0xab1c5ed5
    ensures PRIMES[4] == 11 && PRIMES[5] == 13 && PRIMES[6] == 17 && PRIMES[7] == 19
  {
  }

  lemma CubeFractions0(i: nat)
    requires 0 <= i < 8
    ensures |PRIMES| == 64 && CubeFraction(Constants()[i], PRIMES[i])
  {
    hide *;
    Constants0();
    CubeRoots0a();
    CubeRoots0b();
    CubeIntro(0x428a2f98, 2, 1);
    CubeIntro(0x71374491, 3, 1);
    CubeIntro(0xb5c0fbcf, 5, 1);
    CubeIntro(0xe9b5dba5, 7, 1);
    CubeIntro(0x3956c25b, 11, 2);
    CubeIntro(0x59f111f1, 13, 2);
    CubeIntro(0x923f82a4, 17, 2);
    CubeIntro(0xab1c5ed5, 19, 2);
  }

  lemma CubeRoots1a()
    ensures CubeRoot(0xd807aa98, 23, 2)
    ensures CubeRoot(0x12835b01, 29, 3)
    ensures CubeRoot(0x243185be, 31, 3)
    ensures CubeRoot(0x550c7dc3, 37, 3)
  {
  }

  lemma CubeRoots1b()
    ensures CubeRoot(0x72be5d74, 41, 3)
    ensures CubeRoot(0x80deb1fe, 43, 3)
    ensures CubeRoot(0x9bdc06a7, 47, 3)
    ensures CubeRoot(0xc19bf174, 53, 3)
  {
  }

  lemma Constants1()
    ensures |PRIMES| == 64
    ensures Constants()[8] == 0xd807aa98 && Constants()[9] == 0x12835b01
    ensures Constants()[10] == 0x243185be && Constants()[11] == 0x550c7dc3
    ensures PRIMES[8] == 23 && PRIMES[9] == 29 && PRIMES[10] == 31 && PRIMES[11] == 37
    ensures Constants()[12] == 0x72be5d74 && Constants()[13] == 0x80deb1fe
    ensures Constants()[14] == 0x9bdc06a7 && Constants()[15] == 0xc19bf174
    ensures PRIMES[12] == 41 && PRIMES[13] == 43 && PRIMES[14] == 47 && PRIMES[15] == 53
  {
  }

  lemma CubeFractions1(i: nat)
    requires 8 <= i < 16
    ensures |PRIMES| == 64 && CubeFraction(Constants()[i], PRIMES[i])
  {
    hide *;
    Constants1();
    CubeRoots1a();
    CubeRoots1b();
    CubeIntro(0xd807aa98, 23, 2);
    CubeIntro(0x12835b01, 29, 3);
    CubeIntro(0x243185be, 31, 3);
    CubeIntro(0x550c7dc3, 37, 3);
    CubeIntro(0x72be5d74, 41, 3);
    CubeIntro(0x80deb1fe, 43, 3);
    CubeIntro(0x9bdc06a7, 47, 3);
    CubeIntro(0xc19bf174, 53, 3);
  }

  lemma CubeRoots2a()
    ensures CubeRoot(0xe49b69c1, 59, 3)
    ensures CubeRoot(0xefbe4786, 61, 3)
    ensures CubeRoot(0x0fc19dc6, 67, 4)
    ensures CubeRoot(0x240ca1cc, 71, 4)
  {
  }

  lemma CubeRoots2b()
    ensures CubeRoot(0x2de92c6f, 73, 4)
    ensures CubeRoot(0x4a7484aa, 79, 4)
    ensures CubeRoot(0x5cb0a9dc, 83, 4)
    ensures CubeRoot(0x76f988da, 89, 4)
  {
  }

  lemma Constants2()
    ensures |PRIMES| == 64
    ensures Constants()[16] == 0xe49b69c1 && Constants()[17] == 0xefbe4786
    ensures Constants()[18] == 0x0fc19dc6 && Constants()[19] == 0x240ca1cc
    ensures PRIMES[16] == 59 && PRIMES[17] == 61 && PRIMES[18] == 67 && PRIMES[19] == 71
    ensures Constants()[20] == 0x2de92c6f && Constants()[21] == 0x4a7484aa
    ensures Constants()[22] == 0x5cb0a9dc && Constants()[23] == 0x76f988da
    ensures PRIMES[20] == 73 && PRIMES[21] == 79 && PRIMES[22] == 83 && PRIMES[23] == 89
  {
  }

  lemma CubeFractions2(i: nat)
    requires 16 <= i < 24
    ensures |PRIMES| == 64 && CubeFraction(Constants()[i], PRIMES[i])
  {
    hide *;
    Constants2();
    CubeRoots2a();
    CubeRoots2b();
    CubeIntro(0xe49b69c1, 59, 3);
    CubeIntro(0xefbe4786, 61, 3);
    CubeIntro(0x0fc19dc6, 67, 4);
    CubeIntro(0x240ca1cc, 71, 4);
    CubeIntro(0x2de92c6f, 73, 4);
    CubeIntro(0x4a7484aa, 79, 4);
    CubeIntro(0x5cb0a9dc, 83, 4);
    CubeIntro(0x76f988da, 89, 4);
  }

  lemma CubeRoots3a()
    ensures CubeRoot(0x983e5152, 97, 4)
    ensures CubeRoot(0xa831c66d, 101, 4)
    ensures CubeRoot(0xb00327c8, 103, 4)
    ensures CubeRoot(0xbf597fc7, 107, 4)
  {
  }

  lemma CubeRoots3b()
    ensures CubeRoot(0xc6e00bf3, 109, 4)
    ensures CubeRoot(0xd5a79147, 113, 4)
    ensures CubeRoot(0x06ca6351, 127, 5)
    ensures CubeRoot(0x14292967, 131, 5)
  {
  }

  lemma Constants3()
    ensures |PRIMES| == 64
    ensures Constants()[24] == 0x983e5152 && Constants()[25] == 0xa831c66d
    ensures Constants()[26] == 0xb00327c8 && Constants()[27] == 0xbf597fc7
    ensures PRIMES[24] == 97 && PRIMES[25] == 101 && PRIMES[26] == 103 && PRIMES[27] == 107
    ensures Constants()[28] == 0xc6e00bf3 && Constants()[29] == 0xd5a79147
    ensures Constants()[30] == 0x06ca6351 && Constants()[31] == 0x14292967
    ensures PRIMES[28] == 109 && PRIMES[29] == 113 && PRIMES[30] == 127 && PRIMES[31] == 131
  {
  }

  lemma CubeFractions3(i: nat)
    requires 24 <= i < 32
    ensures |PRIMES| == 64 && CubeFraction(Constants()[i], PRIMES[i])
  {
    hide *;
    Constants3();
    CubeRoots3a();
    CubeRoots3b();
    CubeIntro(0x983e5152, 97, 4);
    CubeIntro(0xa831c66d, 101, 4);
    CubeIntro(0xb00327c8, 103, 4);
    CubeIntro(0xbf597fc7, 107, 4);
    CubeIntro(0xc6e00bf3, 109, 4);
    CubeIntro(0xd5a79147, 113, 4);
    CubeIntro(0x06ca6351, 127, 5);
    CubeIntro(0x14292967, 131, 5);
  }

  lemma CubeRoots4a()
    ensures CubeRoot(0x27b70a85, 137, 5)
    ensures CubeRoot(0x2e1b2138, 139, 5)
    ensures CubeRoot(0x4d2c6dfc, 149, 5)
    ensures CubeRoot(0x53380d13, 151, 5)
  {
  }

  lemma CubeRoots4b()
    ensures CubeRoot(0x650a7354, 157, 5)
    ensures CubeRoot(0x766a0abb, 163, 5)
    ensures CubeRoot(0x81c2c92e, 167, 5)
    ensures CubeRoot(0x92722c85, 173, 5)
  {
  }

  lemma Constants4()
    ensures |PRIMES| == 64
    ensures Constants()[32] == 0x27b70a85 && Constants()[33] == 0x2e1b2138
    ensures Constants()[34] == 0x4d2c6dfc && Constants()[35] == 0x53380d13
    ensures PRIMES[32] == 137 && PRIMES[33] == 139 && PRIMES[34] == 149 && PRIMES[35] == 151
    ensures Constants()[36] == 0x650a7354 && Constants()[37] == 0x766a0abb
    ensures Constants()[38] == 0x81c2c92e && Constants()[39] == 0x92722c85
    ensures PRIMES[36] == 157 && PRIMES[37] == 163 && PRIMES[38] == 167 && PRIMES[39] == 173
  {
  }

  lemma CubeFractions4(i: nat)
    requires 32 <= i < 40
    ensures |PRIMES| == 64 && CubeFraction(Constants()[i], PRIMES[i])
  {
    hide *;
    Constants4();
    CubeRoots4a();
    CubeRoots4b();
    CubeIntro(0x27b70a85, 137, 5);
    CubeIntro(0x2e1b2138, 139, 5);
    CubeIntro(0x4d2c6dfc, 149, 5);
    CubeIntro(0x53380d13, 151, 5);
    CubeIntro(0x650a7354, 157, 5);
    CubeIntro(0x766a0abb, 163, 5);
    CubeIntro(0x81c2c92e, 167, 5);
    CubeIntro(0x92722c85, 173, 5);
  }

  lemma CubeRoots5a()
    ensures CubeRoot(0xa2bfe8a1, 179, 5)
    ensures CubeRoot(0xa81a664b, 181, 5)
    ensures CubeRoot(0xc24b8b70, 191, 5)
    ensures CubeRoot(0xc76c51a3, 193, 5)
  {
  }

  lemma CubeRoots5b()
    ensures CubeRoot(0xd192e819, 197, 5)
    ensures CubeRoot(0xd6990624, 199, 5)
    ensures CubeRoot(0xf40e3585, 211, 5)
    ensures CubeRoot(0x106aa070, 223, 6)
  {
  }

  lemma Constants5()
    ensures |PRIMES| == 64
    ensures Constants()[40] == 0xa2bfe8a1 && Constants()[41] == 0xa81a664b
    ensures Constants()[42] == 0xc24b8b70 && Constants()[43] == 0xc76c51a3
    ensures PRIMES[40] == 179 && PRIMES[41] == 181 && PRIMES[42] == 191 && PRIMES[43] == 193
    ensures Constants()[44] == 0xd192e819 && Constants()[45] == 0xd6990624
    ensures Constants()[46] == 0xf40e3585 && Constants()[47] == 0x106aa070
    ensures PRIMES[44] == 197 && PRIMES[45] == 199 && PRIMES[46] == 211 && PRIMES[47] == 223
  {
  }

  lemma CubeFractions5(i: nat)
    requires 40 <= i < 48
    ensures |PRIMES| == 64 && CubeFraction(Constants()[i], PRIMES[i])
  {
    hide *;
    Constants5();
    CubeRoots5a();
    CubeRoots5b();
    CubeIntro(0xa2bfe8a1, 179, 5);
    CubeIntro(0xa81a664b, 181, 5);
    CubeIntro(0xc24b8b70, 191, 5);
    CubeIntro(0xc76c51a3, 193, 5);
    CubeIntro(0xd192e819, 197, 5);
    CubeIntro(0xd6990624, 199, 5);
    CubeIntro(0xf40e3585, 211, 5);
    CubeIntro(0x106aa070, 223, 6);
  }

  lemma CubeRoots6a()
    ensures CubeRoot(0x19a4c116, 227, 6)
    ensures CubeRoot(0x1e376c08, 229, 6)
    ensures CubeRoot(0x2748774c, 233, 6)
    ensures CubeRoot(0x34b0bcb5, 239, 6)
  {
  }

  lemma CubeRoots6b()
    ensures CubeRoot(0x391c0cb3, 241, 6)
    ensures CubeRoot(0x4ed8aa4a, 251, 6)
    ensures CubeRoot(0x5b9cca4f, 257, 6)
    ensures CubeRoot(0x682e6ff3, 263, 6)
  {
  }

  lemma Constants6()
    ensures |PRIMES| == 64
    ensures Constants()[48] == 0x19a4c116 && Constants()[49] == 0x1e376c08
    ensures Constants()[50] == 0x2748774c && Constants()[51] == 0x34b0bcb5
    ensures PRIMES[48] == 227 && PRIMES[49] == 229 && PRIMES[50] == 233 && PRIMES[51] == 239
    ensures Constants()[52] == 0x391c0cb3 && Constants()[53] == 0x4ed8aa4a
    ensures Constants()[54] == 0x5b9cca4f && Constants()[55] == 0x682e6ff3
    ensures PRIMES[52] == 241 && PRIMES[53] == 251 && PRIMES[54] == 257 && PRIMES[55] == 263
  {
  }

  lemma CubeFractions6(i: nat)
    requires 48 <= i < 56
    ensures |PRIMES| == 64 && CubeFraction(Constants()[i], PRIMES[i])
  {
    hide *;
    Constants6();
    CubeRoots6a();
    CubeRoots6b();
    CubeIntro(0x19a4c116, 227, 6);
    CubeIntro(0x1e376c08, 229, 6);
    CubeIntro(0x2748774c, 233, 6);
    CubeIntro(0x34b0bcb5, 239, 6);
    CubeIntro(0x391c0cb3, 241, 6);
    CubeIntro(0x4ed8aa4a, 251, 6);
    CubeIntro(0x5b9cca4f, 257, 6);
    CubeIntro(0x682e6ff3, 263, 6);
  }

  lemma CubeRoots7a()
    ensures CubeRoot(0x748f82ee, 269, 6)
    ensures CubeRoot(0x78a5636f, 271, 6)
    ensures CubeRoot(0x84c87814, 277, 6)
    ensures CubeRoot(0x8cc70208, 281, 6)
  {
  }

  lemma CubeRoots7b()
    ensures CubeRoot(0x90befffa, 283, 6)
    ensures CubeRoot(0xa4506ceb, 293, 6)
    ensures CubeRoot(0xbef9a3f7, 307, 6)
    ensures CubeRoot(0xc67178f2, 311, 6)
  {
  }

  lemma Constants7()
    ensures |PRIMES| == 64
    ensures Constants()[56] == 0x748f82ee && Constants()[57] == 0x78a5636f
    ensures Constants()[58] == 0x84c87814 && Constants()[59] == 0x8cc70208
    ensures PRIMES[56] == 269 && PRIMES[57] == 271 && PRIMES[58] == 277 && PRIMES[59] == 281
    ensures Constants()[60] == 0x90befffa && Constants()[61] == 0xa4506ceb
    ensures Constants()[62] == 0xbef9a3f7 && Constants()[63] == 0xc67178f2
    ensures PRIMES[60] == 283 && PRIMES[61] == 293 && PRIMES[62] == 307 && PRIMES[63] == 311
  {
  }

  lemma CubeFractions7(i: nat)
    requires 56 <= i < 64
    ensures |PRIMES| == 64 && CubeFraction(Constants()[i], PRIMES[i])
  {
    hide *;
    Constants7();
    CubeRoots7a();
    CubeRoots7b();
    CubeIntro(0x748f82ee, 269, 6);
    CubeIntro(0x78a5636f, 271, 6);
    CubeIntro(0x84c87814, 277, 6);
    CubeIntro(0x8cc70208, 281, 6);
    CubeIntro(0x90befffa, 283, 6);
    CubeIntro(0xa4506ceb, 293, 6);
    CubeIntro(0xbef9a3f7, 307, 6);
    CubeIntro(0xc67178f2, 311, 6);
  }

  /** The constant of round i is the first 32 bits of the fraction of the cube root of the i-th prime. */
  lemma ConstantsAreCubeRoots(i: nat)
    requires i < 64
    ensures |PRIMES| == 64 && CubeFraction(Constants()[i], PRIMES[i])
  {
    hide *;
    if i < 8 {
      CubeFractions0(i);
    } else if i < 16 {
      CubeFractions1(i);
    } else if i < 24 {
      CubeFractions2(i);
    } else if i < 32 {
      CubeFractions3(i);
    } else if i < 40 {
      CubeFractions4(i);
    } else if i < 48 {
      CubeFractions5(i);
    } else if i < 56 {
      CubeFractions6(i);
    } else {
      CubeFractions7(i);
    }
  }

  lemma SquareRoots()
    ensures SquareRoot(0x6a09e667, 2, 1)
    ensures SquareRoot(0xbb67ae85, 3, 1)
    ensures SquareRoot(0x3c6ef372, 5, 2)
    ensures SquareRoot(0xa54ff53a, 7, 2)
    ensures SquareRoot(0x510e527f, 11, 3)
    ensures SquareRoot(0x9b05688c, 13, 3)
    ensures SquareRoot(0x1f83d9ab, 17, 4)
    ensures SquareRoot(0x5be0cd19, 19, 4)
  {
  }

  /** The initial hash value is made of the fractions of the square roots of the first eight primes. */
  lemma InitialHashIsSquareRoots()
    ensures var h := InitialHash();
      && SquareFraction(h.a, 2) && SquareFraction(h.b, 3) && SquareFraction(h.c, 5) && SquareFraction(h.d, 7)
      && SquareFraction(h.e, 11) && SquareFraction(h.f, 13) && SquareFraction(h.g, 17) && SquareFraction(h.h, 19)
  {
    SquareRoots();
    hide SquareRoot, SquareFraction;
    SquareIntro(0x6a09e667, 2, 1);
    SquareIntro(0xbb67ae85, 3, 1);
    SquareIntro(0x3c6ef372, 5, 2);
    SquareIntro(0xa54ff53a, 7, 2);
    SquareIntro(0x510e527f, 11, 3);
    SquareIntro(0x9b05688c, 13, 3);
    SquareIntro(0x1f83d9ab, 17, 4);
    SquareIntro(0x5be0cd19, 19, 4);
  }

  // ------------------------------------------------------- the digest of "abc"

  /** "abc", the one bit, zeros and the length of 24 bits. */
  function Block(): (b: seq<bv8>)
    ensures |b| == 64
  {
    [0x61, 0x62, 0x63] + [0x80] + Zeros(52) + [0, 0, 0, 0, 0, 0, 0, 24]
  }

  lemma PaddedAbc()
    ensures Pad([0x61, 0x62, 0x63]) == Block()
  {
    LengthOfAbc();
    assert ZeroCount(3) == 52;
    hide LengthBytes, ZeroCount;
    assert |[0x61 as bv8, 0x62, 0x63]| == 3;
  }

  lemma LengthByteIs(v: nat, i: nat, x: nat)
    requires i < 8 && (v / Pow(256, 7 - i)) % 256 == x
    ensures x < 256 && LengthByte(v, i) == x as bv8
  {
    hide Pow;
  }

  lemma LengthOfAbc()
    ensures LengthBytes(24) == [0, 0, 0, 0, 0, 0, 0, 24]
  {
    hide LengthByte;
    forall i | 0 <= i < 7
      ensures LengthByte(24, i) == 0
    {
      PowAbove(6 - i);
      ModSmall(24, Pow(256, 7 - i));
      hide Pow;
      LengthByteIs(24, i, 0);
    }
    assert Pow(256, 0) == 1;
    LengthByteIs(24, 7, 24);
  }

  lemma {:induction false} PowAbove(k: nat)
    ensures Pow(256, k + 1) > 24
  {
    if k > 0 {
      PowAbove(k - 1);
    }
  }

  ghost predicate Words0(b: seq<bv8>)
    requires |b| == 64
  {
    && Schedule(b, 0) == 0x61626380 && Schedule(b, 1) == 0x00000000
    && Schedule(b, 2) == 0x00000000 && Schedule(b, 3) == 0x00000000
    && Schedule(b, 4) == 0x00000000 && Schedule(b, 5) == 0x00000000
    && Schedule(b, 6) == 0x00000000 && Schedule(b, 7) == 0x00000000
  }

  ghost predicate Words1(b: seq<bv8>)
    requires |b| == 64
  {
    && Schedule(b, 8) == 0x00000000 && Schedule(b, 9) == 0x00000000
    && Schedule(b, 10) == 0x00000000 && Schedule(b, 11) == 0x00000000
    && Schedule(b, 12) == 0x00000000 && Schedule(b, 13) == 0x00000000
    && Schedule(b, 14) == 0x00000000 && Schedule(b, 15) == 0x00000018
  }

  ghost predicate Words2(b: seq<bv8>)
    requires |b| == 64
  {
    && Schedule(b, 16) == 0x61626380 && Schedule(b, 17) == 0x000f0000
    && Schedule(b, 18) == 0x7da86405 && Schedule(b, 19) == 0x600003c6
    && Schedule(b, 20) == 0x3e9d7b78 && Schedule(b, 21) == 0x0183fc00
    && Schedule(b, 22) == 0x12dcbfdb && Schedule(b, 23) == 0xe2e2c38e
  }

  ghost predicate Words3(b: seq<bv8>)
    requires |b| == 64
  {
    && Schedule(b, 24) == 0xc8215c1a && Schedule(b, 25) == 0xb73679a2
    && Schedule(b, 26) == 0xe5bc3909 && Schedule(b, 27) == 0x32663c5b
    && Schedule(b, 28) == 0x9d209d67 && Schedule(b, 29) == 0xec8726cb
    && Schedule(b, 30) == 0x702138a4 && Schedule(b, 31) == 0xd3b7973b
  }

  ghost predicate Words4(b: seq<bv8>)
    requires |b| == 64
  {
    && Schedule(b, 32) == 0x93f5997f && Schedule(b, 33) == 0x3b68ba73
    && Schedule(b, 34) == 0xaff4ffc1 && Schedule(b, 35) == 0xf10a5c62
    && Schedule(b, 36) == 0x0a8b3996 && Schedule(b, 37) == 0x72af830a
    && Schedule(b, 38) == 0x9409e33e && Schedule(b, 39) == 0x24641522
  }

  ghost predicate Words5(b: seq<bv8>)
    requires |b| == 64
  {
    && Schedule(b, 40) == 0x9f47bf94 && Schedule(b, 41) == 0xf0a64f5a
    && Schedule(b, 42) == 0x3e246a79 && Schedule(b, 43) == 0x27333ba3
    && Schedule(b, 44) == 0x0c4763f2 && Schedule(b, 45) == 0x840abf27
    && Schedule(b, 46) == 0x7a290d5d && Schedule(b, 47) == 0x065c43da
  }

  ghost predicate Words6(b: seq<bv8>)
    requires |b| == 64
  {
    && Schedule(b, 48) == 0xfb3e89cb && Schedule(b, 49) == 0xcc7617db
    && Schedule(b, 50) == 0xb9e66c34 && Schedule(b, 51) == 0xa9993667
    && Schedule(b, 52) == 0x84badedd && Schedule(b, 53) == 0xc21462bc
    && Schedule(b, 54) == 0x1487472c && Schedule(b, 55) == 0xb20f7a99
  }

  ghost predicate Words7(b: seq<bv8>)
    requires |b| == 64
  {
    && Schedule(b, 56) == 0xef57b9cd && Schedule(b, 57) == 0xebe6b238
    && Schedule(b, 58) == 0x9fe3095e && Schedule(b, 59) == 0x78bc8d4b
    && Schedule(b, 60) == 0xa43fcf15 && Schedule(b, 61) == 0x668b2ff8
    && Schedule(b, 62) == 0xeeaba2cc && Schedule(b, 63) == 0x12b1edeb
  }

  lemma FirstWords()
    ensures Words0(Block()) && Words1(Block())
  {
    FirstBytes();
    hide *;
    ScheduleStart(Block(), 0);
    ScheduleStart(Block(), 1);
    ScheduleStart(Block(), 2);
    ScheduleStart(Block(), 3);
    ScheduleStart(Block(), 4);
    ScheduleStart(Block(), 5);
    ScheduleStart(Block(), 6);
    ScheduleStart(Block(), 7);
    ScheduleStart(Block(), 8);
    ScheduleStart(Block(), 9);
    ScheduleStart(Block(), 10);
    ScheduleStart(Block(), 11);
    ScheduleStart(Block(), 12);
    ScheduleStart(Block(), 13);
    ScheduleStart(Block(), 14);
    ScheduleStart(Block(), 15);
    FirstBlockWords();
    WordsIntro(Block());
  }

  lemma WordsIntro(b: seq<bv8>)
    requires |b| == 64
    requires Schedule(b, 0) == 0x61626380 && Schedule(b, 1) == 0x00000000
    requires Schedule(b, 2) == 0x00000000 && Schedule(b, 3) == 0x00000000
    requires Schedule(b, 4) == 0x00000000 && Schedule(b, 5) == 0x00000000
    requires Schedule(b, 6) == 0x00000000 && Schedule(b, 7) == 0x00000000
    requires Schedule(b, 8) == 0x00000000 && Schedule(b, 9) == 0x00000000
    requires Schedule(b, 10) == 0x00000000 && Schedule(b, 11) == 0x00000000
    requires Schedule(b, 12) == 0x00000000 && Schedule(b, 13) == 0x00000000
    requires Schedule(b, 14) == 0x00000000 && Schedule(b, 15) == 0x00000018
    ensures Words0(b) && Words1(b)
  {
    hide Schedule;
  }

  lemma FirstBytes()
    ensures var b := Block();
      && b[0] == 0x61 && b[1] == 0x62 && b[2] == 0x63 && b[3] == 0x80 && b[63] == 24
      && forall i :: 4 <= i < 63 ==> b[i] == 0
  {
  }

  lemma FirstBlockWords()
    ensures BlockWord(0x61, 0x62, 0x63, 0x80) == 0x61626380 && BlockWord(0, 0, 0, 0) == 0
    ensures BlockWord(0, 0, 0, 24) == 0x00000018
  {
  }

  function Expanded(w2: bv32, w7: bv32, w15: bv32, w16: bv32): (w: bv32)
  {
    Sum(Sum(Sum(SmallSigma1(w2), w7), SmallSigma0(w15)), w16)
  }

  lemma ScheduleNext(b: seq<bv8>, t: nat)
    requires |b| == 64 && 16 <= t
    ensures Schedule(b, t)
         == Expanded(Schedule(b, t - 2), Schedule(b, t - 7), Schedule(b, t - 15), Schedule(b, t - 16))
  {
    hide SmallSigma0, SmallSigma1, Sum, BlockWord;
  }

  lemma Expand2()
    ensures Expanded(0x00000000, 0x00000000, 0x00000000, 0x61626380) == 0x61626380
    ensures Expanded(0x00000018, 0x00000000, 0x00000000, 0x00000000) == 0x000f0000
    ensures Expanded(0x61626380, 0x00000000, 0x00000000, 0x00000000) == 0x7da86405
    ensures Expanded(0x000f0000, 0x00000000, 0x00000000, 0x00000000) == 0x600003c6
    ensures Expanded(0x7da86405, 0x00000000, 0x00000000, 0x00000000) == 0x3e9d7b78
    ensures Expanded(0x600003c6, 0x00000000, 0x00000000, 0x00000000) == 0x0183fc00
    ensures Expanded(0x3e9d7b78, 0x00000018, 0x00000000, 0x00000000) == 0x12dcbfdb
    ensures Expanded(0x0183fc00, 0x61626380, 0x00000000, 0x00000000) == 0xe2e2c38e
  {
  }

  lemma MoreWords2(b: seq<bv8>)
    requires |b| == 64 && Words0(b) && Words1(b)
    ensures Words2(b)
  {
    Expand2();
    ScheduleNext(b, 16);
    ScheduleNext(b, 17);
    ScheduleNext(b, 18);
    ScheduleNext(b, 19);
    ScheduleNext(b, 20);
    ScheduleNext(b, 21);
    ScheduleNext(b, 22);
    ScheduleNext(b, 23);
    hide Schedule, Expanded;
  }

  lemma Expand3()
    ensures Expanded(0x12dcbfdb, 0x000f0000, 0x00000000, 0x00000000) == 0xc8215c1a
    ensures Expanded(0xe2e2c38e, 0x7da86405, 0x00000000, 0x00000000) == 0xb73679a2
    ensures Expanded(0xc8215c1a, 0x600003c6, 0x00000000, 0x00000000) == 0xe5bc3909
    ensures Expanded(0xb73679a2, 0x3e9d7b78, 0x00000000, 0x00000000) == 0x32663c5b
    ensures Expanded(0xe5bc3909, 0x0183fc00, 0x00000000, 0x00000000) == 0x9d209d67
    ensures Expanded(0x32663c5b, 0x12dcbfdb, 0x00000000, 0x00000000) == 0xec8726cb
    ensures Expanded(0x9d209d67, 0xe2e2c38e, 0x00000018, 0x00000000) == 0x702138a4
    ensures Expanded(0xec8726cb, 0xc8215c1a, 0x61626380, 0x00000018) == 0xd3b7973b
  {
  }

  lemma MoreWords3(b: seq<bv8>)
    requires |b| == 64 && Words1(b) && Words2(b)
    ensures Words3(b)
  {
    Expand3();
    ScheduleNext(b, 24);
    ScheduleNext(b, 25);
    ScheduleNext(b, 26);
    ScheduleNext(b, 27);
    ScheduleNext(b, 28);
    ScheduleNext(b, 29);
    ScheduleNext(b, 30);
    ScheduleNext(b, 31);
    hide Schedule, Expanded;
  }

  lemma Expand4()
    ensures Expanded(0x702138a4, 0xb73679a2, 0x000f0000, 0x61626380) == 0x93f5997f
    ensures Expanded(0xd3b7973b, 0xe5bc3909, 0x7da86405, 0x000f0000) == 0x3b68ba73
    ensures Expanded(0x93f5997f, 0x32663c5b, 0x600003c6, 0x7da86405) == 0xaff4ffc1
    ensures Expanded(0x3b68ba73, 0x9d209d67, 0x3e9d7b78, 0x600003c6) == 0xf10a5c62
    ensures Expanded(0xaff4ffc1, 0xec8726cb, 0x0183fc00, 0x3e9d7b78) == 0x0a8b3996
    ensures Expanded(0xf10a5c62, 0x702138a4, 0x12dcbfdb, 0x0183fc00) == 0x72af830a
    ensures Expanded(0x0a8b3996, 0xd3b7973b, 0xe2e2c38e, 0x12dcbfdb) == 0x9409e33e
    ensures Expanded(0x72af830a, 0x93f5997f, 0xc8215c1a, 0xe2e2c38e) == 0x24641522
  {
  }

  lemma MoreWords4(b: seq<bv8>)
    requires |b| == 64 && Words2(b) && Words3(b)
    ensures Words4(b)
  {
    Expand4();
    ScheduleNext(b, 32);
    ScheduleNext(b, 33);
    ScheduleNext(b, 34);
    ScheduleNext(b, 35);
    ScheduleNext(b, 36);
    ScheduleNext(b, 37);
    ScheduleNext(b, 38);
    ScheduleNext(b, 39);
    hide Schedule, Expanded;
  }

  lemma Expand5()
    ensures Expanded(0x9409e33e, 0x3b68ba73, 0xb73679a2, 0xc8215c1a) == 0x9f47bf94
    ensures Expanded(0x24641522, 0xaff4ffc1, 0xe5bc3909, 0xb73679a2) == 0xf0a64f5a
    ensures Expanded(0x9f47bf94, 0xf10a5c62, 0x32663c5b, 0xe5bc3909) == 0x3e246a79
    ensures Expanded(0xf0a64f5a, 0x0a8b3996, 0x9d209d67, 0x32663c5b) == 0x27333ba3
    ensures Expanded(0x3e246a79, 0x72af830a, 0xec8726cb, 0x9d209d67) == 0x0c4763f2
    ensures Expanded(0x27333ba3, 0x9409e33e, 0x702138a4, 0xec8726cb) == 0x840abf27
    ensures Expanded(0x0c4763f2, 0x24641522, 0xd3b7973b, 0x702138a4) == 0x7a290d5d
    ensures Expanded(0x840abf27, 0x9f47bf94, 0x93f5997f, 0xd3b7973b) == 0x065c43da
  {
  }

  lemma MoreWords5(b: seq<bv8>)
    requires |b| == 64 && Words3(b) && Words4(b)
    ensures Words5(b)
  {
    Expand5();
    ScheduleNext(b, 40);
    ScheduleNext(b, 41);
    ScheduleNext(b, 42);
    ScheduleNext(b, 43);
    ScheduleNext(b, 44);
    ScheduleNext(b, 45);
    ScheduleNext(b, 46);
    ScheduleNext(b, 47);
    hide Schedule, Expanded;
  }

  lemma Expand6()
    ensures Expanded(0x7a290d5d, 0xf0a64f5a, 0x3b68ba73, 0x93f5997f) == 0xfb3e89cb
    ensures Expanded(0x065c43da, 0x3e246a79, 0xaff4ffc1, 0x3b68ba73) == 0xcc7617db
    ensures Expanded(0xfb3e89cb, 0x27333ba3, 0xf10a5c62, 0xaff4ffc1) == 0xb9e66c34
    ensures Expanded(0xcc7617db, 0x0c4763f2, 0x0a8b3996, 0xf10a5c62) == 0xa9993667
    ensures Expanded(0xb9e66c34, 0x840abf27, 0x72af830a, 0x0a8b3996) == 0x84badedd
    ensures Expanded(0xa9993667, 0x7a290d5d, 0x9409e33e, 0x72af830a) == 0xc21462bc
    ensures Expanded(0x84badedd, 0x065c43da, 0x24641522, 0x9409e33e) == 0x1487472c
    ensures Expanded(0xc21462bc, 0xfb3e89cb, 0x9f47bf94, 0x24641522) == 0xb20f7a99
  {
  }

  lemma MoreWords6(b: seq<bv8>)
    requires |b| == 64 && Words4(b) && Words5(b)
    ensures Words6(b)
  {
    Expand6();
    ScheduleNext(b, 48);
    ScheduleNext(b, 49);
    ScheduleNext(b, 50);
    ScheduleNext(b, 51);
    ScheduleNext(b, 52);
    ScheduleNext(b, 53);
    ScheduleNext(b, 54);
    ScheduleNext(b, 55);
    hide Schedule, Expanded;
  }

  lemma Expand7()
    ensures Expanded(0x1487472c, 0xcc7617db, 0xf0a64f5a, 0x9f47bf94) == 0xef57b9cd
    ensures Expanded(0xb20f7a99, 0xb9e66c34, 0x3e246a79, 0xf0a64f5a) == 0xebe6b238
    ensures Expanded(0xef57b9cd, 0xa9993667, 0x27333ba3, 0x3e246a79) == 0x9fe3095e
    ensures Expanded(0xebe6b238, 0x84badedd, 0x0c4763f2, 0x27333ba3) == 0x78bc8d4b
    ensures Expanded(0x9fe3095e, 0xc21462bc, 0x840abf27, 0x0c4763f2) == 0xa43fcf15
    ensures Expanded(0x78bc8d4b, 0x1487472c, 0x7a290d5d, 0x840abf27) == 0x668b2ff8
    ensures Expanded(0xa43fcf15, 0xb20f7a99, 0x065c43da, 0x7a290d5d) == 0xeeaba2cc
    ensures Expanded(0x668b2ff8, 0xef57b9cd, 0xfb3e89cb, 0x065c43da) == 0x12b1edeb
  {
  }

  lemma MoreWords7(b: seq<bv8>)
    requires |b| == 64 && Words5(b) && Words6(b)
    ensures Words7(b)
  {
    Expand7();
    ScheduleNext(b, 56);
    ScheduleNext(b, 57);
    ScheduleNext(b, 58);
    ScheduleNext(b, 59);
    ScheduleNext(b, 60);
    ScheduleNext(b, 61);
    ScheduleNext(b, 62);
    ScheduleNext(b, 63);
    hide Schedule, Expanded;
  }

  lemma Turn0()
    ensures Round(Eight(0x6a09e667, 0xbb67ae85, 0x3c6ef372, 0xa54ff53a, 0x510e527f, 0x9b05688c, 0x1f83d9ab, 0x5be0cd19),
                  0x428a2f98, 0x61626380)
         == Eight(0x5d6aebcd, 0x6a09e667, 0xbb67ae85, 0x3c6ef372, 0xfa2a4622, 0x510e527f, 0x9b05688c, 0x1f83d9ab)
    ensures Round(Eight(0x5d6aebcd, 0x6a09e667, 0xbb67ae85, 0x3c6ef372, 0xfa2a4622, 0x510e527f, 0x9b05688c, 0x1f83d9ab),
                  0x71374491, 0x00000000)
         == Eight(0x5a6ad9ad, 0x5d6aebcd, 0x6a09e667, 0xbb67ae85, 0x78ce7989, 0xfa2a4622, 0x510e527f, 0x9b05688c)
    ensures Round(Eight(0x5a6ad9ad, 0x5d6aebcd, 0x6a09e667, 0xbb67ae85, 0x78ce7989, 0xfa2a4622, 0x510e527f, 0x9b05688c),
                  0xb5c0fbcf, 0x00000000)
         == Eight(0xc8c347a7, 0x5a6ad9ad, 0x5d6aebcd, 0x6a09e667, 0xf92939eb, 0x78ce7989, 0xfa2a4622, 0x510e527f)
    ensures Round(Eight(0xc8c347a7, 0x5a6ad9ad, 0x5d6aebcd, 0x6a09e667, 0xf92939eb, 0x78ce7989, 0xfa2a4622, 0x510e527f),
                  0xe9b5dba5, 0x00000000)
         == Eight(0xd550f666, 0xc8c347a7, 0x5a6ad9ad, 0x5d6aebcd, 0x24e00850, 0xf92939eb, 0x78ce7989, 0xfa2a4622)
    ensures Round(Eight(0xd550f666, 0xc8c347a7, 0x5a6ad9ad, 0x5d6aebcd, 0x24e00850, 0xf92939eb, 0x78ce7989, 0xfa2a4622),
                  0x3956c25b, 0x00000000)
         == Eight(0x04409a6a, 0xd550f666, 0xc8c347a7, 0x5a6ad9ad, 0x43ada245, 0x24e00850, 0xf92939eb, 0x78ce7989)
    ensures Round(Eight(0x04409a6a, 0xd550f666, 0xc8c347a7, 0x5a6ad9ad, 0x43ada245, 0x24e00850, 0xf92939eb, 0x78ce7989),
                  0x59f111f1, 0x00000000)
         == Eight(0x2b4209f5, 0x04409a6a, 0xd550f666, 0xc8c347a7, 0x714260ad, 0x43ada245, 0x24e00850, 0xf92939eb)
    ensures Round(Eight(0x2b4209f5, 0x04409a6a, 0xd550f666, 0xc8c347a7, 0x714260ad, 0x43ada245, 0x24e00850, 0xf92939eb),
                  0x923f82a4, 0x00000000)
         == Eight(0xe5030380, 0x2b4209f5, 0x04409a6a, 0xd550f666, 0x9b27a401, 0x714260ad, 0x43ada245, 0x24e00850)
    ensures Round(Eight(0xe5030380, 0x2b4209f5, 0x04409a6a, 0xd550f666, 0x9b27a401, 0x714260ad, 0x43ada245, 0x24e00850),
                  0xab1c5ed5, 0x00000000)
         == Eight(0x85a07b5f, 0xe5030380, 0x2b4209f5, 0x04409a6a, 0x0c657a79, 0x9b27a401, 0x714260ad, 0x43ada245)
  {
  }

  lemma EightRounds0(v: Eight, b: seq<bv8>)
    requires |b| == 64 && Words0(b)
    requires Rounds(v, b, 0)
          == Eight(0x6a09e667, 0xbb67ae85, 0x3c6ef372, 0xa54ff53a, 0x510e527f, 0x9b05688c, 0x1f83d9ab, 0x5be0cd19)
    ensures Rounds(v, b, 8)
         == Eight(0x85a07b5f, 0xe5030380, 0x2b4209f5, 0x04409a6a, 0x0c657a79, 0x9b27a401, 0x714260ad, 0x43ada245)
  {
    hide *;
    Constants0();
    Turn0();
    assert Words0(b);
    WordsOf0(b);
    RoundsStep(v, b, 0);
    RoundsStep(v, b, 1);
    RoundsStep(v, b, 2);
    RoundsStep(v, b, 3);
    RoundsStep(v, b, 4);
    RoundsStep(v, b, 5);
    RoundsStep(v, b, 6);
    RoundsStep(v, b, 7);
  }

  lemma WordsOf0(b: seq<bv8>)
    requires |b| == 64 && Words0(b)
    ensures Schedule(b, 0) == 0x61626380 && Schedule(b, 1) == 0x00000000
    ensures Schedule(b, 2) == 0x00000000 && Schedule(b, 3) == 0x00000000
    ensures Schedule(b, 4) == 0x00000000 && Schedule(b, 5) == 0x00000000
    ensures Schedule(b, 6) == 0x00000000 && Schedule(b, 7) == 0x00000000
  {
    hide Schedule;
  }

  lemma Turn1()
    ensures Round(Eight(0x85a07b5f, 0xe5030380, 0x2b4209f5, 0x04409a6a, 0x0c657a79, 0x9b27a401, 0x714260ad, 0x43ada245),
                  0xd807aa98, 0x00000000)
         == Eight(0x8e04ecb9, 0x85a07b5f, 0xe5030380, 0x2b4209f5, 0x32ca2d8c, 0x0c657a79, 0x9b27a401, 0x714260ad)
    ensures Round(Eight(0x8e04ecb9, 0x85a07b5f, 0xe5030380, 0x2b4209f5, 0x32ca2d8c, 0x0c657a79, 0x9b27a401, 0x714260ad),
                  0x12835b01, 0x00000000)
         == Eight(0x8c87346b, 0x8e04ecb9, 0x85a07b5f, 0xe5030380, 0x1cc92596, 0x32ca2d8c, 0x0c657a79, 0x9b27a401)
    ensures Round(Eight(0x8c87346b, 0x8e04ecb9, 0x85a07b5f, 0xe5030380, 0x1cc92596, 0x32ca2d8c, 0x0c657a79, 0x9b27a401),
                  0x243185be, 0x00000000)
         == Eight(0x4798a3f4, 0x8c87346b, 0x8e04ecb9, 0x85a07b5f, 0x436b23e8, 0x1cc92596, 0x32ca2d8c, 0x0c657a79)
    ensures Round(Eight(0x4798a3f4, 0x8c87346b, 0x8e04ecb9, 0x85a07b5f, 0x436b23e8, 0x1cc92596, 0x32ca2d8c, 0x0c657a79),
                  0x550c7dc3, 0x00000000)
         == Eight(0xf71fc5a9, 0x4798a3f4, 0x8c87346b, 0x8e04ecb9, 0x816fd6e9, 0x436b23e8, 0x1cc92596, 0x32ca2d8c)
    ensures Round(Eight(0xf71fc5a9, 0x4798a3f4, 0x8c87346b, 0x8e04ecb9, 0x816fd6e9, 0x436b23e8, 0x1cc92596, 0x32ca2d8c),
                  0x72be5d74, 0x00000000)
         == Eight(0x87912990, 0xf71fc5a9, 0x4798a3f4, 0x8c87346b, 0x1e578218, 0x816fd6e9, 0x436b23e8, 0x1cc92596)
    ensures Round(Eight(0x87912990, 0xf71fc5a9, 0x4798a3f4, 0x8c87346b, 0x1e578218, 0x816fd6e9, 0x436b23e8, 0x1cc92596),
                  0x80deb1fe, 0x00000000)
         == Eight(0xd932eb16, 0x87912990, 0xf71fc5a9, 0x4798a3f4, 0x745a48de, 0x1e578218, 0x816fd6e9, 0x436b23e8)
    ensures Round(Eight(0xd932eb16, 0x87912990, 0xf71fc5a9, 0x4798a3f4, 0x745a48de, 0x1e578218, 0x816fd6e9, 0x436b23e8),
                  0x9bdc06a7, 0x00000000)
         == Eight(0xc0645fde, 0xd932eb16, 0x87912990, 0xf71fc5a9, 0x0b92f20c, 0x745a48de, 0x1e578218, 0x816fd6e9)
    ensures Round(Eight(0xc0645fde, 0xd932eb16, 0x87912990, 0xf71fc5a9, 0x0b92f20c, 0x745a48de, 0x1e578218, 0x816fd6e9),
                  0xc19bf174, 0x00000018)
         == Eight(0xb0fa238e, 0xc0645fde, 0xd932eb16, 0x87912990, 0x07590dcd, 0x0b92f20c, 0x745a48de, 0x1e578218)
  {
  }

  lemma EightRounds1(v: Eight, b: seq<bv8>)
    requires |b| == 64 && Words1(b)
    requires Rounds(v, b, 8)
          == Eight(0x85a07b5f, 0xe5030380, 0x2b4209f5, 0x04409a6a, 0x0c657a79, 0x9b27a401, 0x714260ad, 0x43ada245)
    ensures Rounds(v, b, 16)
         == Eight(0xb0fa238e, 0xc0645fde, 0xd932eb16, 0x87912990, 0x07590dcd, 0x0b92f20c, 0x745a48de, 0x1e578218)
  {
    hide *;
    Constants1();
    Turn1();
    assert Words1(b);
    WordsOf1(b);
    RoundsStep(v, b, 8);
    RoundsStep(v, b, 9);
    RoundsStep(v, b, 10);
    RoundsStep(v, b, 11);
    RoundsStep(v, b, 12);
    RoundsStep(v, b, 13);
    RoundsStep(v, b, 14);
    RoundsStep(v, b, 15);
  }

  lemma WordsOf1(b: seq<bv8>)
    requires |b| == 64 && Words1(b)
    ensures Schedule(b, 8) == 0x00000000 && Schedule(b, 9) == 0x00000000
    ensures Schedule(b, 10) == 0x00000000 && Schedule(b, 11) == 0x00000000
    ensures Schedule(b, 12) == 0x00000000 && Schedule(b, 13) == 0x00000000
    ensures Schedule(b, 14) == 0x00000000 && Schedule(b, 15) == 0x00000018
  {
    hide Schedule;
  }

  lemma Turn2()
    ensures Round(Eight(0xb0fa238e, 0xc0645fde, 0xd932eb16, 0x87912990, 0x07590dcd, 0x0b92f20c, 0x745a48de, 0x1e578218),
                  0xe49b69c1, 0x61626380)
         == Eight(0x21da9a9b, 0xb0fa238e, 0xc0645fde, 0xd932eb16, 0x8034229c, 0x07590dcd, 0x0b92f20c, 0x745a48de)
    ensures Round(Eight(0x21da9a9b, 0xb0fa238e, 0xc0645fde, 0xd932eb16, 0x8034229c, 0x07590dcd, 0x0b92f20c, 0x745a48de),
                  0xefbe4786, 0x000f0000)
         == Eight(0xc2fbd9d1, 0x21da9a9b, 0xb0fa238e, 0xc0645fde, 0x846ee454, 0x8034229c, 0x07590dcd, 0x0b92f20c)
    ensures Round(Eight(0xc2fbd9d1, 0x21da9a9b, 0xb0fa238e, 0xc0645fde, 0x846ee454, 0x8034229c, 0x07590dcd, 0x0b92f20c),
                  0x0fc19dc6, 0x7da86405)
         == Eight(0xfe777bbf, 0xc2fbd9d1, 0x21da9a9b, 0xb0fa238e, 0xcc899961, 0x846ee454, 0x8034229c, 0x07590dcd)
    ensures Round(Eight(0xfe777bbf, 0xc2fbd9d1, 0x21da9a9b, 0xb0fa238e, 0xcc899961, 0x846ee454, 0x8034229c, 0x07590dcd),
                  0x240ca1cc, 0x600003c6)
         == Eight(0xe1f20c33, 0xfe777bbf, 0xc2fbd9d1, 0x21da9a9b, 0xb0638179, 0xcc899961, 0x846ee454, 0x8034229c)
    ensures Round(Eight(0xe1f20c33, 0xfe777bbf, 0xc2fbd9d1, 0x21da9a9b, 0xb0638179, 0xcc899961, 0x846ee454, 0x8034229c),
                  0x2de92c6f, 0x3e9d7b78)
         == Eight(0x9dc68b63, 0xe1f20c33, 0xfe777bbf, 0xc2fbd9d1, 0x8ada8930, 0xb0638179, 0xcc899961, 0x846ee454)
    ensures Round(Eight(0x9dc68b63, 0xe1f20c33, 0xfe777bbf, 0xc2fbd9d1, 0x8ada8930, 0xb0638179, 0xcc899961, 0x846ee454),
                  0x4a7484aa, 0x0183fc00)
         == Eight(0xc2606d6d, 0x9dc68b63, 0xe1f20c33, 0xfe777bbf, 0xe1257970, 0x8ada8930, 0xb0638179, 0xcc899961)
    ensures Round(Eight(0xc2606d6d, 0x9dc68b63, 0xe1f20c33, 0xfe777bbf, 0xe1257970, 0x8ada8930, 0xb0638179, 0xcc899961),
                  0x5cb0a9dc, 0x12dcbfdb)
         == Eight(0xa7a3623f, 0xc2606d6d, 0x9dc68b63, 0xe1f20c33, 0x49f5114a, 0xe1257970, 0x8ada8930, 0xb0638179)
    ensures Round(Eight(0xa7a3623f, 0xc2606d6d, 0x9dc68b63, 0xe1f20c33, 0x49f5114a, 0xe1257970, 0x8ada8930, 0xb0638179),
                  0x76f988da, 0xe2e2c38e)
         == Eight(0xc5d53d8d, 0xa7a3623f, 0xc2606d6d, 0x9dc68b63, 0xaa47c347, 0x49f5114a, 0xe1257970, 0x8ada8930)
  {
  }

  lemma EightRounds2(v: Eight, b: seq<bv8>)
    requires |b| == 64 && Words2(b)
    requires Rounds(v, b, 16)
          == Eight(0xb0fa238e, 0xc0645fde, 0xd932eb16, 0x87912990, 0x07590dcd, 0x0b92f20c, 0x745a48de, 0x1e578218)
    ensures Rounds(v, b, 24)
         == Eight(0xc5d53d8d, 0xa7a3623f, 0xc2606d6d, 0x9dc68b63, 0xaa47c347, 0x49f5114a, 0xe1257970, 0x8ada8930)
  {
    hide *;
    Constants2();
    Turn2();
    assert Words2(b);
    WordsOf2(b);
    RoundsStep(v, b, 16);
    RoundsStep(v, b, 17);
    RoundsStep(v, b, 18);
    RoundsStep(v, b, 19);
    RoundsStep(v, b, 20);
    RoundsStep(v, b, 21);
    RoundsStep(v, b, 22);
    RoundsStep(v, b, 23);
  }

  lemma WordsOf2(b: seq<bv8>)
    requires |b| == 64 && Words2(b)
    ensures Schedule(b, 16) == 0x61626380 && Schedule(b, 17) == 0x000f0000
    ensures Schedule(b, 18) == 0x7da86405 && Schedule(b, 19) == 0x600003c6
    ensures Schedule(b, 20) == 0x3e9d7b78 && Schedule(b, 21) == 0x0183fc00
    ensures Schedule(b, 22) == 0x12dcbfdb && Schedule(b, 23) == 0xe2e2c38e
  {
    hide Schedule;
  }

  lemma Turn3()
    ensures Round(Eight(0xc5d53d8d, 0xa7a3623f, 0xc2606d6d, 0x9dc68b63, 0xaa47c347, 0x49f5114a, 0xe1257970, 0x8ada8930),
                  0x983e5152, 0xc8215c1a)
         == Eight(0x1c2c2838, 0xc5d53d8d, 0xa7a3623f, 0xc2606d6d, 0x2823ef91, 0xaa47c347, 0x49f5114a, 0xe1257970)
    ensures Round(Eight(0x1c2c2838, 0xc5d53d8d, 0xa7a3623f, 0xc2606d6d, 0x2823ef91, 0xaa47c347, 0x49f5114a, 0xe1257970),
                  0xa831c66d, 0xb73679a2)
         == Eight(0xcde8037d, 0x1c2c2838, 0xc5d53d8d, 0xa7a3623f, 0x14383d8e, 0x2823ef91, 0xaa47c347, 0x49f5114a)
    ensures Round(Eight(0xcde8037d, 0x1c2c2838, 0xc5d53d8d, 0xa7a3623f, 0x14383d8e, 0x2823ef91, 0xaa47c347, 0x49f5114a),
                  0xb00327c8, 0xe5bc3909)
         == Eight(0xb62ec4bc, 0xcde8037d, 0x1c2c2838, 0xc5d53d8d, 0xc74c6516, 0x14383d8e, 0x2823ef91, 0xaa47c347)
    ensures Round(Eight(0xb62ec4bc, 0xcde8037d, 0x1c2c2838, 0xc5d53d8d, 0xc74c6516, 0x14383d8e, 0x2823ef91, 0xaa47c347),
                  0xbf597fc7, 0x32663c5b)
         == Eight(0x77d37528, 0xb62ec4bc, 0xcde8037d, 0x1c2c2838, 0xedffbff8, 0xc74c6516, 0x14383d8e, 0x2823ef91)
    ensures Round(Eight(0x77d37528, 0xb62ec4bc, 0xcde8037d, 0x1c2c2838, 0xedffbff8, 0xc74c6516, 0x14383d8e, 0x2823ef91),
                  0xc6e00bf3, 0x9d209d67)
         == Eight(0x363482c9, 0x77d37528, 0xb62ec4bc, 0xcde8037d, 0x6112a3b7, 0xedffbff8, 0xc74c6516, 0x14383d8e)
    ensures Round(Eight(0x363482c9, 0x77d37528, 0xb62ec4bc, 0xcde8037d, 0x6112a3b7, 0xedffbff8, 0xc74c6516, 0x14383d8e),
                  0xd5a79147, 0xec8726cb)
         == Eight(0xa0060b30, 0x363482c9, 0x77d37528, 0xb62ec4bc, 0xade79437, 0x6112a3b7, 0xedffbff8, 0xc74c6516)
    ensures Round(Eight(0xa0060b30, 0x363482c9, 0x77d37528, 0xb62ec4bc, 0xade79437, 0x6112a3b7, 0xedffbff8, 0xc74c6516),
                  0x06ca6351, 0x702138a4)
         == Eight(0xea992a22, 0xa0060b30, 0x363482c9, 0x77d37528, 0x0109ab3a, 0xade79437, 0x6112a3b7, 0xedffbff8)
    ensures Round(Eight(0xea992a22, 0xa0060b30, 0x363482c9, 0x77d37528, 0x0109ab3a, 0xade79437, 0x6112a3b7, 0xedffbff8),
                  0x14292967, 0xd3b7973b)
         == Eight(0x73b33bf5, 0xea992a22, 0xa0060b30, 0x363482c9, 0xba591112, 0x0109ab3a, 0xade79437, 0x6112a3b7)
  {
  }

  lemma EightRounds3(v: Eight, b: seq<bv8>)
    requires |b| == 64 && Words3(b)
    requires Rounds(v, b, 24)
          == Eight(0xc5d53d8d, 0xa7a3623f, 0xc2606d6d, 0x9dc68b63, 0xaa47c347, 0x49f5114a, 0xe1257970, 0x8ada8930)
    ensures Rounds(v, b, 32)
         == Eight(0x73b33bf5, 0xea992a22, 0xa0060b30, 0x363482c9, 0xba591112, 0x0109ab3a, 0xade79437, 0x6112a3b7)
  {
    hide *;
    Constants3();
    Turn3();
    assert Words3(b);
    WordsOf3(b);
    RoundsStep(v, b, 24);
    RoundsStep(v, b, 25);
    RoundsStep(v, b, 26);
    RoundsStep(v, b, 27);
    RoundsStep(v, b, 28);
    RoundsStep(v, b, 29);
    RoundsStep(v, b, 30);
    RoundsStep(v, b, 31);
  }

  lemma WordsOf3(b: seq<bv8>)
    requires |b| == 64 && Words3(b)
    ensures Schedule(b, 24) == 0xc8215c1a && Schedule(b, 25) == 0xb73679a2
    ensures Schedule(b, 26) == 0xe5bc3909 && Schedule(b, 27) == 0x32663c5b
    ensures Schedule(b, 28) == 0x9d209d67 && Schedule(b, 29) == 0xec8726cb
    ensures Schedule(b, 30) == 0x702138a4 && Schedule(b, 31) == 0xd3b7973b
  {
    hide Schedule;
  }

  lemma Turn4()
    ensures Round(Eight(0x73b33bf5, 0xea992a22, 0xa0060b30, 0x363482c9, 0xba591112, 0x0109ab3a, 0xade79437, 0x6112a3b7),
                  0x27b70a85, 0x93f5997f)
         == Eight(0x98e12507, 0x73b33bf5, 0xea992a22, 0xa0060b30, 0x9cd9f5f6, 0xba591112, 0x0109ab3a, 0xade79437)
    ensures Round(Eight(0x98e12507, 0x73b33bf5, 0xea992a22, 0xa0060b30, 0x9cd9f5f6, 0xba591112, 0x0109ab3a, 0xade79437),
                  0x2e1b2138, 0x3b68ba73)
         == Eight(0xfe604df5, 0x98e12507, 0x73b33bf5, 0xea992a22, 0x59249dd3, 0x9cd9f5f6, 0xba591112, 0x0109ab3a)
    ensures Round(Eight(0xfe604df5, 0x98e12507, 0x73b33bf5, 0xea992a22, 0x59249dd3, 0x9cd9f5f6, 0xba591112, 0x0109ab3a),
                  0x4d2c6dfc, 0xaff4ffc1)
         == Eight(0xa9a7738c, 0xfe604df5, 0x98e12507, 0x73b33bf5, 0x085f3833, 0x59249dd3, 0x9cd9f5f6, 0xba591112)
    ensures Round(Eight(0xa9a7738c, 0xfe604df5, 0x98e12507, 0x73b33bf5, 0x085f3833, 0x59249dd3, 0x9cd9f5f6, 0xba591112),
                  0x53380d13, 0xf10a5c62)
         == Eight(0x65a0cfe4, 0xa9a7738c, 0xfe604df5, 0x98e12507, 0xf4b002d6, 0x085f3833, 0x59249dd3, 0x9cd9f5f6)
    ensures Round(Eight(0x65a0cfe4, 0xa9a7738c, 0xfe604df5, 0x98e12507, 0xf4b002d6, 0x085f3833, 0x59249dd3, 0x9cd9f5f6),
                  0x650a7354, 0x0a8b3996)
         == Eight(0x41a65cb1, 0x65a0cfe4, 0xa9a7738c, 0xfe604df5, 0x0772a26b, 0xf4b002d6, 0x085f3833, 0x59249dd3)
    ensures Round(Eight(0x41a65cb1, 0x65a0cfe4, 0xa9a7738c, 0xfe604df5, 0x0772a26b, 0xf4b002d6, 0x085f3833, 0x59249dd3),
                  0x766a0abb, 0x72af830a)
         == Eight(0x34df1604, 0x41a65cb1, 0x65a0cfe4, 0xa9a7738c, 0xa507a53d, 0x0772a26b, 0xf4b002d6, 0x085f3833)
    ensures Round(Eight(0x34df1604, 0x41a65cb1, 0x65a0cfe4, 0xa9a7738c, 0xa507a53d, 0x0772a26b, 0xf4b002d6, 0x085f3833),
                  0x81c2c92e, 0x9409e33e)
         == Eight(0x6dc57a8a, 0x34df1604, 0x41a65cb1, 0x65a0cfe4, 0xf0781bc8, 0xa507a53d, 0x0772a26b, 0xf4b002d6)
    ensures Round(Eight(0x6dc57a8a, 0x34df1604, 0x41a65cb1, 0x65a0cfe4, 0xf0781bc8, 0xa507a53d, 0x0772a26b, 0xf4b002d6),
                  0x92722c85, 0x24641522)
         == Eight(0x79ea687a, 0x6dc57a8a, 0x34df1604, 0x41a65cb1, 0x1efbc0a0, 0xf0781bc8, 0xa507a53d, 0x0772a26b)
  {
  }

  lemma EightRounds4(v: Eight, b: seq<bv8>)
    requires |b| == 64 && Words4(b)
    requires Rounds(v, b, 32)
          == Eight(0x73b33bf5, 0xea992a22, 0xa0060b30, 0x363482c9, 0xba591112, 0x0109ab3a, 0xade79437, 0x6112a3b7)
    ensures Rounds(v, b, 40)
         == Eight(0x79ea687a, 0x6dc57a8a, 0x34df1604, 0x41a65cb1, 0x1efbc0a0, 0xf0781bc8, 0xa507a53d, 0x0772a26b)
  {
    hide *;
    Constants4();
    Turn4();
    assert Words4(b);
    WordsOf4(b);
    RoundsStep(v, b, 32);
    RoundsStep(v, b, 33);
    RoundsStep(v, b, 34);
    RoundsStep(v, b, 35);
    RoundsStep(v, b, 36);
    RoundsStep(v, b, 37);
    RoundsStep(v, b, 38);
    RoundsStep(v, b, 39);
  }

  lemma WordsOf4(b: seq<bv8>)
    requires |b| == 64 && Words4(b)
    ensures Schedule(b, 32) == 0x93f5997f && Schedule(b, 33) == 0x3b68ba73
    ensures Schedule(b, 34) == 0xaff4ffc1 && Schedule(b, 35) == 0xf10a5c62
    ensures Schedule(b, 36) == 0x0a8b3996 && Schedule(b, 37) == 0x72af830a
    ensures Schedule(b, 38) == 0x9409e33e && Schedule(b, 39) == 0x24641522
  {
    hide Schedule;
  }

  lemma Turn5()
    ensures Round(Eight(0x79ea687a, 0x6dc57a8a, 0x34df1604, 0x41a65cb1, 0x1efbc0a0, 0xf0781bc8, 0xa507a53d, 0x0772a26b),
                  0xa2bfe8a1, 0x9f47bf94)
         == Eight(0xd6670766, 0x79ea687a, 0x6dc57a8a, 0x34df1604, 0x26352d63, 0x1efbc0a0, 0xf0781bc8, 0xa507a53d)
    ensures Round(Eight(0xd6670766, 0x79ea687a, 0x6dc57a8a, 0x34df1604, 0x26352d63, 0x1efbc0a0, 0xf0781bc8, 0xa507a53d),
                  0xa81a664b, 0xf0a64f5a)
         == Eight(0xdf46652f, 0xd6670766, 0x79ea687a, 0x6dc57a8a, 0x838b2711, 0x26352d63, 0x1efbc0a0, 0xf0781bc8)
    ensures Round(Eight(0xdf46652f, 0xd6670766, 0x79ea687a, 0x6dc57a8a, 0x838b2711, 0x26352d63, 0x1efbc0a0, 0xf0781bc8),
                  0xc24b8b70, 0x3e246a79)
         == Eight(0x17aa0dfe, 0xdf46652f, 0xd6670766, 0x79ea687a, 0xdecd4715, 0x838b2711, 0x26352d63, 0x1efbc0a0)
    ensures Round(Eight(0x17aa0dfe, 0xdf46652f, 0xd6670766, 0x79ea687a, 0xdecd4715, 0x838b2711, 0x26352d63, 0x1efbc0a0),
                  0xc76c51a3, 0x27333ba3)
         == Eight(0x9d4baf93, 0x17aa0dfe, 0xdf46652f, 0xd6670766, 0xfda24c2e, 0xdecd4715, 0x838b2711, 0x26352d63)
    ensures Round(Eight(0x9d4baf93, 0x17aa0dfe, 0xdf46652f, 0xd6670766, 0xfda24c2e, 0xdecd4715, 0x838b2711, 0x26352d63),
                  0xd192e819, 0x0c4763f2)
         == Eight(0x26628815, 0x9d4baf93, 0x17aa0dfe, 0xdf46652f, 0xa80f11f0, 0xfda24c2e, 0xdecd4715, 0x838b2711)
    ensures Round(Eight(0x26628815, 0x9d4baf93, 0x17aa0dfe, 0xdf46652f, 0xa80f11f0, 0xfda24c2e, 0xdecd4715, 0x838b2711),
                  0xd6990624, 0x840abf27)
         == Eight(0x72ab4b91, 0x26628815, 0x9d4baf93, 0x17aa0dfe, 0xb7755da1, 0xa80f11f0, 0xfda24c2e, 0xdecd4715)
    ensures Round(Eight(0x72ab4b91, 0x26628815, 0x9d4baf93, 0x17aa0dfe, 0xb7755da1, 0xa80f11f0, 0xfda24c2e, 0xdecd4715),
                  0xf40e3585, 0x7a290d5d)
         == Eight(0xa14c14b0, 0x72ab4b91, 0x26628815, 0x9d4baf93, 0xd57b94a9, 0xb7755da1, 0xa80f11f0, 0xfda24c2e)
    ensures Round(Eight(0xa14c14b0, 0x72ab4b91, 0x26628815, 0x9d4baf93, 0xd57b94a9, 0xb7755da1, 0xa80f11f0, 0xfda24c2e),
                  0x106aa070, 0x065c43da)
         == Eight(0x4172328d, 0xa14c14b0, 0x72ab4b91, 0x26628815, 0xfecf0bc6, 0xd57b94a9, 0xb7755da1, 0xa80f11f0)
  {
  }

  lemma EightRounds5(v: Eight, b: seq<bv8>)
    requires |b| == 64 && Words5(b)
    requires Rounds(v, b, 40)
          == Eight(0x79ea687a, 0x6dc57a8a, 0x34df1604, 0x41a65cb1, 0x1efbc0a0, 0xf0781bc8, 0xa507a53d, 0x0772a26b)
    ensures Rounds(v, b, 48)
         == Eight(0x4172328d, 0xa14c14b0, 0x72ab4b91, 0x26628815, 0xfecf0bc6, 0xd57b94a9, 0xb7755da1, 0xa80f11f0)
  {
    hide *;
    Constants5();
    Turn5();
    assert Words5(b);
    WordsOf5(b);
    RoundsStep(v, b, 40);
    RoundsStep(v, b, 41);
    RoundsStep(v, b, 42);
    RoundsStep(v, b, 43);
    RoundsStep(v, b, 44);
    RoundsStep(v, b, 45);
    RoundsStep(v, b, 46);
    RoundsStep(v, b, 47);
  }

  lemma WordsOf5(b: seq<bv8>)
    requires |b| == 64 && Words5(b)
    ensures Schedule(b, 40) == 0x9f47bf94 && Schedule(b, 41) == 0xf0a64f5a
    ensures Schedule(b, 42) == 0x3e246a79 && Schedule(b, 43) == 0x27333ba3
    ensures Schedule(b, 44) == 0x0c4763f2 && Schedule(b, 45) == 0x840abf27
    ensures Schedule(b, 46) == 0x7a290d5d && Schedule(b, 47) == 0x065c43da
  {
    hide Schedule;
  }

  lemma Turn6()
    ensures Round(Eight(0x4172328d, 0xa14c14b0, 0x72ab4b91, 0x26628815, 0xfecf0bc6, 0xd57b94a9, 0xb7755da1, 0xa80f11f0),
                  0x19a4c116, 0xfb3e89cb)
         == Eight(0x05757ceb, 0x4172328d, 0xa14c14b0, 0x72ab4b91, 0xbd714038, 0xfecf0bc6, 0xd57b94a9, 0xb7755da1)
    ensures Round(Eight(0x05757ceb, 0x4172328d, 0xa14c14b0, 0x72ab4b91, 0xbd714038, 0xfecf0bc6, 0xd57b94a9, 0xb7755da1),
                  0x1e376c08, 0xcc7617db)
         == Eight(0xf11bfaa8, 0x05757ceb, 0x4172328d, 0xa14c14b0, 0x6e5c390c, 0xbd714038, 0xfecf0bc6, 0xd57b94a9)
    ensures Round(Eight(0xf11bfaa8, 0x05757ceb, 0x4172328d, 0xa14c14b0, 0x6e5c390c, 0xbd714038, 0xfecf0bc6, 0xd57b94a9),
                  0x2748774c, 0xb9e66c34)
         == Eight(0x7a0508a1, 0xf11bfaa8, 0x05757ceb, 0x4172328d, 0x52f1ccf7, 0x6e5c390c, 0xbd714038, 0xfecf0bc6)
    ensures Round(Eight(0x7a0508a1, 0xf11bfaa8, 0x05757ceb, 0x4172328d, 0x52f1ccf7, 0x6e5c390c, 0xbd714038, 0xfecf0bc6),
                  0x34b0bcb5, 0xa9993667)
         == Eight(0x886e7a22, 0x7a0508a1, 0xf11bfaa8, 0x05757ceb, 0x49231c1e, 0x52f1ccf7, 0x6e5c390c, 0xbd714038)
    ensures Round(Eight(0x886e7a22, 0x7a0508a1, 0xf11bfaa8, 0x05757ceb, 0x49231c1e, 0x52f1ccf7, 0x6e5c390c, 0xbd714038),
                  0x391c0cb3, 0x84badedd)
         == Eight(0x101fd28f, 0x886e7a22, 0x7a0508a1, 0xf11bfaa8, 0x529e7d00, 0x49231c1e, 0x52f1ccf7, 0x6e5c390c)
    ensures Round(Eight(0x101fd28f, 0x886e7a22, 0x7a0508a1, 0xf11bfaa8, 0x529e7d00, 0x49231c1e, 0x52f1ccf7, 0x6e5c390c),
                  0x4ed8aa4a, 0xc21462bc)
         == Eight(0xf5702fdb, 0x101fd28f, 0x886e7a22, 0x7a0508a1, 0x9f4787c3, 0x529e7d00, 0x49231c1e, 0x52f1ccf7)
    ensures Round(Eight(0xf5702fdb, 0x101fd28f, 0x886e7a22, 0x7a0508a1, 0x9f4787c3, 0x529e7d00, 0x49231c1e, 0x52f1ccf7),
                  0x5b9cca4f, 0x1487472c)
         == Eight(0x3ec45cdb, 0xf5702fdb, 0x101fd28f, 0x886e7a22, 0xe50e1b4f, 0x9f4787c3, 0x529e7d00, 0x49231c1e)
    ensures Round(Eight(0x3ec45cdb, 0xf5702fdb, 0x101fd28f, 0x886e7a22, 0xe50e1b4f, 0x9f4787c3, 0x529e7d00, 0x49231c1e),
                  0x682e6ff3, 0xb20f7a99)
         == Eight(0x38cc9913, 0x3ec45cdb, 0xf5702fdb, 0x101fd28f, 0x54cb266b, 0xe50e1b4f, 0x9f4787c3, 0x529e7d00)
  {
  }

  lemma EightRounds6(v: Eight, b: seq<bv8>)
    requires |b| == 64 && Words6(b)
    requires Rounds(v, b, 48)
          == Eight(0x4172328d, 0xa14c14b0, 0x72ab4b91, 0x26628815, 0xfecf0bc6, 0xd57b94a9, 0xb7755da1, 0xa80f11f0)
    ensures Rounds(v, b, 56)
         == Eight(0x38cc9913, 0x3ec45cdb, 0xf5702fdb, 0x101fd28f, 0x54cb266b, 0xe50e1b4f, 0x9f4787c3, 0x529e7d00)
  {
    hide *;
    Constants6();
    Turn6();
    assert Words6(b);
    WordsOf6(b);
    RoundsStep(v, b, 48);
    RoundsStep(v, b, 49);
    RoundsStep(v, b, 50);
    RoundsStep(v, b, 51);
    RoundsStep(v, b, 52);
    RoundsStep(v, b, 53);
    RoundsStep(v, b, 54);
    RoundsStep(v, b, 55);
  }

  lemma WordsOf6(b: seq<bv8>)
    requires |b| == 64 && Words6(b)
    ensures Schedule(b, 48) == 0xfb3e89cb && Schedule(b, 49) == 0xcc7617db
    ensures Schedule(b, 50) == 0xb9e66c34 && Schedule(b, 51) == 0xa9993667
    ensures Schedule(b, 52) == 0x84badedd && Schedule(b, 53) == 0xc21462bc
    ensures Schedule(b, 54) == 0x1487472c && Schedule(b, 55) == 0xb20f7a99
  {
    hide Schedule;
  }

  lemma Turn7()
    ensures Round(Eight(0x38cc9913, 0x3ec45cdb, 0xf5702fdb, 0x101fd28f, 0x54cb266b, 0xe50e1b4f, 0x9f4787c3, 0x529e7d00),
                  0x748f82ee, 0xef57b9cd)
         == Eight(0xfcd1887b, 0x38cc9913, 0x3ec45cdb, 0xf5702fdb, 0x9b5e906c, 0x54cb266b, 0xe50e1b4f, 0x9f4787c3)
    ensures Round(Eight(0xfcd1887b, 0x38cc9913, 0x3ec45cdb, 0xf5702fdb, 0x9b5e906c, 0x54cb266b, 0xe50e1b4f, 0x9f4787c3),
                  0x78a5636f, 0xebe6b238)
         == Eight(0xc062d46f, 0xfcd1887b, 0x38cc9913, 0x3ec45cdb, 0x7e44008e, 0x9b5e906c, 0x54cb266b, 0xe50e1b4f)
    ensures Round(Eight(0xc062d46f, 0xfcd1887b, 0x38cc9913, 0x3ec45cdb, 0x7e44008e, 0x9b5e906c, 0x54cb266b, 0xe50e1b4f),
                  0x84c87814, 0x9fe3095e)
         == Eight(0xffb70472, 0xc062d46f, 0xfcd1887b, 0x38cc9913, 0x6d83bfc6, 0x7e44008e, 0x9b5e906c, 0x54cb266b)
    ensures Round(Eight(0xffb70472, 0xc062d46f, 0xfcd1887b, 0x38cc9913, 0x6d83bfc6, 0x7e44008e, 0x9b5e906c, 0x54cb266b),
                  0x8cc70208, 0x78bc8d4b)
         == Eight(0xb6ae8fff, 0xffb70472, 0xc062d46f, 0xfcd1887b, 0xb21bad3d, 0x6d83bfc6, 0x7e44008e, 0x9b5e906c)
    ensures Round(Eight(0xb6ae8fff, 0xffb70472, 0xc062d46f, 0xfcd1887b, 0xb21bad3d, 0x6d83bfc6, 0x7e44008e, 0x9b5e906c),
                  0x90befffa, 0xa43fcf15)
         == Eight(0xb85e2ce9, 0xb6ae8fff, 0xffb70472, 0xc062d46f, 0x961f4894, 0xb21bad3d, 0x6d83bfc6, 0x7e44008e)
    ensures Round(Eight(0xb85e2ce9, 0xb6ae8fff, 0xffb70472, 0xc062d46f, 0x961f4894, 0xb21bad3d, 0x6d83bfc6, 0x7e44008e),
                  0xa4506ceb, 0x668b2ff8)
         == Eight(0x04d24d6c, 0xb85e2ce9, 0xb6ae8fff, 0xffb70472, 0x948d25b6, 0x961f4894, 0xb21bad3d, 0x6d83bfc6)
    ensures Round(Eight(0x04d24d6c, 0xb85e2ce9, 0xb6ae8fff, 0xffb70472, 0x948d25b6, 0x961f4894, 0xb21bad3d, 0x6d83bfc6),
                  0xbef9a3f7, 0xeeaba2cc)
         == Eight(0xd39a2165, 0x04d24d6c, 0xb85e2ce9, 0xb6ae8fff, 0xfb121210, 0x948d25b6, 0x961f4894, 0xb21bad3d)
    ensures Round(Eight(0xd39a2165, 0x04d24d6c, 0xb85e2ce9, 0xb6ae8fff, 0xfb121210, 0x948d25b6, 0x961f4894, 0xb21bad3d),
                  0xc67178f2, 0x12b1edeb)
         == Eight(0x506e3058, 0xd39a2165, 0x04d24d6c, 0xb85e2ce9, 0x5ef50f24, 0xfb121210, 0x948d25b6, 0x961f4894)
  {
  }

  lemma EightRounds7(v: Eight, b: seq<bv8>)
    requires |b| == 64 && Words7(b)
    requires Rounds(v, b, 56)
          == Eight(0x38cc9913, 0x3ec45cdb, 0xf5702fdb, 0x101fd28f, 0x54cb266b, 0xe50e1b4f, 0x9f4787c3, 0x529e7d00)
    ensures Rounds(v, b, 64)
         == Eight(0x506e3058, 0xd39a2165, 0x04d24d6c, 0xb85e2ce9, 0x5ef50f24, 0xfb121210, 0x948d25b6, 0x961f4894)
  {
    hide *;
    Constants7();
    Turn7();
    assert Words7(b);
    WordsOf7(b);
    RoundsStep(v, b, 56);
    RoundsStep(v, b, 57);
    RoundsStep(v, b, 58);
    RoundsStep(v, b, 59);
    RoundsStep(v, b, 60);
    RoundsStep(v, b, 61);
    RoundsStep(v, b, 62);
    RoundsStep(v, b, 63);
  }

  lemma WordsOf7(b: seq<bv8>)
    requires |b| == 64 && Words7(b)
    ensures Schedule(b, 56) == 0xef57b9cd && Schedule(b, 57) == 0xebe6b238
    ensures Schedule(b, 58) == 0x9fe3095e && Schedule(b, 59) == 0x78bc8d4b
    ensures Schedule(b, 60) == 0xa43fcf15 && Schedule(b, 61) == 0x668b2ff8
    ensures Schedule(b, 62) == 0xeeaba2cc && Schedule(b, 63) == 0x12b1edeb
  {
    hide Schedule;
  }

  function AbcHash(): (v: Eight)
  {
    Eight(0xba7816bf, 0x8f01cfea, 0x414140de, 0x5dae2223, 0xb00361a3, 0x96177a9c, 0xb410ff61, 0xf20015ad)
  }

  /** The hash value after the block. */
  lemma CompressedAbc()
    ensures Compress(InitialHash(), Block()) == AbcHash()
  {
    LastSum();
    FirstWords();
    hide *;
    var v := InitialHash();
    RoundsStep(v, Block(), 0);
    MoreWords2(Block());
    MoreWords3(Block());
    MoreWords4(Block());
    MoreWords5(Block());
    MoreWords6(Block());
    MoreWords7(Block());
    EightRounds0(v, Block());
    EightRounds1(v, Block());
    EightRounds2(v, Block());
    EightRounds3(v, Block());
    EightRounds4(v, Block());
    EightRounds5(v, Block());
    EightRounds6(v, Block());
    EightRounds7(v, Block());
    CompressIs(v, Block());
  }

  lemma LastSum()
    ensures InitialHash()
         == Eight(0x6a09e667, 0xbb67ae85, 0x3c6ef372, 0xa54ff53a, 0x510e527f, 0x9b05688c, 0x1f83d9ab, 0x5be0cd19)
    ensures Plus(Eight(0x6a09e667, 0xbb67ae85, 0x3c6ef372, 0xa54ff53a, 0x510e527f, 0x9b05688c, 0x1f83d9ab, 0x5be0cd19),
                 Eight(0x506e3058, 0xd39a2165, 0x04d24d6c, 0xb85e2ce9, 0x5ef50f24, 0xfb121210, 0x948d25b6, 0x961f4894))
         == AbcHash()
  {
  }

  /** The digest of "abc", as published. */
  const ABC_DIGEST: seq<bv8> :=
    [0xba, 0x78, 0x16, 0xbf]
    + [0x8f, 0x01, 0xcf, 0xea]
    + [0x41, 0x41, 0x40, 0xde]
    + [0x5d, 0xae, 0x22, 0x23]
    + [0xb0, 0x03, 0x61, 0xa3]
    + [0x96, 0x17, 0x7a, 0x9c]
    + [0xb4, 0x10, 0xff, 0x61]
    + [0xf2, 0x00, 0x15, 0xad]

  lemma BytesOfWord0()
    ensures WordByte(0xba7816bf, 0) == 0xba && WordByte(0xba7816bf, 1) == 0x78
    ensures WordByte(0xba7816bf, 2) == 0x16 && WordByte(0xba7816bf, 3) == 0xbf
  {
  }

  lemma BytesOfWord1()
    ensures WordByte(0x8f01cfea, 0) == 0x8f && WordByte(0x8f01cfea, 1) == 0x01
    ensures WordByte(0x8f01cfea, 2) == 0xcf && WordByte(0x8f01cfea, 3) == 0xea
  {
  }

  lemma BytesOfWord2()
    ensures WordByte(0x414140de, 0) == 0x41 && WordByte(0x414140de, 1) == 0x41
    ensures WordByte(0x414140de, 2) == 0x40 && WordByte(0x414140de, 3) == 0xde
  {
  }

  lemma BytesOfWord3()
    ensures WordByte(0x5dae2223, 0) == 0x5d && WordByte(0x5dae2223, 1) == 0xae
    ensures WordByte(0x5dae2223, 2) == 0x22 && WordByte(0x5dae2223, 3) == 0x23
  {
  }

  lemma BytesOfWord4()
    ensures WordByte(0xb00361a3, 0) == 0xb0 && WordByte(0xb00361a3, 1) == 0x03
    ensures WordByte(0xb00361a3, 2) == 0x61 && WordByte(0xb00361a3, 3) == 0xa3
  {
  }

  lemma BytesOfWord5()
    ensures WordByte(0x96177a9c, 0) == 0x96 && WordByte(0x96177a9c, 1) == 0x17
    ensures WordByte(0x96177a9c, 2) == 0x7a && WordByte(0x96177a9c, 3) == 0x9c
  {
  }

  lemma BytesOfWord6()
    ensures WordByte(0xb410ff61, 0) == 0xb4 && WordByte(0xb410ff61, 1) == 0x10
    ensures WordByte(0xb410ff61, 2) == 0xff && WordByte(0xb410ff61, 3) == 0x61
  {
  }

  lemma BytesOfWord7()
    ensures WordByte(0xf20015ad, 0) == 0xf2 && WordByte(0xf20015ad, 1) == 0x00
    ensures WordByte(0xf20015ad, 2) == 0x15 && WordByte(0xf20015ad, 3) == 0xad
  {
  }

  lemma DigestAt(v: Eight, j: nat, i: nat)
    requires j < 8 && i < 4
    ensures DigestBytes(v)[4 * j + i] == WordByte(EightWord(v, j), i)
  {
    assert (4 * j + i) / 4 == j && (4 * j + i) % 4 == i;
    hide WordByte, EightWord;
  }

  lemma FourDigestBytes(v: Eight, j: nat)
    requires j < 8
    ensures var s, w := DigestBytes(v), EightWord(v, j);
      s[4 * j..4 * j + 4] == [WordByte(w, 0), WordByte(w, 1), WordByte(w, 2), WordByte(w, 3)]
  {
    hide *;
    DigestAt(v, j, 0);
    DigestAt(v, j, 1);
    DigestAt(v, j, 2);
    DigestAt(v, j, 3);
  }

  lemma Rejoin(s: seq<bv8>)
    requires |s| == 32
    ensures s == s[0..4] + s[4..8] + s[8..12] + s[12..16] + s[16..20] + s[20..24] + s[24..28] + s[28..32]
  {
  }

  lemma AbcWords()
    ensures var v := AbcHash();
      && EightWord(v, 0) == 0xba7816bf && EightWord(v, 1) == 0x8f01cfea
      && EightWord(v, 2) == 0x414140de && EightWord(v, 3) == 0x5dae2223
      && EightWord(v, 4) == 0xb00361a3 && EightWord(v, 5) == 0x96177a9c
      && EightWord(v, 6) == 0xb410ff61 && EightWord(v, 7) == 0xf20015ad
  {
  }

  lemma PublishedRows()
    ensures ABC_DIGEST
         == [0xba, 0x78, 0x16, 0xbf] + [0x8f, 0x01, 0xcf, 0xea] + [0x41, 0x41, 0x40, 0xde] + [0x5d, 0xae, 0x22, 0x23]
            + [0xb0, 0x03, 0x61, 0xa3] + [0x96, 0x17, 0x7a, 0x9c] + [0xb4, 0x10, 0xff, 0x61] + [0xf2, 0x00, 0x15, 0xad]
  {
  }

  lemma DigestedAbc()
    ensures DigestBytes(AbcHash()) == ABC_DIGEST
  {
    hide *;
    AbcWords();
    PublishedRows();
    Rejoin(DigestBytes(AbcHash()));
    FourDigestBytes(AbcHash(), 0);
    BytesOfWord0();
    FourDigestBytes(AbcHash(), 1);
    BytesOfWord1();
    FourDigestBytes(AbcHash(), 2);
    BytesOfWord2();
    FourDigestBytes(AbcHash(), 3);
    BytesOfWord3();
    FourDigestBytes(AbcHash(), 4);
    BytesOfWord4();
    FourDigestBytes(AbcHash(), 5);
    BytesOfWord5();
    FourDigestBytes(AbcHash(), 6);
    BytesOfWord6();
    FourDigestBytes(AbcHash(), 7);
    BytesOfWord7();
  }

  /** The digest of "abc" is the one published for it. */
  lemma DigestOfAbc()
    ensures Sha256Of([0x61, 0x62, 0x63]) == ABC_DIGEST
  {
    hide *;
    PaddedAbc();
    CompressedAbc();
    DigestedAbc();
    Sha256Is([0x61, 0x62, 0x63]);
    OneBlock(InitialHash(), Block());
  }

  lemma OneBlock(v: Eight, block: seq<bv8>)
    requires |block| == 64
    ensures Absorb(v, block) == Compress(v, block)
  {
    AbsorbBlock(v, [], block);
    assert [] + block == block;
    hide Compress;
  }
}
