/**
 The streaming SHA-256 context: init, update, transform and final, against the one-shot definition of
 FIPS 180-4 (sections 4.1.2, 5.1.1, 5.2.1 and 6.2).
 */
module Sha256 {
  import opened Arith
  import Bytes

  // --------------------------------------------------- FIPS 180-4, 4.1.2

  function BigSigma0(x: bv32): (r: bv32)
  {
    x.RotateRight(2) ^ x.RotateRight(13) ^ x.RotateRight(22)
  }

  function BigSigma1(x: bv32): (r: bv32)
  {
    x.RotateRight(6) ^ x.RotateRight(11) ^ x.RotateRight(25)
  }

  function SmallSigma0(x: bv32): (r: bv32)
  {
    x.RotateRight(7) ^ x.RotateRight(18) ^ (x >> 3)
  }

  function SmallSigma1(x: bv32): (r: bv32)
  {
    x.RotateRight(17) ^ x.RotateRight(19) ^ (x >> 10)
  }

  function Ch(x: bv32, y: bv32, z: bv32): (r: bv32)
  {
    (x & y) ^ (!x & z)
  }

  function Maj(x: bv32, y: bv32, z: bv32): (r: bv32)
  {
    (x & y) ^ (x & z) ^ (y & z)
  }

  /** Ch chooses: where x has a one the bit of y, elsewhere the bit of z. */
  lemma ChChooses(x: bv32, y: bv32, z: bv32)
    ensures Ch(x, y, z) & x == y & x && Ch(x, y, z) & !x == z & !x
  {
  }

  /** Maj decides by majority: where x and y agree their bit, elsewhere the bit of z. */
  lemma MajDecides(x: bv32, y: bv32, z: bv32)
    ensures Maj(x, y, z) & !(x ^ y) == x & !(x ^ y) && Maj(x, y, z) & (x ^ y) == z & (x ^ y)
  {
  }

  /** Addition of 32-bit words, modulo 2^32. */
  function Sum(x: bv32, y: bv32): (r: bv32)
  {
    x + y
  }

  /** The macros of the source, with their shift-and-or rotations. */
  function EP0(x: bv32): (r: bv32)
    ensures r == BigSigma0(x)
  {
    ((x >> 2) | (x << 30)) ^ ((x >> 13) | (x << 19)) ^ ((x >> 22) | (x << 10))
  }

  function EP1(x: bv32): (r: bv32)
    ensures r == BigSigma1(x)
  {
    ((x >> 6) | (x << 26)) ^ ((x >> 11) | (x << 21)) ^ ((x >> 25) | (x << 7))
  }

  function SIG0(x: bv32): (r: bv32)
    ensures r == SmallSigma0(x)
  {
    ((x >> 7) | (x << 25)) ^ ((x >> 18) | (x << 14)) ^ (x >> 3)
  }

  function SIG1(x: bv32): (r: bv32)
    ensures r == SmallSigma1(x)
  {
    ((x >> 17) | (x << 15)) ^ ((x >> 19) | (x << 13)) ^ (x >> 10)
  }

  /** The rows of the table k of the source, FIPS 180-4 section 4.2.2. */
  const K_0: seq<bv32> := [0x428a2f98, 0x71374491, 0xb5c0fbcf, 0xe9b5dba5,
                         0x3956c25b, 0x59f111f1, 0x923f82a4, 0xab1c5ed5]
  const K_1: seq<bv32> := [0xd807aa98, 0x12835b01, 0x243185be, 0x550c7dc3,
                         0x72be5d74, 0x80deb1fe, 0x9bdc06a7, 0xc19bf174]
  const K_2: seq<bv32> := [0xe49b69c1, 0xefbe4786, 0x0fc19dc6, 0x240ca1cc,
                         0x2de92c6f, 0x4a7484aa, 0x5cb0a9dc, 0x76f988da]
  const K_3: seq<bv32> := [0x983e5152, 0xa831c66d, 0xb00327c8, 0xbf597fc7,
                         0xc6e00bf3, 0xd5a79147, 0x06ca6351, 0x14292967]
  const K_4: seq<bv32> := [0x27b70a85, 0x2e1b2138, 0x4d2c6dfc, 0x53380d13,
                         0x650a7354, 0x766a0abb, 0x81c2c92e, 0x92722c85]
  const K_5: seq<bv32> := [0xa2bfe8a1, 0xa81a664b, 0xc24b8b70, 0xc76c51a3,
                         0xd192e819, 0xd6990624, 0xf40e3585, 0x106aa070]
  const K_6: seq<bv32> := [0x19a4c116, 0x1e376c08, 0x2748774c, 0x34b0bcb5,
                         0x391c0cb3, 0x4ed8aa4a, 0x5b9cca4f, 0x682e6ff3]
  const K_7: seq<bv32> := [0x748f82ee, 0x78a5636f, 0x84c87814, 0x8cc70208,
                         0x90befffa, 0xa4506ceb, 0xbef9a3f7, 0xc67178f2]

  function Constants(): (k: seq<bv32>)
    ensures |k| == 64
  {
    K_0 + K_1 + K_2 + K_3 + K_4 + K_5 + K_6 + K_7
  }

  // ------------------------------------------------ FIPS 180-4, 5.3.3 and 6.2

  /** Eight words: a hash value, or the working variables. */
  datatype Eight = Eight(a: bv32, b: bv32, c: bv32, d: bv32, e: bv32, f: bv32, g: bv32, h: bv32)

  function InitialHash(): (r: Eight)
  {
    Eight(0x6a09e667, 0xbb67ae85, 0x3c6ef372, 0xa54ff53a, 0x510e527f, 0x9b05688c, 0x1f83d9ab, 0x5be0cd19)
  }

  /** Four big-endian bytes as a word. */
  function BlockWord(b0: bv8, b1: bv8, b2: bv8, b3: bv8): (r: bv32)
  {
    ((b0 as bv32) << 24) | ((b1 as bv32) << 16) | ((b2 as bv32) << 8) | (b3 as bv32)
  }

  /** Word t of the message schedule. */
  function Schedule(block: seq<bv8>, t: nat): (r: bv32)
    requires |block| == 64
  {
    if t < 16 then BlockWord(block[4 * t], block[4 * t + 1], block[4 * t + 2], block[4 * t + 3])
    else Sum(Sum(Sum(SmallSigma1(Schedule(block, t - 2)), Schedule(block, t - 7)),
                 SmallSigma0(Schedule(block, t - 15))), Schedule(block, t - 16))
  }

  function Round(v: Eight, k: bv32, w: bv32): (r: Eight)
  {
    var t1 := Sum(Sum(Sum(Sum(v.h, BigSigma1(v.e)), Ch(v.e, v.f, v.g)), k), w);
    var t2 := Sum(BigSigma0(v.a), Maj(v.a, v.b, v.c));
    Eight(Sum(t1, t2), v.a, v.b, v.c, Sum(v.d, t1), v.e, v.f, v.g)
  }

  /** The working variables after t rounds. */
  function Rounds(v: Eight, block: seq<bv8>, t: nat): (r: Eight)
    requires |block| == 64 && t <= 64
  {
    if t == 0 then v else Round(Rounds(v, block, t - 1), Constants()[t - 1], Schedule(block, t - 1))
  }

  function Plus(x: Eight, y: Eight): (r: Eight)
  {
    Eight(Sum(x.a, y.a), Sum(x.b, y.b), Sum(x.c, y.c), Sum(x.d, y.d),
          Sum(x.e, y.e), Sum(x.f, y.f), Sum(x.g, y.g), Sum(x.h, y.h))
  }

  /** One block's update of the hash value. */
  function Compress(v: Eight, block: seq<bv8>): (r: Eight)
    requires |block| == 64
  {
    Plus(v, Rounds(v, block, 64))
  }

  /** The hash value after a message of whole blocks. */
  function Absorb(v: Eight, msg: seq<bv8>): (r: Eight)
    requires |msg| % 64 == 0
  {
    if |msg| == 0 then v
    else Compress(Absorb(v, msg[..|msg| - 64]), msg[|msg| - 64..])
  }

  lemma AbsorbBlock(v: Eight, msg: seq<bv8>, block: seq<bv8>)
    requires |msg| % 64 == 0 && |block| == 64
    ensures |msg + block| % 64 == 0
    ensures Absorb(v, msg + block) == Compress(Absorb(v, msg), block)
  {
    var t := msg + block;
    assert t[..|t| - 64] == msg && t[|t| - 64..] == block;
    hide Compress;
  }

  // ------------------------------------------------------ FIPS 180-4, 5.1.1

  /** The number of zero bytes that pad a message of n bytes. */
  function ZeroCount(n: nat): (k: nat)
    ensures k < 64 && (n + 1 + k) % 64 == 56
  {
    (119 - n % 64) % 64
  }

  /** It is the least count that brings the message and the one bit to 448 mod 512 bits. */
  lemma ZeroCountLeast(n: nat, k: nat)
    requires (8 * n + 8 + 8 * k) % 512 == 448
    ensures ZeroCount(n) <= k
  {
    assert (8 * n + 8 + 8 * k) == 512 * ((8 * n + 8 + 8 * k) / 512) + 448;
  }

  function Zeros(k: nat): (s: seq<bv8>)
    ensures |s| == k && forall i :: 0 <= i < k ==> s[i] == 0
  {
    seq(k, i => 0)
  }

  /** Byte i of the 64-bit big-endian form of a number. */
  function LengthByte(v: nat, i: nat): (r: bv8)
    requires i < 8
  {
    ((v / Pow(256, 7 - i)) % 256) as bv8
  }

  function LengthBytes(v: nat): (s: seq<bv8>)
    ensures |s| == 8
  {
    seq(8, i requires 0 <= i < 8 => LengthByte(v, i))
  }

  /** The padded message; the length field holds the bit count modulo 2^64. */
  function Pad(msg: seq<bv8>): (p: seq<bv8>)
    ensures |p| % 64 == 0
  {
    msg + [0x80] + Zeros(ZeroCount(|msg|)) + LengthBytes(8 * |msg|)
  }

  function AsNumbers(s: seq<bv8>): (r: seq<nat>)
    ensures |r| == |s|
  {
    seq(|s|, i requires 0 <= i < |s| => s[i] as nat)
  }

  /** The length field is the number of bits modulo 2^64, most significant byte first. */
  lemma LengthField(v: nat)
    ensures Bytes.BigEndian(AsNumbers(LengthBytes(v))) == v % Pow(256, 8)
  {
    hide *;
    LengthDigits(v, 8);
    FirstDigits(v);
    PowOfNone(v);
    Bytes.DividedByOne(v);
  }

  lemma FirstDigits(v: nat)
    ensures AsNumbers(LengthBytes(v))[..8] == AsNumbers(LengthBytes(v))
  {
  }

  lemma {:induction false} LengthDigits(v: nat, k: nat)
    requires k <= 8
    ensures Bytes.BigEndian(AsNumbers(LengthBytes(v))[..k]) == (v / Pow(256, 8 - k)) % Pow(256, k)
  {
    hide *;
    PowPositive(256, 8 - k);
    PowPositive(256, k);
    if k == 0 {
      Bytes.EmptyBytes();
      PowOfNone(v / Pow(256, 8));
    } else {
      LengthDigits(v, k - 1);
      Bytes.BigEndianSnoc(AsNumbers(LengthBytes(v)), k - 1);
      LengthByteIs(v, k - 1);
      assert Pow(256, 8 - (k - 1)) == 256 * Pow(256, 8 - k) by {
        PowStep(256, 8 - k);
      }
      assert Pow(256, k) == 256 * Pow(256, k - 1) by {
        PowStep(256, k - 1);
      }
      PowPositive(256, k - 1);
      DigitStep(v, Pow(256, 8 - k), Pow(256, k - 1));
    }
  }

  lemma PowOfNone(v: nat)
    ensures Pow(256, 0) == 1 && v % 1 == 0
  {
  }

  lemma LengthByteIs(v: nat, i: nat)
    requires i < 8
    ensures Pow(256, 7 - i) > 0 && AsNumbers(LengthBytes(v))[i] == (v / Pow(256, 7 - i)) % 256
  {
    PowPositive(256, 7 - i);
    var x := LengthByte(v, i);
    LengthByteAt(v, i);
    assert AsNumbers(LengthBytes(v))[i] == LengthBytes(v)[i] as nat == x as nat by {
      hide Pow, LengthByte;
    }
  }

  lemma LengthByteAt(v: nat, i: nat)
    requires i < 8
    ensures Pow(256, 7 - i) > 0 && LengthByte(v, i) as nat == (v / Pow(256, 7 - i)) % 256
  {
    PowPositive(256, 7 - i);
    hide Pow;
    ByteBack((v / Pow(256, 7 - i)) % 256);
  }

  lemma ByteBack(x: nat)
    requires x < 256
    ensures (x as bv8) as nat == x
  {
    assert (x as bv8) as nat % 256 == x;
  }

  /** Appending a digit: v shifted by one digit more, its lower digits and the new one. */
  lemma DigitStep(v: nat, p: nat, q: nat)
    requires p > 0 && q > 0
    ensures 256 * p > 0 && 256 * q > 0
    ensures 256 * ((v / (256 * p)) % q) + (v / p) % 256 == (v / p) % (256 * q)
  {
    var a := v / p;
    var c, x := a / 256, a % 256;
    assert v == (c * 256 + x) * p + v % p;
    hide *;
    ShorterQuotient(v, p, c, x, v % p);
    LongerRemainder(a, q, c, x);
  }

  lemma ShorterQuotient(v: nat, p: nat, c: nat, x: nat, r: nat)
    requires v == (c * 256 + x) * p + r && x < 256 && r < p
    ensures 256 * p > 0 && v / (256 * p) == c
  {
    assert (c * 256 + x) * p + r == c * (256 * p) + (x * p + r);
    hide *;
    MulMono(x, 255, p);
    DivModUnique(v, 256 * p, c, x * p + r);
  }

  lemma LongerRemainder(a: nat, q: nat, c: nat, x: nat)
    requires a == c * 256 + x && x < 256 && q > 0
    ensures 256 * q > 0 && a % (256 * q) == 256 * (c % q) + x
  {
    var d, r := c / q, c % q;
    assert c == d * q + r && r < q;
    assert (d * q + r) * 256 + x == d * (256 * q) + (256 * r + x);
    hide *;
    DivModUnique(a, 256 * q, d, 256 * r + x);
  }

  /** Byte i of a word, most significant first. */
  function WordByte(x: bv32, i: nat): (r: bv8)
    requires i < 4
  {
    ((x >> (24 - i * 8)) & 0xff) as bv8
  }

  function EightWord(v: Eight, j: nat): (r: bv32)
    requires j < 8
  {
    match j
    case 0 => v.a
    case 1 => v.b
    case 2 => v.c
    case 3 => v.d
    case 4 => v.e
    case 5 => v.f
    case 6 => v.g
    case _ => v.h
  }

  function DigestBytes(v: Eight): (s: seq<bv8>)
    ensures |s| == 32
  {
    seq(32, i requires 0 <= i < 32 => WordByte(EightWord(v, i / 4), i % 4))
  }

  /** The SHA-256 digest of a message. */
  function Sha256Of(msg: seq<bv8>): (s: seq<bv8>)
    ensures |s| == 32
  {
    DigestBytes(Absorb(InitialHash(), Pad(msg)))
  }

  // ------------------------------------------------------------ the context

  function StateOf(s: seq<bv32>): (r: Eight)
    requires |s| == 8
  {
    Eight(s[0], s[1], s[2], s[3], s[4], s[5], s[6], s[7])
  }

  lemma ScheduleStart(block: seq<bv8>, t: nat)
    requires |block| == 64 && t < 16
    ensures Schedule(block, t) == BlockWord(block[4 * t], block[4 * t + 1], block[4 * t + 2], block[4 * t + 3])
  {
    hide BlockWord;
  }

  lemma ScheduleStep(block: seq<bv8>, t: nat)
    requires |block| == 64 && 16 <= t
    ensures Schedule(block, t) == Sum(Sum(Sum(SIG1(Schedule(block, t - 2)), Schedule(block, t - 7)),
                                          SIG0(Schedule(block, t - 15))), Schedule(block, t - 16))
  {
    hide SIG0, SIG1, SmallSigma0, SmallSigma1, Sum, BlockWord;
  }

  /** The message schedule, as sha256_transform fills m. */
  method FillSchedule(data: array<bv8>) returns (m: array<bv32>)
    requires data.Length == 64
    ensures fresh(m) && m.Length == 64
    ensures forall t :: 0 <= t < 64 ==> m[t] == Schedule(data[..], t)
  {
    hide *;
    m := new bv32[64];
    ghost var block := data[..];
    var i, j := 0, 0;
    while i < 16
      invariant 0 <= i <= 16 && j == 4 * i && block == data[..]
      invariant forall t :: 0 <= t < i ==> m[t] == Schedule(block, t)
    {
      ScheduleStart(block, i);
      m[i] := BlockWord(data[j], data[j + 1], data[j + 2], data[j + 3]);
      i, j := i + 1, j + 4;
    }
    while i < 64
      invariant 16 <= i <= 64 && block == data[..]
      invariant forall t :: 0 <= t < i ==> m[t] == Schedule(block, t)
    {
      ScheduleStep(block, i);
      var x := Sum(Sum(Sum(SIG1(m[i - 2]), m[i - 7]), SIG0(m[i - 15])), m[i - 16]);
      assert x == Schedule(block, i);
      m[i] := x;
      i := i + 1;
    }
  }

  lemma RoundIs(v: Eight, k: bv32, w: bv32)
    ensures var t1 := Sum(Sum(Sum(Sum(v.h, EP1(v.e)), Ch(v.e, v.f, v.g)), k), w);
      var t2 := Sum(EP0(v.a), Maj(v.a, v.b, v.c));
      Round(v, k, w) == Eight(Sum(t1, t2), v.a, v.b, v.c, Sum(v.d, t1), v.e, v.f, v.g)
  {
    hide EP0, EP1, BigSigma0, BigSigma1, Ch, Maj, Sum;
  }

  lemma RoundsStep(v: Eight, block: seq<bv8>, t: nat)
    requires |block| == 64
    ensures Rounds(v, block, 0) == v
    ensures t < 64 ==> Rounds(v, block, t + 1) == Round(Rounds(v, block, t), Constants()[t], Schedule(block, t))
  {
    hide Constants, Schedule, Round;
  }

  lemma CompressIs(v: Eight, block: seq<bv8>)
    requires |block| == 64
    ensures Compress(v, block) == Plus(v, Rounds(v, block, 64))
  {
    hide Rounds, Plus;
  }

  lemma PlusIs(x: Eight, y: Eight)
    ensures Plus(x, y) == Eight(Sum(x.a, y.a), Sum(x.b, y.b), Sum(x.c, y.c), Sum(x.d, y.d),
                                Sum(x.e, y.e), Sum(x.f, y.f), Sum(x.g, y.g), Sum(x.h, y.h))
  {
    hide Sum;
  }

  lemma StateIs(s: seq<bv32>, v: Eight)
    requires |s| == 8 && s[0] == v.a && s[1] == v.b && s[2] == v.c && s[3] == v.d
    requires s[4] == v.e && s[5] == v.f && s[6] == v.g && s[7] == v.h
    ensures StateOf(s) == v
  {
  }

  lemma StateWords(s: seq<bv32>)
    requires |s| == 8
    ensures var v := StateOf(s); v == Eight(s[0], s[1], s[2], s[3], s[4], s[5], s[6], s[7])
  {
  }

  /** The 64 rounds over the working variables. */
  method RunRounds(state: array<bv32>, data: array<bv8>) returns (v: Eight)
    requires state.Length == 8 && data.Length == 64
    ensures v == Rounds(StateOf(state[..]), data[..], 64)
  {
    hide *;
    var m := FillSchedule(data);
    ghost var block, start := data[..], StateOf(state[..]);
    StateWords(state[..]);
    ConstantCount();
    RoundsStep(start, block, 0);
    var a, b, c, d := state[0], state[1], state[2], state[3];
    var e, f, g, h := state[4], state[5], state[6], state[7];
    var i := 0;
    while i < 64
      invariant 0 <= i <= 64
      invariant forall t :: 0 <= t < 64 ==> m[t] == Schedule(block, t)
      invariant Eight(a, b, c, d, e, f, g, h) == Rounds(start, block, i)
    {
      RoundsStep(start, block, i);
      RoundIs(Rounds(start, block, i), Constants()[i], Schedule(block, i));
      var t1 := Sum(Sum(Sum(Sum(h, EP1(e)), Ch(e, f, g)), Constants()[i]), m[i]);
      var t2 := Sum(EP0(a), Maj(a, b, c));
      h := g;
      g := f;
      f := e;
      e := Sum(d, t1);
      d := c;
      c := b;
      b := a;
      a := Sum(t1, t2);
      i := i + 1;
    }
    v := Eight(a, b, c, d, e, f, g, h);
  }

  lemma ConstantCount()
    ensures |Constants()| == 64
  {
    hide Constants;
  }

  /** The working variables added to the state. */
  method AddWorking(state: array<bv32>, r: Eight, ghost v: Eight)
    requires state.Length == 8 && v == StateOf(state[..])
    modifies state
    ensures StateOf(state[..]) == Plus(v, r)
  {
    hide *;
    StateWords(state[..]);
    PlusIs(v, r);
    state[0] := Sum(state[0], r.a);
    state[1] := Sum(state[1], r.b);
    state[2] := Sum(state[2], r.c);
    state[3] := Sum(state[3], r.d);
    state[4] := Sum(state[4], r.e);
    state[5] := Sum(state[5], r.f);
    state[6] := Sum(state[6], r.g);
    state[7] := Sum(state[7], r.h);
    StateIs(state[..], Plus(v, r));
  }

  /** sha256_transform */
  method Transform(state: array<bv32>, data: array<bv8>)
    requires state.Length == 8 && data.Length == 64
    modifies state
    ensures StateOf(state[..]) == old(Compress(StateOf(state[..]), data[..]))
  {
    hide *;
    var r := RunRounds(state, data);
    ghost var v := StateOf(state[..]);
    CompressIs(v, data[..]);
    AddWorking(state, r, v);
  }

  // ---------------------------------------------------------- the bookkeeping

  /** The whole blocks of a message, and what is left over. */
  function Whole(s: seq<bv8>): (r: seq<bv8>)
    ensures |r| % 64 == 0 && |r| == |s| - |s| % 64
  {
    s[..|s| - |s| % 64]
  }

  function Rest(s: seq<bv8>): (r: seq<bv8>)
    ensures |r| == |s| % 64
  {
    s[|s| - |s| % 64..]
  }

  lemma PushByte(s: seq<bv8>, b: bv8)
    ensures |s| % 64 < 63 ==> Whole(s + [b]) == Whole(s) && Rest(s + [b]) == Rest(s) + [b]
    ensures |s| % 64 == 63 ==> Whole(s + [b]) == Whole(s) + (Rest(s) + [b]) && Rest(s + [b]) == []
  {
    var n := |s| % 64;
    assert |s + [b]| == |s| + 1;
    if n == 63 {
      assert (|s| + 1) % 64 == 0;
      assert Whole(s + [b]) == s + [b];
      assert s == Whole(s) + Rest(s);
    } else {
      assert (|s| + 1) % 64 == n + 1;
    }
  }

  /** DBL_INT_ADD: adds c to the 64-bit number b:a. */
  function DblIntAdd(a: nat, b: nat, c: nat): (r: (nat, nat))
    requires c <= 0xffff_ffff
  {
    ((a + c) % 0x1_0000_0000, if a > 0xffff_ffff - c then (b + 1) % 0x1_0000_0000 else b)
  }

  /** The 64-bit counter b:a holds v modulo 2^64. */
  ghost predicate Counts(a: nat, b: nat, v: nat)
  {
    a < 0x1_0000_0000 && b < 0x1_0000_0000 && b * 0x1_0000_0000 + a == v % 0x1_0000_0000_0000_0000
  }

  lemma CountMore(a: nat, b: nat, v: nat, c: nat)
    requires c <= 0xffff_ffff && Counts(a, b, v)
    ensures var s := DblIntAdd(a, b, c); Counts(s.0, s.1, v + c)
  {
    var m := 0x1_0000_0000_0000_0000;
    WrappedCount(v, v % m, c, m);
  }

  lemma WrappedCount(v: nat, x: nat, c: nat, m: nat)
    requires m > 0 && x == v % m && c < m
    ensures (v + c) % m == if x + c < m then x + c else x + c - m
  {
    ModIdem(v, m);
    ModAddCong(v, x, c, c, m);
    hide *;
    DivModUnique(x + c, m, if x + c < m then 0 else 1, if x + c < m then x + c else x + c - m);
  }

  lemma LowBytes(x: nat, low: nat, high: nat, k: nat)
    requires x == low + 0x1_0000_0000 * high && k < 4
    ensures (x / Pow(256, k)) % 256 == (low / Pow(256, k)) % 256
  {
    hide *;
    PowersOf256();
    PowAdd(256, k, 4 - k);
    PowAdd(256, 1, 3 - k);
    PowPositive(256, k);
    HigherBytes(x, low, high, Pow(256, k), Pow(256, 3 - k));
  }

  lemma HigherBytes(x: nat, low: nat, high: nat, p: nat, above: nat)
    requires p > 0 && x == low + 0x1_0000_0000 * high && 0x1_0000_0000 == p * (256 * above)
    ensures (x / p) % 256 == (low / p) % 256
  {
    hide *;
    var m := above * high;
    HigherMultiple(x, low, high, p, above, m);
    DivAddMultiple(low, 256 * m, p);
    ModAddMultiple(low / p, m, 256);
  }

  lemma HigherMultiple(x: nat, low: nat, high: nat, p: nat, above: nat, m: nat)
    requires x == low + (p * (256 * above)) * high && m == above * high
    ensures x == low + (256 * m) * p
  {
  }

  lemma PowersOf256()
    ensures Pow(256, 0) == 1 && Pow(256, 1) == 256 && Pow(256, 2) == 65536 && Pow(256, 3) == 16777216
    ensures Pow(256, 4) == 0x1_0000_0000
  {
    assert Pow(256, 2) == 65536;
    assert Pow(256, 3) == 16777216;
  }

  /** The bytes of the counter are the bytes of the length field. */
  lemma CounterByte(a: nat, b: nat, v: nat, k: nat)
    requires Counts(a, b, v) && k < 4
    ensures (v / Pow(256, k)) % 256 == (a / Pow(256, k)) % 256
    ensures (v / Pow(256, k + 4)) % 256 == (b / Pow(256, k)) % 256
  {
    var q := v / 0x1_0000_0000_0000_0000;
    assert v == a + 0x1_0000_0000 * (b + 0x1_0000_0000 * q);
    assert v / 0x1_0000_0000 == b + 0x1_0000_0000 * q;
    PowersOf256();
    hide *;
    LowBytes(v, a, b + 0x1_0000_0000 * q, k);
    LowBytes(b + 0x1_0000_0000 * q, b, q, k);
    PowAdd(256, 4, k);
    PowPositive(256, k);
    DivDiv(v, Pow(256, 4), Pow(256, k));
  }

  /** (uint8_t) (x >> 8k) */
  function LowByte(x: nat, k: nat): (r: bv8)
  {
    ((x / Pow(256, k)) % 256) as bv8
  }

  lemma CounterBytes(a: nat, b: nat, v: nat, k: nat)
    requires Counts(a, b, v) && k < 4
    ensures LengthByte(v, 7 - k) == LowByte(a, k) && LengthByte(v, 3 - k) == LowByte(b, k)
  {
    CounterByte(a, b, v, k);
    assert 7 - (3 - k) == k + 4;
    hide Pow, Counts;
  }

  // --------------------------------------------------------------- padding

  lemma OneBlockPad(msg: seq<bv8>, block: seq<bv8>)
    requires |msg| % 64 < 56
    requires block == Rest(msg) + [0x80] + Zeros(55 - |msg| % 64) + LengthBytes(8 * |msg|)
    ensures |block| == 64 && Pad(msg) == Whole(msg) + block
  {
    assert msg == Whole(msg) + Rest(msg);
    hide LengthBytes;
  }

  lemma TwoBlockPad(msg: seq<bv8>, block: seq<bv8>, last: seq<bv8>)
    requires |msg| % 64 >= 56
    requires block == Rest(msg) + [0x80] + Zeros(63 - |msg| % 64)
    requires last == Zeros(56) + LengthBytes(8 * |msg|)
    ensures |block| == |last| == 64 && Pad(msg) == Whole(msg) + block + last
  {
    assert msg == Whole(msg) + Rest(msg);
    assert ZeroCount(|msg|) == (63 - |msg| % 64) + 56;
    assert Zeros(ZeroCount(|msg|)) == Zeros(63 - |msg| % 64) + Zeros(56);
    hide LengthBytes;
  }

  lemma LengthBytesAre(v: nat, s: seq<bv8>)
    requires |s| == 8 && forall i :: 0 <= i < 8 ==> s[i] == LengthByte(v, i)
    ensures s == LengthBytes(v)
  {
    hide LengthByte;
  }

  /** Byte n of a digest. */
  function DigestByte(v: Eight, n: nat): (r: bv8)
    requires n < 32
  {
    WordByte(EightWord(v, n / 4), n % 4)
  }

  lemma DigestBytesAre(v: Eight, s: seq<bv8>)
    requires |s| == 32 && forall n :: 0 <= n < 32 ==> s[n] == DigestByte(v, n)
    ensures s == DigestBytes(v)
  {
    hide WordByte, EightWord;
    forall n | 0 <= n < 32
      ensures s[n] == DigestBytes(v)[n]
    {
      assert s[n] == DigestByte(v, n);
    }
  }

  lemma DigestRow(v: Eight, i: nat)
    requires i < 4
    ensures DigestByte(v, i) == WordByte(v.a, i) && DigestByte(v, i + 4) == WordByte(v.b, i)
    ensures DigestByte(v, i + 8) == WordByte(v.c, i) && DigestByte(v, i + 12) == WordByte(v.d, i)
    ensures DigestByte(v, i + 16) == WordByte(v.e, i) && DigestByte(v, i + 20) == WordByte(v.f, i)
    ensures DigestByte(v, i + 24) == WordByte(v.g, i) && DigestByte(v, i + 28) == WordByte(v.h, i)
  {
    hide WordByte;
  }

  // ------------------------------------------------------------ the context

  /** crypt_sha256_ctx; consumed is the message so far. */
  class Context {
    const data: array<bv8>
    const state: array<bv32>
    var datalen: nat
    var bitlen0: nat
    var bitlen1: nat
    ghost var consumed: seq<bv8>

    ghost predicate Valid()
      reads this, data, state
    {
      && data.Length == 64 && state.Length == 8
      && datalen == |consumed| % 64 && data[..datalen] == Rest(consumed)
      && StateOf(state[..]) == Absorb(InitialHash(), Whole(consumed))
      && Counts(bitlen0, bitlen1, 8 * |Whole(consumed)|)
    }

    /** malloc(sizeof(crypt_sha256_ctx)) */
    constructor ()
      ensures data.Length == 64 && state.Length == 8 && fresh(data) && fresh(state)
    {
      data := new bv8[64];
      state := new bv32[8];
      datalen, bitlen0, bitlen1, consumed := 0, 0, 0, [];
    }

    /** sha256_init */
    method Init()
      requires data.Length == 64 && state.Length == 8
      modifies this, state
      ensures Valid() && consumed == []
    {
      hide Constants, Schedule, Rounds, Compress;
      datalen, bitlen0, bitlen1, consumed := 0, 0, 0, [];
      state[0] := 0x6a09e667;
      state[1] := 0xbb67ae85;
      state[2] := 0x3c6ef372;
      state[3] := 0xa54ff53a;
      state[4] := 0x510e527f;
      state[5] := 0x9b05688c;
      state[6] := 0x1f83d9ab;
      state[7] := 0x5be0cd19;
    }

    /** The body of the loop of sha256_update. */
    method Push(b: bv8)
      requires Valid()
      modifies this, data, state
      ensures Valid() && consumed == old(consumed) + [b]
    {
      ghost var v, whole, rest := InitialHash(), Whole(consumed), Rest(consumed);
      PushByte(consumed, b);
      hide Whole, Rest, Absorb, Compress, StateOf, Counts, InitialHash, DblIntAdd;
      data[datalen] := b;
      assert data[..datalen + 1] == rest + [b];
      datalen := datalen + 1;
      if datalen == 64 {
        assert data[..] == rest + [b];
        AbsorbBlock(v, whole, data[..]);
        Transform(state, data);
        CountMore(bitlen0, bitlen1, 8 * |whole|, 512);
        bitlen0, bitlen1 := DblIntAdd(bitlen0, bitlen1, 512).0, DblIntAdd(bitlen0, bitlen1, 512).1;
        datalen := 0;
        assert data[..0] == [];
      }
      consumed := consumed + [b];
    }

    /** sha256_update; the loop counter is a 32-bit integer. */
    method Update(bytes: array<bv8>, len: nat)
      requires Valid() && len <= bytes.Length && bytes != data && len < 0x1_0000_0000
      modifies this, data, state
      ensures Valid() && consumed == old(consumed) + bytes[..len]
    {
      hide *;
      var i := 0;
      while i < len
        invariant 0 <= i <= len && Valid() && consumed == old(consumed) + bytes[..i]
      {
        assert bytes[..i + 1] == bytes[..i] + [bytes[i]];
        Push(bytes[i]);
        i := i + 1;
      }
    }

    /** The last eight bytes of the last block: the counter, high half first. */
    method PutLength(ghost total: nat)
      requires data.Length == 64 && Counts(bitlen0, bitlen1, total)
      modifies data
      ensures data[..56] == old(data[..56]) && data[56..] == LengthBytes(total)
    {
      hide *;
      ghost var front := data[..56];
      CounterBytes(bitlen0, bitlen1, total, 0);
      CounterBytes(bitlen0, bitlen1, total, 1);
      CounterBytes(bitlen0, bitlen1, total, 2);
      CounterBytes(bitlen0, bitlen1, total, 3);
      PutWord(bitlen0, 60);
      PutWord(bitlen1, 56);
      LengthBytesAre(total, data[56..]);
      assert data[..56] == front;
    }

    /** A counter word, most significant byte first. */
    method PutWord(x: nat, at: nat)
      requires at + 4 <= data.Length
      modifies data
      ensures data[at + 3] == LowByte(x, 0) && data[at + 2] == LowByte(x, 1)
      ensures data[at + 1] == LowByte(x, 2) && data[at] == LowByte(x, 3)
      ensures forall j :: 0 <= j < at || at + 4 <= j < data.Length ==> data[j] == old(data[j])
    {
      hide *;
      data[at + 3] := LowByte(x, 0);
      data[at + 2] := LowByte(x, 1);
      data[at + 1] := LowByte(x, 2);
      data[at] := LowByte(x, 3);
    }

    /** Clears words of data: data[lo..hi] = 0. */
    method ZeroFill(lo: nat, hi: nat)
      requires lo <= hi <= data.Length
      modifies data
      ensures data[..lo] == old(data[..lo]) && data[hi..] == old(data[hi..]) && data[lo..hi] == Zeros(hi - lo)
    {
      var i := lo;
      while i < hi
        invariant lo <= i <= hi
        invariant forall j :: lo <= j < i ==> data[j] == 0
        invariant forall j :: 0 <= j < lo || hi <= j < data.Length ==> data[j] == old(data[j])
      {
        data[i] := 0;
        i := i + 1;
      }
    }

    /** The padding branches of sha256_final: whole blocks are absorbed, 56 bytes of the last one are laid out. */
    method PadBlocks() returns (ghost blocks: seq<bv8>)
      requires Valid()
      modifies data, state
      ensures |blocks| % 64 == 0 && data.Length == 64
      ensures StateOf(state[..]) == Absorb(InitialHash(), blocks)
      ensures Pad(consumed) == blocks + (data[..56] + LengthBytes(8 * |consumed|))
    {
      hide *;
      ghost var whole, rest, msg := Whole(consumed), Rest(consumed), consumed;
      TotalBits(this);
      if datalen < 56 {
        StopBit(56);
        OneBlockPad(msg, data[..56] + LengthBytes(8 * |msg|));
        blocks := whole;
      } else {
        StopBit(64);
        assert data[..] == data[..64];
        ghost var block := data[..];
        AbsorbBlock(InitialHash(), whole, block);
        Transform(state, data);
        ZeroFill(0, 56);
        assert data[..56] == data[0..56];
        TwoBlockPad(msg, block, data[..56] + LengthBytes(8 * |msg|));
        blocks := whole + block;
      }
    }

    /** The one bit, and zeros up to byte hi. */
    method StopBit(hi: nat)
      requires data.Length == 64 && datalen < hi <= 64
      modifies data
      ensures data[..hi] == old(data[..datalen]) + [0x80] + Zeros(hi - datalen - 1)
    {
      hide *;
      ghost var rest := data[..datalen];
      var i := datalen;
      data[i] := 0x80;
      i := i + 1;
      assert data[..i] == rest + [0x80];
      ZeroFill(i, hi);
      assert data[..hi] == data[..i] + data[i..hi];
    }

    /** sha256_final: the digest of everything consumed. */
    method Final(hash: array<bv8>)
      requires Valid() && hash.Length >= 32 && hash != data
      modifies this, data, state, hash
      ensures hash[..32] == Sha256Of(old(consumed)) && hash[32..] == old(hash[32..])
      ensures data.Length == 64 && state.Length == 8
    {
      hide *;
      ghost var msg := consumed;
      TotalBits(this);
      CountMore(bitlen0, bitlen1, 8 * |Whole(msg)|, datalen * 8);
      ghost var blocks := PadBlocks();
      bitlen0, bitlen1 := DblIntAdd(bitlen0, bitlen1, datalen * 8).0, DblIntAdd(bitlen0, bitlen1, datalen * 8).1;
      PutLength(8 * |msg|);
      assert data[..] == data[..56] + data[56..];
      AbsorbBlock(InitialHash(), blocks, data[..]);
      Transform(state, data);
      CopyState(hash);
      Sha256Is(msg);
    }

    /** The big-endian copy of the state to the output hash. */
    method CopyState(hash: array<bv8>)
      requires state.Length == 8 && hash.Length >= 32
      modifies hash
      ensures hash[..32] == DigestBytes(StateOf(state[..])) && hash[32..] == old(hash[32..])
    {
      hide *;
      ghost var v := StateOf(state[..]);
      StateWords(state[..]);
      var i := 0;
      while i < 4
        invariant 0 <= i <= 4
        invariant forall n :: 0 <= n < 32 && n % 4 < i ==> hash[n] == DigestByte(v, n)
        invariant forall n :: 32 <= n < hash.Length ==> hash[n] == old(hash[n])
      {
        ghost var before := hash[..];
        DigestRow(v, i);
        CopyRow(hash, i);
        forall n | 0 <= n < 32 && n % 4 < i + 1
          ensures hash[n] == DigestByte(v, n)
        {
          assert n % 4 != i ==> hash[n] == before[n];
        }
        i := i + 1;
      }
      DigestBytesAre(v, hash[..32]);
    }

    /** The bytes i of four words of the state. */
    method CopyHalfRow(hash: array<bv8>, i: nat, word: nat)
      requires state.Length == 8 && hash.Length >= 32 && i < 4 && (word == 0 || word == 4)
      modifies hash
      ensures var at := 4 * word + i;
        && hash[at] == WordByte(state[word], i) && hash[at + 4] == WordByte(state[word + 1], i)
        && hash[at + 8] == WordByte(state[word + 2], i) && hash[at + 12] == WordByte(state[word + 3], i)
      ensures forall n :: 0 <= n < hash.Length && (n % 4 != i || n < 4 * word || 4 * word + 16 <= n)
                ==> hash[n] == old(hash[n])
    {
      hide *;
      var at := 4 * word + i;
      hash[at] := WordByte(state[word], i);
      hash[at + 4] := WordByte(state[word + 1], i);
      hash[at + 8] := WordByte(state[word + 2], i);
      hash[at + 12] := WordByte(state[word + 3], i);
    }

    method CopyRow(hash: array<bv8>, i: nat)
      requires state.Length == 8 && hash.Length >= 32 && i < 4
      modifies hash
      ensures hash[i] == WordByte(state[0], i) && hash[i + 4] == WordByte(state[1], i)
      ensures hash[i + 8] == WordByte(state[2], i) && hash[i + 12] == WordByte(state[3], i)
      ensures hash[i + 16] == WordByte(state[4], i) && hash[i + 20] == WordByte(state[5], i)
      ensures hash[i + 24] == WordByte(state[6], i) && hash[i + 28] == WordByte(state[7], i)
      ensures forall n :: 0 <= n < hash.Length && (n % 4 != i || n >= 32) ==> hash[n] == old(hash[n])
    {
      hide *;
      CopyHalfRow(hash, i, 0);
      CopyHalfRow(hash, i, 4);
    }
  }

  lemma TotalBits(ctx: Context)
    requires ctx.Valid()
    ensures ctx.data.Length == 64 && ctx.state.Length == 8 && ctx.datalen < 64
    ensures Counts(ctx.bitlen0, ctx.bitlen1, 8 * |Whole(ctx.consumed)|)
    ensures ctx.datalen == |ctx.consumed| % 64 && ctx.data[..ctx.datalen] == Rest(ctx.consumed)
    ensures |Whole(ctx.consumed)| % 64 == 0
    ensures StateOf(ctx.state[..]) == Absorb(InitialHash(), Whole(ctx.consumed))
    ensures 8 * |Whole(ctx.consumed)| + ctx.datalen * 8 == 8 * |ctx.consumed|
  {
    hide Counts, StateOf, Absorb;
  }

  lemma Sha256Is(msg: seq<bv8>)
    ensures |Pad(msg)| % 64 == 0 && Sha256Of(msg) == DigestBytes(Absorb(InitialHash(), Pad(msg)))
  {
    hide Pad, DigestBytes, Absorb, InitialHash;
  }
}
