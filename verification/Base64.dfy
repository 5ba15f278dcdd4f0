/**
 base64_encode and base64_decode (RFC 4648 section 4), with the decoding table util_init builds.
 Characters and bytes are numbers below 256.
 */
module Base64 {

  function Code(c: char): (r: nat)
  {
    c as nat
  }

  const PAD: nat := 61 // '='

  /** base64_encoding_table[i] */
  function EncodingChar(i: nat): (c: nat)
    requires i < 64
    ensures c < 128 && c != PAD
  {
    if i < 26 then Code('A') + i
    else if i < 52 then Code('a') + (i - 26)
    else if i < 62 then Code('0') + (i - 52)
    else if i == 62 then Code('+')
    else Code('/')
  }

  lemma EncodingCharInjective(i: nat, j: nat)
    requires i < 64 && j < 64 && EncodingChar(i) == EncodingChar(j)
    ensures i == j
  {
  }

  const UPPER_CASE: string := "ABCDEFGHIJKLMNOPQRSTUVWXYZ"
  const LOWER_CASE: string := "abcdefghijklmnopqrstuvwxyz"
  const OTHERS: string := "0123456789+/"

  /** Table 1 of RFC 4648. */
  const ALPHABET: string := UPPER_CASE + LOWER_CASE + OTHERS

  lemma IsUpperCase(i: nat)
    requires i < 26
    ensures |UPPER_CASE| == 26 && EncodingChar(i) == Code(UPPER_CASE[i])
  {
  }

  lemma IsLowerCase(i: nat)
    requires 26 <= i < 52
    ensures |LOWER_CASE| == 26 && EncodingChar(i) == Code(LOWER_CASE[i - 26])
  {
  }

  lemma IsOther(i: nat)
    requires 52 <= i < 64
    ensures |OTHERS| == 12 && EncodingChar(i) == Code(OTHERS[i - 52])
  {
  }

  /** The characters computed are those of the table. */
  lemma AlphabetIs(i: nat)
    requires i < 64
    ensures |ALPHABET| == 64 && EncodingChar(i) == Code(ALPHABET[i])
  {
    hide EncodingChar;
    IsUpperCase(0);
    IsLowerCase(26);
    IsOther(52);
    if i < 26 {
      IsUpperCase(i);
    } else if i < 52 {
      IsLowerCase(i);
    } else {
      IsOther(i);
    }
  }

  predicate IsOctets(s: seq<nat>)
  {
    forall i :: 0 <= i < |s| ==> s[i] < 256
  }

  // ------------------------------------------------------------- RFC 4648

  /** The four characters of three octets. */
  function Group(a: nat, b: nat, c: nat): (s: seq<nat>)
    requires a < 256 && b < 256 && c < 256
    ensures |s| == 4
  {
    [EncodingChar(a / 4), EncodingChar(a % 4 * 16 + b / 16), EncodingChar(b % 16 * 4 + c / 64), EncodingChar(c % 64)]
  }

  /** The encoding: groups of three octets, and one or two pad characters for a short last group. */
  function Encoding(s: seq<nat>): (t: seq<nat>)
    requires IsOctets(s)
    ensures |t| == EncodedSize(|s|)
  {
    if |s| == 0 then []
    else if |s| == 1 then Group(s[0], 0, 0)[..2] + [PAD, PAD]
    else if |s| == 2 then Group(s[0], s[1], 0)[..3] + [PAD]
    else Group(s[0], s[1], s[2]) + Encoding(s[3..])
  }

  /** The numbers of a string's characters. */
  function Codes(s: string): (r: seq<nat>)
    ensures |r| == |s|
  {
    seq(|s|, i requires 0 <= i < |s| => Code(s[i]))
  }

  lemma ShortEncodings(a: nat, b: nat)
    requires a < 256 && b < 256
    ensures Encoding([a]) == Group(a, 0, 0)[..2] + [PAD, PAD] && Encoding([a, b]) == Group(a, b, 0)[..3] + [PAD]
  {
    hide Group;
  }

  lemma GroupFirst(a: nat, b: nat, c: nat, s: seq<nat>)
    requires a < 256 && b < 256 && c < 256 && IsOctets(s)
    ensures Encoding([a, b, c] + s) == Group(a, b, c) + Encoding(s)
  {
    hide Group;
    assert ([a, b, c] + s)[3..] == s;
  }

  /** The test vectors "f", "fo" and "foo" of RFC 4648 section 10. */
  lemma KnownShort()
    ensures Encoding([102]) == Codes("Zg==") && Encoding([102, 111]) == Codes("Zm8=")
    ensures Encoding([102, 111, 111]) == Codes("Zm9v")
  {
    hide *;
    KnownGroups();
    ShortEncodings(102, 111);
    OneGroup(102, 111, 111);
  }

  /** The test vectors "foob", "fooba" and "foobar". */
  lemma KnownLong()
    ensures Encoding([102, 111, 111] + [98]) == Codes("Zm9v") + Codes("Yg==")
    ensures Encoding([102, 111, 111] + [98, 97]) == Codes("Zm9v") + Codes("YmE=")
    ensures Encoding([102, 111, 111] + [98, 97, 114]) == Codes("Zm9v") + Codes("YmFy")
  {
    hide *;
    KnownGroups();
    ShortEncodings(98, 97);
    OneGroup(98, 97, 114);
    Octets3(98, 97, 114);
    GroupFirst(102, 111, 111, [98]);
    GroupFirst(102, 111, 111, [98, 97]);
    GroupFirst(102, 111, 111, [98, 97, 114]);
  }

  /** The last two characters of the alphabet. */
  lemma KnownSigns()
    ensures Encoding([251, 239, 190]) == Codes("++++") && Encoding([255, 255, 255]) == Codes("////")
  {
    hide *;
    KnownGroups();
    OneGroup(251, 239, 190);
    OneGroup(255, 255, 255);
  }

  lemma Octets3(a: nat, b: nat, c: nat)
    requires a < 256 && b < 256 && c < 256
    ensures IsOctets([a]) && IsOctets([a, b]) && IsOctets([a, b, c])
  {
  }

  lemma OneGroup(a: nat, b: nat, c: nat)
    requires a < 256 && b < 256 && c < 256
    ensures Encoding([a, b, c]) == Group(a, b, c)
  {
    GroupFirst(a, b, c, []);
    assert [a, b, c] + [] == [a, b, c];
    hide Group;
  }

  lemma KnownGroups()
    ensures Group(102, 111, 111) == Codes("Zm9v") && Group(98, 97, 114) == Codes("YmFy")
    ensures Group(102, 0, 0)[..2] + [PAD, PAD] == Codes("Zg==") && Group(102, 111, 0)[..3] + [PAD] == Codes("Zm8=")
    ensures Group(98, 0, 0)[..2] + [PAD, PAD] == Codes("Yg==") && Group(98, 97, 0)[..3] + [PAD] == Codes("YmE=")
    ensures Group(251, 239, 190) == Codes("++++") && Group(255, 255, 255) == Codes("////")
  {
  }

  // ----------------------------------------------------------------- sizes

  /** base64_encoded_size */
  function EncodedSize(bytes: nat): (r: nat)
  {
    4 * ((bytes + 2) / 3)
  }

  /** base64_decoded_size */
  function DecodedSize(length: nat): (r: nat)
  {
    length / 4 * 3
  }

  /** base64_mod_table[bytes % 3] */
  function PadCount(bytes: nat): (k: nat)
    ensures k <= 2 && (bytes + k) % 3 == 0
  {
    if bytes % 3 == 0 then 0 else if bytes % 3 == 1 then 2 else 1
  }

  /** The size the decoder is given is the size rounded up to whole groups, and it reads all characters. */
  lemma SizesAgree(n: nat)
    ensures DecodedSize(EncodedSize(n)) == n + PadCount(n)
    ensures EncodedSize(DecodedSize(EncodedSize(n))) == EncodedSize(n)
  {
  }

  // ------------------------------------------------------------ the groups

  function ByteOrZero(s: seq<nat>, i: nat): (r: nat)
  {
    if i < |s| then s[i] else 0
  }

  /** The 24 bits of group g. */
  function Triple(s: seq<nat>, g: nat): (r: nat)
  {
    ByteOrZero(s, 3 * g) * 0x1_0000 + ByteOrZero(s, 3 * g + 1) * 0x100 + ByteOrZero(s, 3 * g + 2)
  }

  function Sextet(triple: nat, t: nat): (r: nat)
    requires t < 4
    ensures r < 64
  {
    if t == 0 then triple / 0x4_0000 % 64
    else if t == 1 then triple / 0x1000 % 64
    else if t == 2 then triple / 0x40 % 64
    else triple % 64
  }

  function Octet(triple: nat, t: nat): (r: nat)
    requires t < 3
    ensures r < 256
  {
    if t == 0 then triple / 0x1_0000 % 256 else if t == 1 then triple / 0x100 % 256 else triple % 256
  }

  /** Character k of the encoding. */
  function CharAt(s: seq<nat>, k: nat): (r: nat)
  {
    if k >= EncodedSize(|s|) - PadCount(|s|) then PAD else EncodingChar(Sextet(Triple(s, k / 4), k % 4))
  }

  lemma TripleSextets(a: nat, b: nat, c: nat)
    requires a < 256 && b < 256 && c < 256
    ensures var v := a * 0x1_0000 + b * 0x100 + c;
      && Sextet(v, 0) == a / 4 && Sextet(v, 1) == a % 4 * 16 + b / 16
      && Sextet(v, 2) == b % 16 * 4 + c / 64 && Sextet(v, 3) == c % 64
  {
    BitFields(a / 4, a % 4, b / 16, b % 16, c / 64, c % 64);
  }

  lemma BitFields(q: nat, r: nat, t: nat, u: nat, x: nat, y: nat)
    requires q < 64 && r < 4 && t < 16 && u < 16 && x < 4 && y < 64
    ensures var v := q * 0x4_0000 + r * 0x1_0000 + t * 0x1000 + u * 0x100 + x * 0x40 + y;
      && v / 0x4_0000 % 64 == q && v / 0x1000 % 64 == r * 16 + t
      && v / 0x40 % 64 == u * 4 + x && v % 64 == y
  {
    var v := q * 0x4_0000 + r * 0x1_0000 + t * 0x1000 + u * 0x100 + x * 0x40 + y;
    assert v / 0x4_0000 == q;
    assert v / 0x1000 == 64 * q + (r * 16 + t);
    assert v / 0x40 == 64 * (64 * q + r * 16 + t) + (u * 4 + x);
  }

  lemma SextetsTriple(triple: nat)
    requires triple < 0x100_0000
    ensures Sextet(triple, 0) * 0x4_0000 + Sextet(triple, 1) * 0x1000 + Sextet(triple, 2) * 0x40 + Sextet(triple, 3)
         == triple
  {
    var a := triple / 0x40;
    var b := a / 0x40;
    assert b == triple / 0x1000;
    var c := b / 0x40;
    assert c == triple / 0x4_0000;
    assert triple == 0x40 * a + triple % 64 && a == 0x40 * b + a % 64 && b == 0x40 * c + b % 64;
    assert c < 64;
  }

  lemma TripleOctets(a: nat, b: nat, c: nat)
    requires a < 256 && b < 256 && c < 256
    ensures var v := a * 0x1_0000 + b * 0x100 + c;
      v < 0x100_0000 && Octet(v, 0) == a && Octet(v, 1) == b && Octet(v, 2) == c
  {
  }

  lemma TripleOfTail(s: seq<nat>, g: nat)
    requires |s| >= 3 && g >= 1
    ensures Triple(s, g) == Triple(s[3..], g - 1)
  {
  }

  /** The characters one by one are those of RFC 4648. */
  lemma {:induction false} CharsAreEncoding(s: seq<nat>, k: nat)
    requires IsOctets(s) && k < EncodedSize(|s|)
    ensures CharAt(s, k) == Encoding(s)[k]
  {
    if k < 4 {
      FirstGroup(s, k);
    } else {
      hide *;
      LongerThanThree(s, k);
      LaterGroups(s, k);
      CharsAreEncoding(s[3..], k - 4);
      CharStep(s, k);
    }
  }

  lemma LongerThanThree(s: seq<nat>, k: nat)
    requires IsOctets(s) && 4 <= k < EncodedSize(|s|)
    ensures |s| > 3 && IsOctets(s[3..]) && k - 4 < EncodedSize(|s| - 3)
  {
  }

  lemma CharStep(s: seq<nat>, k: nat)
    requires |s| > 3 && k >= 4
    ensures CharAt(s, k) == CharAt(s[3..], k - 4)
  {
    TripleOfTail(s, k / 4);
    SizeStep(|s|);
    assert (k - 4) / 4 == k / 4 - 1 && (k - 4) % 4 == k % 4;
    hide Sextet, EncodingChar, Triple, EncodedSize, PadCount;
  }

  lemma SizeStep(n: nat)
    requires n > 3
    ensures EncodedSize(n) == EncodedSize(n - 3) + 4 && PadCount(n) == PadCount(n - 3)
  {
  }

  lemma SizeStart(n: nat)
    ensures n == 1 ==> EncodedSize(n) - PadCount(n) == 2
    ensures n == 2 ==> EncodedSize(n) - PadCount(n) == 3
    ensures n >= 3 ==> EncodedSize(n) - PadCount(n) >= 4
  {
  }

  lemma EncodingStep(s: seq<nat>)
    requires IsOctets(s) && |s| >= 3
    ensures IsOctets(s[3..]) && Encoding(s) == Group(s[0], s[1], s[2]) + Encoding(s[3..])
  {
    hide Group;
  }

  lemma LaterGroups(s: seq<nat>, k: nat)
    requires IsOctets(s) && |s| > 3 && 4 <= k < EncodedSize(|s|)
    ensures |Encoding(s)| == EncodedSize(|s|) && |Encoding(s[3..])| == EncodedSize(|s| - 3)
    ensures EncodedSize(|s|) == EncodedSize(|s| - 3) + 4 && PadCount(|s|) == PadCount(|s| - 3)
    ensures Encoding(s)[k] == Encoding(s[3..])[k - 4]
  {
    EncodingStep(s);
    SizeStep(|s|);
    hide *;
  }

  lemma GroupAt(a: nat, b: nat, c: nat, t: nat)
    requires a < 256 && b < 256 && c < 256 && t < 4
    ensures Group(a, b, c)[t] == EncodingChar(Sextet(a * 0x1_0000 + b * 0x100 + c, t))
  {
    TripleSextets(a, b, c);
    hide Sextet, EncodingChar;
  }

  lemma EncodingStart(s: seq<nat>, k: nat)
    requires IsOctets(s) && |s| >= 1 && k < 4
    ensures |s| == 1 ==> Encoding(s)[k] == if k < 2 then Group(s[0], 0, 0)[k] else PAD
    ensures |s| == 2 ==> Encoding(s)[k] == if k < 3 then Group(s[0], s[1], 0)[k] else PAD
    ensures |s| >= 3 ==> Encoding(s)[k] == Group(s[0], s[1], s[2])[k]
  {
    if |s| >= 3 {
      EncodingStep(s);
    }
    hide Group;
  }

  lemma CharIs(s: seq<nat>, k: nat)
    requires k < 4
    ensures CharAt(s, k) == if k >= EncodedSize(|s|) - PadCount(|s|) then PAD else EncodingChar(Sextet(Triple(s, 0), k))
  {
    hide EncodedSize, PadCount, EncodingChar, Sextet, Triple;
  }

  lemma FirstTriple(s: seq<nat>)
    requires IsOctets(s) && |s| >= 1
    ensures s[0] < 256
    ensures Triple(s, 0) == s[0] * 0x1_0000 + ByteOrZero(s, 1) * 0x100 + ByteOrZero(s, 2)
    ensures ByteOrZero(s, 1) == (if |s| >= 2 then s[1] else 0) < 256
    ensures ByteOrZero(s, 2) == (if |s| >= 3 then s[2] else 0) < 256
  {
  }

  lemma FirstGroup(s: seq<nat>, k: nat)
    requires IsOctets(s) && 1 <= |s| && k < 4 && k < EncodedSize(|s|)
    ensures |Encoding(s)| == EncodedSize(|s|) && CharAt(s, k) == Encoding(s)[k]
  {
    hide *;
    EncodingStart(s, k);
    EncodingLength(s);
    FirstTriple(s);
    SizeStart(|s|);
    CharIs(s, k);
    var b, c := ByteOrZero(s, 1), ByteOrZero(s, 2);
    GroupAt(s[0], b, c, k);
    if |s| == 1 {
      assert b == 0 && c == 0;
    } else if |s| == 2 {
      assert c == 0;
    }
  }

  lemma EncodingLength(s: seq<nat>)
    requires IsOctets(s)
    ensures |Encoding(s)| == EncodedSize(|s|)
  {
    hide Encoding;
  }

  // -------------------------------------------------------------- encoding

  ghost predicate EncodedTo(dst: seq<nat>, s: seq<nat>, k: nat)
    requires k <= |dst|
  {
    forall j :: 0 <= j < k ==> dst[j] == EncodingChar(Sextet(Triple(s, j / 4), j % 4))
  }

  lemma EncodedGroup(before: seq<nat>, dst: seq<nat>, s: seq<nat>, g: nat)
    requires 4 * g + 4 <= |dst| == |before| && EncodedTo(before, s, 4 * g)
    requires forall j :: 0 <= j < 4 * g ==> dst[j] == before[j]
    requires dst[4 * g] == EncodingChar(Sextet(Triple(s, g), 0))
    requires dst[4 * g + 1] == EncodingChar(Sextet(Triple(s, g), 1))
    requires dst[4 * g + 2] == EncodingChar(Sextet(Triple(s, g), 2))
    requires dst[4 * g + 3] == EncodingChar(Sextet(Triple(s, g), 3))
    ensures EncodedTo(dst, s, 4 * g + 4)
  {
    hide Sextet, EncodingChar, Triple;
    forall j | 0 <= j < 4 * g + 4
      ensures dst[j] == EncodingChar(Sextet(Triple(s, j / 4), j % 4))
    {
      if j < 4 * g {
        assert dst[j] == before[j];
      } else {
        assert j / 4 == g && j % 4 == j - 4 * g;
      }
    }
  }

  lemma PaddedIsEncoding(dst: seq<nat>, s: seq<nat>)
    requires IsOctets(s) && |dst| == EncodedSize(|s|)
    requires forall j :: 0 <= j < |dst| - PadCount(|s|) ==> dst[j] == EncodingChar(Sextet(Triple(s, j / 4), j % 4))
    requires forall j :: |dst| - PadCount(|s|) <= j < |dst| ==> dst[j] == PAD
    ensures dst == Encoding(s)
  {
    hide Encoding, EncodingChar, Sextet, Triple;
    EncodingLength(s);
    forall j | 0 <= j < |dst|
      ensures dst[j] == Encoding(s)[j]
    {
      CharsAreEncoding(s, j);
    }
  }

  /** The 24 bits of one round of base64_encode. */
  method NextTriple(data: array<nat>, i: nat, bytes: nat, ghost g: nat) returns (i': nat, triple: nat)
    requires i < bytes <= data.Length && i == 3 * g
    ensures triple == Triple(data[..bytes], g)
    ensures i' == if i + 3 <= bytes then i + 3 else bytes
  {
    i' := i;
    var a, b, c := 0, 0, 0;
    if i' < bytes {
      a := data[i'];
      i' := i' + 1;
    }
    if i' < bytes {
      b := data[i'];
      i' := i' + 1;
    }
    if i' < bytes {
      c := data[i'];
      i' := i' + 1;
    }
    triple := a * 0x1_0000 + b * 0x100 + c;
  }

  /** The four characters of a triple. */
  method PutGroup(dst: array<nat>, triple: nat, ghost s: seq<nat>, ghost g: nat, j: nat)
    requires j == 4 * g && 4 * g + 4 <= dst.Length && EncodedTo(dst[..], s, 4 * g) && triple == Triple(s, g)
    modifies dst
    ensures EncodedTo(dst[..], s, 4 * g + 4)
    ensures forall k :: 4 * g + 4 <= k < dst.Length ==> dst[k] == old(dst[k])
  {
    hide *;
    ghost var before := dst[..];
    dst[j] := EncodingChar(Sextet(triple, 0));
    dst[j + 1] := EncodingChar(Sextet(triple, 1));
    dst[j + 2] := EncodingChar(Sextet(triple, 2));
    dst[j + 3] := EncodingChar(Sextet(triple, 3));
    EncodedGroup(before, dst[..], s, g);
  }

  lemma GroupCount(bytes: nat, g: nat)
    ensures 3 * g < bytes ==> 4 * g + 4 <= EncodedSize(bytes)
    ensures bytes <= 3 * g < bytes + 3 ==> 4 * g == EncodedSize(bytes)
    ensures PadCount(bytes) <= EncodedSize(bytes)
  {
  }

  lemma NothingEncoded(dst: seq<nat>, s: seq<nat>)
    ensures EncodedTo(dst, s, 0)
  {
  }

  /** The loop of base64_encode over the octets. */
  method EncodeGroups(data: array<nat>, dst: array<nat>, bytes: nat)
    requires bytes <= data.Length && data != dst && EncodedSize(bytes) <= dst.Length
    modifies dst
    ensures EncodedTo(dst[..], data[..bytes], EncodedSize(bytes))
    ensures forall k :: EncodedSize(bytes) <= k < dst.Length ==> dst[k] == old(dst[k])
  {
    hide *;
    ghost var s := data[..bytes];
    NothingEncoded(dst[..], s);
    var i, j := 0, 0;
    ghost var g := 0;
    GroupCount(bytes, 0);
    while i < bytes
      invariant j == 4 * g <= EncodedSize(bytes) && s == data[..bytes]
      invariant i == (if 3 * g <= bytes then 3 * g else bytes) && 3 * g < bytes + 3
      invariant EncodedTo(dst[..], s, j)
      invariant forall k :: EncodedSize(bytes) <= k < dst.Length ==> dst[k] == old(dst[k])
    {
      GroupCount(bytes, g);
      var triple;
      i, triple := NextTriple(data, i, bytes, g);
      PutGroup(dst, triple, s, g, j);
      j := j + 4;
      g := g + 1;
    }
    GroupCount(bytes, g);
  }

  /** base64_encode; sizes for which its int counters do not overflow. */
  method Base64Encode(data: array<nat>, dst: array<nat>, bytes: nat)
    requires bytes <= data.Length && IsOctets(data[..bytes]) && data != dst
    requires EncodedSize(bytes) <= dst.Length && EncodedSize(bytes) < 0x8000_0000
    modifies dst
    ensures dst[..EncodedSize(bytes)] == Encoding(data[..bytes])
    ensures dst[EncodedSize(bytes)..] == old(dst[EncodedSize(bytes)..])
  {
    ghost var s := data[..bytes];
    var outputLength := EncodedSize(bytes);
    GroupCount(bytes, 0);
    hide Encoding, EncodingChar, Sextet, Triple, EncodedSize, PadCount;
    EncodeGroups(data, dst, bytes);
    ghost var whole := dst[..];
    var p := 0;
    while p < PadCount(bytes)
      invariant 0 <= p <= PadCount(bytes) && PadCount(bytes) <= outputLength
      invariant forall k :: 0 <= k < outputLength - p ==> dst[k] == whole[k]
      invariant forall k :: outputLength - p <= k < outputLength ==> dst[k] == PAD
      invariant forall k :: outputLength <= k < dst.Length ==> dst[k] == old(dst[k])
    {
      dst[outputLength - 1 - p] := PAD;
      p := p + 1;
    }
    PaddedIsEncoding(dst[..outputLength], s);
  }

  // -------------------------------------------------------------- decoding

  /** The decoding table inverts the encoding table. */
  predicate Inverts(table: seq<nat>)
  {
    |table| == 256 && forall i :: 0 <= i < 64 ==> table[EncodingChar(i)] == i
  }

  /** util_init; the other entries of the table stay as malloc left them. */
  method UtilInit(table: array<nat>)
    requires table.Length == 256
    modifies table
    ensures Inverts(table[..])
    ensures forall c :: 0 <= c < 256 && table[c] != old(table[c]) ==> exists i :: 0 <= i < 64 && EncodingChar(i) == c
  {
    var i := 0;
    while i < 64
      invariant 0 <= i <= 64
      invariant forall j :: 0 <= j < i ==> table[EncodingChar(j)] == j
      invariant forall c :: 0 <= c < 256 && table[c] != old(table[c]) ==>
                  exists j :: 0 <= j < 64 && EncodingChar(j) == c
    {
      forall j | 0 <= j < i
        ensures EncodingChar(j) != EncodingChar(i)
      {
        if EncodingChar(j) == EncodingChar(i) {
          EncodingCharInjective(j, i);
        }
      }
      hide EncodingChar;
      table[EncodingChar(i)] := i;
      i := i + 1;
    }
  }

  /** The value of a character: zero for the pad character. */
  function Value(c: nat, table: seq<nat>): (r: nat)
    requires c < 256 == |table|
  {
    if c == PAD then 0 else table[c]
  }

  function DecodedTriple(ascii: seq<nat>, table: seq<nat>, g: nat): (r: nat)
    requires IsOctets(ascii) && 4 * g + 4 <= |ascii| && |table| == 256
  {
    Value(ascii[4 * g], table) * 0x4_0000 + Value(ascii[4 * g + 1], table) * 0x1000
    + Value(ascii[4 * g + 2], table) * 0x40 + Value(ascii[4 * g + 3], table)
  }

  /** Byte j of the decoding. */
  function DecodedByte(ascii: seq<nat>, table: seq<nat>, j: nat): (r: nat)
    requires IsOctets(ascii) && 4 * (j / 3) + 4 <= |ascii| && |table| == 256
  {
    Octet(DecodedTriple(ascii, table, j / 3), j % 3)
  }

  /** How many bytes are written: one less for each of the last two characters that is a pad. */
  function DecodedCount(ascii: seq<nat>, bytes: nat): (n: nat)
    requires |ascii| >= 2
    ensures n <= |ascii| / 4 * 3
  {
    var pads := (if ascii[|ascii| - 1] == PAD then 1 else 0) + (if ascii[|ascii| - 2] == PAD then 1 else 0);
    var left := (bytes - pads) % 0x1_0000_0000;
    if left < |ascii| / 4 * 3 then left else |ascii| / 4 * 3
  }

  /** Writes one byte if it is still wanted: if (j < bytes) dst[j++] = ... */
  method PutByte(dst: array<nat>, j: nat, wanted: nat, value: nat) returns (j': nat)
    requires j < wanted ==> j < dst.Length
    modifies dst
    ensures j' == if j < wanted then j + 1 else j
    ensures dst[..] == old(if j < wanted then dst[..][j := value] else dst[..])
  {
    j' := j;
    if j < wanted {
      dst[j] := value;
      j' := j + 1;
    }
  }

  ghost predicate DecodedTo(dst: seq<nat>, ascii: seq<nat>, table: seq<nat>, n: nat)
    requires IsOctets(ascii) && |table| == 256 && n <= |dst| && n <= |ascii| / 4 * 3
  {
    forall j :: 0 <= j < n ==> dst[j] == DecodedByte(ascii, table, j)
  }

  lemma DecodedNext(dst: seq<nat>, ascii: seq<nat>, table: seq<nat>, n: nat, g: nat, t: nat)
    requires IsOctets(ascii) && |table| == 256 && n < |dst| && n < |ascii| / 4 * 3 && n == 3 * g + t && t < 3
    requires DecodedTo(dst, ascii, table, n)
    ensures 4 * g + 4 <= |ascii|
    ensures DecodedTo(dst[n := Octet(DecodedTriple(ascii, table, g), t)], ascii, table, n + 1)
  {
    assert n / 3 == g && n % 3 == t;
    hide Octet, DecodedTriple;
  }

  lemma DecodedCountIs(ascii: seq<nat>, bytes: nat, pads: nat)
    requires |ascii| >= 2
    requires pads == (if ascii[|ascii| - 1] == PAD then 1 else 0) + (if ascii[|ascii| - 2] == PAD then 1 else 0)
    ensures var left := (bytes - pads) % 0x1_0000_0000;
      DecodedCount(ascii, bytes) == if left < |ascii| / 4 * 3 then left else |ascii| / 4 * 3
  {
  }

  lemma GroupFits(size: nat, g: nat)
    requires size % 4 == 0 && 4 * g < size
    ensures 4 * g + 4 <= size && 3 * g + 3 <= size / 4 * 3
  {
  }

  lemma NothingDecoded(dst: seq<nat>, ascii: seq<nat>, table: seq<nat>)
    requires IsOctets(ascii) && |table| == 256
    ensures DecodedTo(dst, ascii, table, 0)
  {
  }

  /** The four sextets of one round of base64_decode. */
  method ReadTriple(ascii: array<nat>, table: array<nat>, i: nat, size: nat, ghost g: nat) returns (triple: nat)
    requires size <= ascii.Length && IsOctets(ascii[..size]) && table.Length == 256 && i == 4 * g && i + 4 <= size
    ensures triple == DecodedTriple(ascii[..size], table[..], g)
  {
    ghost var s := ascii[..size];
    assert s[i] == ascii[i] && s[i + 1] == ascii[i + 1] && s[i + 2] == ascii[i + 2] && s[i + 3] == ascii[i + 3];
    var a := if ascii[i] == PAD then 0 else table[ascii[i]];
    var b := if ascii[i + 1] == PAD then 0 else table[ascii[i + 1]];
    var c := if ascii[i + 2] == PAD then 0 else table[ascii[i + 2]];
    var d := if ascii[i + 3] == PAD then 0 else table[ascii[i + 3]];
    triple := a * 0x4_0000 + b * 0x1000 + c * 0x40 + d;
  }

  /** The three bytes of a triple, as far as they are wanted. */
  method PutTriple(dst: array<nat>, triple: nat, j: nat, wanted: nat, ghost ascii: seq<nat>, ghost table: seq<nat>,
                   ghost n: nat, ghost g: nat) returns (j': nat)
    requires IsOctets(ascii) && |table| == 256 && 3 * g + 3 <= |ascii| / 4 * 3 && 4 * g + 4 <= |ascii|
    requires triple == DecodedTriple(ascii, table, g) && n <= dst.Length && n <= |ascii| / 4 * 3
    requires n == if wanted < |ascii| / 4 * 3 then wanted else |ascii| / 4 * 3
    requires j == (if 3 * g < n then 3 * g else n) && DecodedTo(dst[..], ascii, table, j)
    modifies dst
    ensures j' == (if 3 * g + 3 < n then 3 * g + 3 else n) && DecodedTo(dst[..], ascii, table, j')
    ensures forall k :: n <= k < dst.Length ==> dst[k] == old(dst[k])
  {
    hide *;
    j' := j;
    if j' < n {
      DecodedNext(dst[..], ascii, table, j', g, 0);
    }
    j' := PutByte(dst, j', wanted, Octet(triple, 0));
    if j' < n {
      DecodedNext(dst[..], ascii, table, j', g, 1);
    }
    j' := PutByte(dst, j', wanted, Octet(triple, 1));
    if j' < n {
      DecodedNext(dst[..], ascii, table, j', g, 2);
    }
    j' := PutByte(dst, j', wanted, Octet(triple, 2));
  }

  /** base64_decode of EncodedSize(bytes) characters, for every character string. */
  method Base64Decode(ascii: array<nat>, dst: array<nat>, bytes: nat, table: array<nat>)
    requires 1 <= bytes && EncodedSize(bytes) <= ascii.Length && EncodedSize(bytes) < 0x8000_0000
    requires IsOctets(ascii[..EncodedSize(bytes)]) && table.Length == 256
    requires dst != ascii && dst != table && EncodedSize(bytes) >= 2
    requires DecodedCount(ascii[..EncodedSize(bytes)], bytes) <= dst.Length
    modifies dst
    ensures var s := ascii[..EncodedSize(bytes)]; var n := DecodedCount(s, bytes);
      n <= |s| / 4 * 3 && DecodedTo(dst[..], s, table[..], n) && dst[n..] == old(dst[n..])
  {
    var inputLength := EncodedSize(bytes);
    assert inputLength % 4 == 0;
    hide *;
    ghost var s, t := ascii[..inputLength], table[..];
    ghost var n := DecodedCount(s, bytes);
    var pads := 0;
    if ascii[inputLength - 1] == PAD {
      pads := pads + 1;
    }
    if ascii[inputLength - 2] == PAD {
      pads := pads + 1;
    }
    var wanted := (bytes - pads) % 0x1_0000_0000;
    DecodedCountIs(s, bytes, pads);
    NothingDecoded(dst[..], s, t);
    var i, j := 0, 0;
    ghost var g := 0;
    while i < inputLength
      invariant i == 4 * g <= inputLength && s == ascii[..inputLength] && t == table[..]
      invariant j == (if 3 * g < n then 3 * g else n) && j <= inputLength / 4 * 3
      invariant DecodedTo(dst[..], s, t, j)
      invariant forall k :: n <= k < dst.Length ==> dst[k] == old(dst[k])
    {
      GroupFits(inputLength, g);
      var triple := ReadTriple(ascii, table, i, inputLength, g);
      j := PutTriple(dst, triple, j, wanted, s, t, n, g);
      i := i + 4;
      g := g + 1;
    }
  }

  // ----------------------------------------------------------- round trip

  /** Padding characters decode to the zero bits they stand for. */
  lemma ValueOfChar(s: seq<nat>, k: nat, table: seq<nat>)
    requires IsOctets(s) && Inverts(table) && k < EncodedSize(|s|)
    ensures CharAt(s, k) < 256 && Value(CharAt(s, k), table) == Sextet(Triple(s, k / 4), k % 4)
  {
    if k >= EncodedSize(|s|) - PadCount(|s|) {
      PadSextet(s, k);
    }
    hide Sextet, Triple, EncodedSize, PadCount;
  }

  lemma PadSextet(s: seq<nat>, k: nat)
    requires IsOctets(s) && EncodedSize(|s|) - PadCount(|s|) <= k < EncodedSize(|s|)
    ensures Sextet(Triple(s, k / 4), k % 4) == 0
  {
    hide IsOctets, Triple, EncodedSize, PadCount, Sextet;
    var g := k / 4;
    PadPosition(|s|, k);
    GroupBytes(s, g);
    TripleSextets(ByteOrZero(s, 3 * g), ByteOrZero(s, 3 * g + 1), ByteOrZero(s, 3 * g + 2));
    assert ByteOrZero(s, 3 * g + 2) == 0 && (k % 4 == 2 ==> ByteOrZero(s, 3 * g + 1) == 0);
  }

  lemma PadPosition(n: nat, k: nat)
    requires EncodedSize(n) - PadCount(n) <= k < EncodedSize(n)
    ensures 3 * (k / 4) + 2 >= n && (k % 4 == 3 || (k % 4 == 2 && 3 * (k / 4) + 1 >= n))
  {
  }

  lemma GroupBytes(s: seq<nat>, g: nat)
    requires IsOctets(s)
    ensures ByteOrZero(s, 3 * g) < 256 && ByteOrZero(s, 3 * g + 1) < 256 && ByteOrZero(s, 3 * g + 2) < 256
    ensures Triple(s, g)
         == ByteOrZero(s, 3 * g) * 0x1_0000 + ByteOrZero(s, 3 * g + 1) * 0x100 + ByteOrZero(s, 3 * g + 2)
  {
  }

  lemma EncodingBytes(s: seq<nat>)
    requires IsOctets(s)
    ensures IsOctets(Encoding(s)) && |Encoding(s)| == EncodedSize(|s|)
  {
    EncodingLength(s);
    hide Encoding, EncodedSize;
    forall k | 0 <= k < |Encoding(s)|
      ensures Encoding(s)[k] < 256
    {
      CharsAreEncoding(s, k);
      hide Sextet, Triple;
    }
  }

  lemma DecodedTripleOf(s: seq<nat>, table: seq<nat>, g: nat)
    requires IsOctets(s) && Inverts(table) && 4 * g + 4 <= EncodedSize(|s|)
    ensures IsOctets(Encoding(s)) && |Encoding(s)| == EncodedSize(|s|)
    ensures DecodedTriple(Encoding(s), table, g) == Triple(s, g)
  {
    hide *;
    EncodingBytes(s);
    TableSize(table);
    FourValues(s, table, 4 * g);
    TripleRange(s, g);
    SextetsTriple(Triple(s, g));
    DecodedTripleIs(Encoding(s), table, g);
    assert 4 * g / 4 == g;
  }

  lemma TripleRange(s: seq<nat>, g: nat)
    requires IsOctets(s)
    ensures Triple(s, g) < 0x100_0000
  {
    GroupBytes(s, g);
    hide Triple, ByteOrZero;
  }

  lemma DecodedTripleIs(ascii: seq<nat>, table: seq<nat>, g: nat)
    requires IsOctets(ascii) && 4 * g + 4 <= |ascii| && |table| == 256
    ensures ascii[4 * g] < 256 && ascii[4 * g + 1] < 256 && ascii[4 * g + 2] < 256 && ascii[4 * g + 3] < 256
    ensures DecodedTriple(ascii, table, g)
         == Value(ascii[4 * g], table) * 0x4_0000 + Value(ascii[4 * g + 1], table) * 0x1000
            + Value(ascii[4 * g + 2], table) * 0x40 + Value(ascii[4 * g + 3], table)
  {
    hide Value;
  }

  lemma TableSize(table: seq<nat>)
    requires Inverts(table)
    ensures |table| == 256
  {
  }

  lemma FourValues(s: seq<nat>, table: seq<nat>, k: nat)
    requires IsOctets(s) && Inverts(table) && k + 4 <= EncodedSize(|s|) && k % 4 == 0 && |table| == 256
    ensures IsOctets(Encoding(s)) && |Encoding(s)| == EncodedSize(|s|)
    ensures Value(Encoding(s)[k], table) == Sextet(Triple(s, k / 4), 0)
    ensures Value(Encoding(s)[k + 1], table) == Sextet(Triple(s, k / 4), 1)
    ensures Value(Encoding(s)[k + 2], table) == Sextet(Triple(s, k / 4), 2)
    ensures Value(Encoding(s)[k + 3], table) == Sextet(Triple(s, k / 4), 3)
  {
    EncodingBytes(s);
    hide Encoding, Sextet, Triple, CharAt, EncodedSize, Inverts, Value;
    OneValue(s, table, k, 0);
    OneValue(s, table, k, 1);
    OneValue(s, table, k, 2);
    OneValue(s, table, k, 3);
  }

  lemma OneValue(s: seq<nat>, table: seq<nat>, k: nat, t: nat)
    requires IsOctets(s) && Inverts(table) && k + 4 <= EncodedSize(|s|) && k % 4 == 0 && |table| == 256 && t < 4
    ensures IsOctets(Encoding(s)) && |Encoding(s)| == EncodedSize(|s|)
    ensures Value(Encoding(s)[k + t], table) == Sextet(Triple(s, k / 4), t)
  {
    EncodingBytes(s);
    CharsAreEncoding(s, k + t);
    ValueOfChar(s, k + t, table);
    assert (k + t) / 4 == k / 4 && (k + t) % 4 == t;
    hide Encoding, Sextet, Triple, CharAt, EncodedSize, Inverts, Value;
  }

  lemma CountRestored(s: seq<nat>)
    requires IsOctets(s) && 1 <= |s| && |s| + 2 < 0x1_0000_0000
    ensures |Encoding(s)| == EncodedSize(|s|) >= 4
    ensures DecodedCount(Encoding(s), DecodedSize(EncodedSize(|s|))) == |s|
  {
    hide *;
    var n, size := |s|, EncodedSize(|s|);
    EncodingLength(s);
    SizeAtLeast4(n);
    SizesAgree(n);
    PadChars(s);
    DecodedCountIs(Encoding(s), DecodedSize(size), PadCount(n));
  }

  lemma SizeAtLeast4(n: nat)
    requires n >= 1
    ensures EncodedSize(n) >= 4 && EncodedSize(n) / 4 * 3 == n + PadCount(n) && PadCount(n) <= 2
  {
  }

  /** The last two characters show how short the last group was. */
  lemma PadChars(s: seq<nat>)
    requires IsOctets(s) && 1 <= |s|
    ensures |Encoding(s)| == EncodedSize(|s|) >= 4
    ensures Encoding(s)[|Encoding(s)| - 1] == PAD <==> PadCount(|s|) >= 1
    ensures Encoding(s)[|Encoding(s)| - 2] == PAD <==> PadCount(|s|) == 2
    ensures PadCount(|s|) <= 2
  {
    EncodingLength(s);
    SizeAtLeast4(|s|);
    var size := EncodedSize(|s|);
    CharsAreEncoding(s, size - 1);
    CharsAreEncoding(s, size - 2);
    hide Encoding, Sextet, Triple, EncodedSize, PadCount;
  }

  /**
   For every non-empty byte string: decoding its encoding, with the size the size functions give, writes
   exactly its bytes.
   */
  lemma RoundTrip(s: seq<nat>, dst: seq<nat>, table: seq<nat>)
    requires IsOctets(s) && 1 <= |s| && |s| + 2 < 0x1_0000_0000 && Inverts(table) && |table| == 256
    requires IsOctets(Encoding(s)) && |s| <= |dst| && |s| <= |Encoding(s)| / 4 * 3
    requires DecodedTo(dst, Encoding(s), table, |s|)
    ensures |Encoding(s)| >= 4 && DecodedCount(Encoding(s), DecodedSize(EncodedSize(|s|))) == |s|
    ensures EncodedSize(DecodedSize(EncodedSize(|s|))) == |Encoding(s)|
    ensures dst[..|s|] == s
  {
    CountRestored(s);
    SizesAgree(|s|);
    hide Encoding, DecodedCount, Inverts, Triple, DecodedTriple, DecodedSize;
    forall j | 0 <= j < |s|
      ensures dst[j] == s[j]
    {
      ByteRestored(s, table, j);
      assert dst[j] == DecodedByte(Encoding(s), table, j);
    }
  }

  lemma BytesRange(n: nat)
    requires n >= 1
    ensures EncodedSize(n) >= 4 && n <= DecodedSize(EncodedSize(n)) == EncodedSize(n) / 4 * 3 <= EncodedSize(n)
  {
  }

  /** util_init, base64_encode and base64_decode in turn, with the sizes the size functions give. */
  method EncodeAndDecode(data: array<nat>, bytes: nat, table: array<nat>) returns (back: array<nat>)
    requires 1 <= bytes <= data.Length && IsOctets(data[..bytes]) && EncodedSize(bytes) < 0x8000_0000
    requires table.Length == 256 && data != table
    modifies table
    ensures fresh(back) && bytes <= back.Length == DecodedSize(EncodedSize(bytes))
    ensures back[..bytes] == data[..bytes]
  {
    hide *;
    ghost var s := data[..bytes];
    BytesRange(bytes);
    SizesAgree(bytes);
    EncodingBytes(s);
    CountRestored(s);
    UtilInit(table);
    var ascii := new nat[EncodedSize(bytes)];
    Base64Encode(data, ascii, bytes);
    assert ascii[..EncodedSize(bytes)] == Encoding(s);
    var size := DecodedSize(EncodedSize(bytes));
    back := new nat[size];
    Base64Decode(ascii, back, size, table);
    RoundTrip(s, back[..], table[..]);
  }

  lemma ByteRestored(s: seq<nat>, table: seq<nat>, j: nat)
    requires IsOctets(s) && Inverts(table) && |table| == 256 && j < |s|
    ensures IsOctets(Encoding(s)) && 4 * (j / 3) + 4 <= |Encoding(s)|
    ensures DecodedByte(Encoding(s), table, j) == s[j]
  {
    hide *;
    var g, t := j / 3, j % 3;
    assert j == 3 * g + t;
    EncodingBytes(s);
    GroupOfByte(|s|, j);
    DecodedTripleOf(s, table, g);
    OctetOfTriple(s, g, t);
    DecodedByteIs(Encoding(s), table, j);
  }

  lemma GroupOfByte(n: nat, j: nat)
    requires j < n
    ensures 4 * (j / 3) + 4 <= EncodedSize(n)
  {
  }

  lemma OctetOfTriple(s: seq<nat>, g: nat, t: nat)
    requires IsOctets(s) && t < 3 && 3 * g + t < |s|
    ensures Octet(Triple(s, g), t) == s[3 * g + t]
  {
    GroupBytes(s, g);
    TripleOctets(ByteOrZero(s, 3 * g), ByteOrZero(s, 3 * g + 1), ByteOrZero(s, 3 * g + 2));
    hide Octet, Triple;
  }

  lemma DecodedByteIs(ascii: seq<nat>, table: seq<nat>, j: nat)
    requires IsOctets(ascii) && 4 * (j / 3) + 4 <= |ascii| && |table| == 256
    ensures DecodedByte(ascii, table, j) == Octet(DecodedTriple(ascii, table, j / 3), j % 3)
  {
    hide Octet, DecodedTriple;
  }
}
