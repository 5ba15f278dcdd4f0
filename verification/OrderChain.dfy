/**
 n * G is the point at infinity: the generator of secp256r1 multiplied by the group order, in affine steps
 whose numbers are written out. Each step is checked by three equations between integers.
 */
module OrderChain {
  import opened Arith
  import opened P256
  import opened Field
  import opened Curve
  import opened CoZ
  import opened Ladder

  // ---------------------------------------------------------------- one step

  /** l is the slope of the tangent at (x, y), which leads to (x', y'): three congruences with their quotients. */
  predicate Tangents(x: nat, y: nat, l: nat, x': nat, y': nat, q: int, r: int, s: int, p: nat)
  {
    && 0 < y < p && x' < p && y' < p
    && l * (2 * y) == 3 * x * x - 3 + p * q && l * l - x - x == x' + p * r
    && l * (x - x') - y == y' + p * s
  }

  /** l is the slope of the chord through (x1, y1) and (x2, y2), which leads to (x', y'). */
  predicate Chords(x1: nat, y1: nat, x2: nat, y2: nat, l: nat, x': nat, y': nat, q: int, r: int, s: int, p: nat)
  {
    && x1 < p && x2 < p && x1 != x2 && x' < p && y' < p
    && l * (x2 - x1) == y2 - y1 + p * q && l * l - x1 - x2 == x' + p * r
    && l * (x1 - x') - y1 == y' + p * s
  }

  lemma TangentsAre(x: nat, y: nat, l: nat, x': nat, y': nat, q: int, r: int, s: int, p: nat)
    requires Tangents(x, y, l, x', y', q, r, s, p)
    ensures 0 < y < p && (l * (2 * y)) % p == (3 * x * x - 3) % p
    ensures x' == (l * l - x - x) % p && y' == (l * (x - x') - y) % p
  {
    Residue(l * (2 * y), 3 * x * x - 3, q, p);
    Residue(l * l - x - x, x', r, p);
    Residue(l * (x - x') - y, y', s, p);
  }

  lemma ChordsAre(x1: nat, y1: nat, x2: nat, y2: nat, l: nat, x': nat, y': nat, q: int, r: int, s: int, p: nat)
    requires Chords(x1, y1, x2, y2, l, x', y', q, r, s, p)
    ensures x1 < p && x2 < p && x1 != x2 && (l * (x2 - x1)) % p == (y2 - y1) % p
    ensures x' == (l * l - x1 - x2) % p && y' == (l * (x1 - x') - y1) % p
  {
    Residue(l * (x2 - x1), y2 - y1, q, p);
    Residue(l * l - x1 - x2, x', r, p);
    Residue(l * (x1 - x') - y1, y', s, p);
  }

  lemma Residue(a: int, b: int, q: int, p: nat)
    requires p > 0 && a == b + p * q
    ensures a % p == b % p && (0 <= b < p ==> a % p == b)
  {
    ModAddMultiple(b, q, p);
    if 0 <= b < p {
      ModSmall(b, p);
    }
  }

  /** Any slope with the tangent's congruence gives the doubled point. */
  lemma TangentSum(e: Elliptic, x: nat, y: nat, l: nat, x': nat, y': nat, q: int, r: int, s: int)
    requires IsField(e) && Tangents(x, y, l, x', y', q, r, s, e.p)
    ensures Add(e, Affine(x, y), Affine(x, y)) == Affine(x', y')
  {
    TangentsAre(x, y, l, x', y', q, r, s, e.p);
    hide Tangents;
    var P := Affine(x, y);
    var k := TangentSlope(e, P);
    SumIsTangent(e, P);
    TangentSlopeLaw(e, P);
    assert k * (2 * y) == (2 * y) * k && l * (2 * y) == (2 * y) * l;
    hide *;
    FieldFacts(e);
    Cancel(2 * y, k, l, e.p);
    ThirdPointCong(e, k, l, x, y, x);
    ThirdPointIs(e, l, x, y, x);
    ReducedX(l, l * l - x - x, x, y, x', e.p);
  }

  /** Any slope with the chord's congruence gives the sum. */
  lemma ChordSum(e: Elliptic, x1: nat, y1: nat, x2: nat, y2: nat, l: nat, x': nat, y': nat, q: int, r: int, s: int)
    requires IsField(e) && Chords(x1, y1, x2, y2, l, x', y', q, r, s, e.p)
    ensures Add(e, Affine(x1, y1), Affine(x2, y2)) == Affine(x', y')
  {
    ChordsAre(x1, y1, x2, y2, l, x', y', q, r, s, e.p);
    hide Chords;
    var P, Q := Affine(x1, y1), Affine(x2, y2);
    var k := ChordSlope(e, P, Q);
    SumIsChord(e, P, Q);
    assert k * (x2 - x1) == (x2 - x1) * k && l * (x2 - x1) == (x2 - x1) * l;
    hide *;
    FieldFacts(e);
    CancelRun(x2 - x1, k, l, e.p);
    ThirdPointCong(e, k, l, x1, y1, x2);
    ThirdPointIs(e, l, x1, y1, x2);
    ReducedX(l, l * l - x1 - x2, x1, y1, x', e.p);
  }

  /** Cancelling a difference, which may be negative. */
  lemma CancelRun(a: int, b: int, c: int, p: nat)
    requires IsPrime(p) && a % p != 0 && (a * b) % p == (a * c) % p
    ensures b % p == c % p
  {
    ModIdem(a, p);
    ModMulCong(a % p, a, b, b, p);
    ModMulCong(a % p, a, c, c, p);
    Cancel(a % p, b, c, p);
  }

  /** The new x may be reduced before it enters the formula of the new y. */
  lemma ReducedX(l: int, v: int, x: int, y: int, x': int, p: nat)
    requires p > 0 && x' == v % p
    ensures (l * (x - x') - y) % p == (l * (x - v) - y) % p
  {
    ModIdem(v, p);
    ModAddCong(x, x, x', v, p);
    ModMulCong(l, l, x - x', x - v, p);
    ModAddCong(l * (x - x'), l * (x - v), y, y, p);
  }

  // --------------------------------------------------------- chains of steps

  /** R relates doubled scalars to doubled points and sums of scalars to sums of points, by checked steps. */
  ghost predicate Closed(R: (nat, Point) -> bool, p: nat)
  {
    && (forall m: nat, x: nat, y: nat, l: nat, x': nat, y': nat, q, r, s ::
          R(m, Affine(x, y)) && Tangents(x, y, l, x', y', q, r, s, p) ==> R(2 * m, Affine(x', y')))
    && (forall m: nat, k: nat, x1: nat, y1: nat, x2: nat, y2: nat, l: nat, x': nat, y': nat, q, r, s ::
          R(m, Affine(x1, y1)) && R(k, Affine(x2, y2)) && Chords(x1, y1, x2, y2, l, x', y', q, r, s, p)
          ==> R(m + k, Affine(x', y')))
  }

  lemma Twice(R: (nat, Point) -> bool, p: nat, m: nat,
              x: nat, y: nat, l: nat, x': nat, y': nat, q: int, r: int, s: int)
    requires Closed(R, p) && R(m, Affine(x, y)) && Tangents(x, y, l, x', y', q, r, s, p)
    ensures R(2 * m, Affine(x', y'))
  {
    hide Tangents, Chords;
  }

  lemma Plus(R: (nat, Point) -> bool, p: nat, m: nat, k: nat, x1: nat, y1: nat, x2: nat, y2: nat,
             l: nat, x': nat, y': nat, q: int, r: int, s: int)
    requires Closed(R, p) && R(m, Affine(x1, y1)) && R(k, Affine(x2, y2))
    requires Chords(x1, y1, x2, y2, l, x', y', q, r, s, p)
    ensures R(m + k, Affine(x', y'))
  {
    hide Tangents, Chords;
  }

  /** Four doublings. */
  lemma Four(R: (nat, Point) -> bool, p: nat, m: nat, x: nat, y: nat,
             l1: nat, x1: nat, y1: nat, q1: int, r1: int, s1: int,
             l2: nat, x2: nat, y2: nat, q2: int, r2: int, s2: int,
             l3: nat, x3: nat, y3: nat, q3: int, r3: int, s3: int,
             l4: nat, x4: nat, y4: nat, q4: int, r4: int, s4: int)
    requires Closed(R, p) && R(m, Affine(x, y))
    requires Tangents(x, y, l1, x1, y1, q1, r1, s1, p) && Tangents(x1, y1, l2, x2, y2, q2, r2, s2, p)
    requires Tangents(x2, y2, l3, x3, y3, q3, r3, s3, p) && Tangents(x3, y3, l4, x4, y4, q4, r4, s4, p)
    ensures R(16 * m, Affine(x4, y4))
  {
    hide *;
    Twice(R, p, m, x, y, l1, x1, y1, q1, r1, s1);
    Twice(R, p, 2 * m, x1, y1, l2, x2, y2, q2, r2, s2);
    Twice(R, p, 2 * (2 * m), x2, y2, l3, x3, y3, q3, r3, s3);
    Twice(R, p, 2 * (2 * (2 * m)), x3, y3, l4, x4, y4, q4, r4, s4);
  }

  /** The relation m * G = P, for a point G of the curve. */
  ghost function MultiplesOf(e: Elliptic, G: Point): (R: (nat, Point) -> bool)
    requires e.p > 3
  {
    (m: nat, P: Point) => Times(e, m, G) == P
  }

  lemma MultiplesAre(e: Elliptic, G: Point, m: nat, P: Point)
    requires e.p > 3
    ensures MultiplesOf(e, G)(m, P) <==> Times(e, m, G) == P
  {
    hide Times;
  }

  lemma DoubledMultiple(e: Elliptic, G: Point, m: nat,
                        x: nat, y: nat, l: nat, x': nat, y': nat, q: int, r: int, s: int)
    requires IsGroup(e) && OnCurve(e, G) && Tangents(x, y, l, x', y', q, r, s, e.p)
    requires MultiplesOf(e, G)(m, Affine(x, y))
    ensures MultiplesOf(e, G)(2 * m, Affine(x', y'))
  {
    hide *;
    GroupIsField(e);
    MultiplesAre(e, G, m, Affine(x, y));
    MultiplesAre(e, G, 2 * m, Affine(x', y'));
    TangentSum(e, x, y, l, x', y', q, r, s);
    TimesAdd(e, m, m, G);
  }

  lemma SumOfMultiples(e: Elliptic, G: Point, m: nat, k: nat, x1: nat, y1: nat, x2: nat, y2: nat,
                       l: nat, x': nat, y': nat, q: int, r: int, s: int)
    requires IsGroup(e) && OnCurve(e, G) && Chords(x1, y1, x2, y2, l, x', y', q, r, s, e.p)
    requires MultiplesOf(e, G)(m, Affine(x1, y1)) && MultiplesOf(e, G)(k, Affine(x2, y2))
    ensures MultiplesOf(e, G)(m + k, Affine(x', y'))
  {
    hide *;
    GroupIsField(e);
    MultiplesAre(e, G, m, Affine(x1, y1));
    MultiplesAre(e, G, k, Affine(x2, y2));
    MultiplesAre(e, G, m + k, Affine(x', y'));
    ChordSum(e, x1, y1, x2, y2, l, x', y', q, r, s);
    TimesAdd(e, m, k, G);
  }

  /** The multiples of a point are closed under the steps. */
  lemma MultiplesAreClosed(e: Elliptic, G: Point)
    requires IsGroup(e) && OnCurve(e, G)
    ensures Closed(MultiplesOf(e, G), e.p) && MultiplesOf(e, G)(1, G)
  {
    GroupIsField(e);
    var R, p := MultiplesOf(e, G), e.p;
    MultiplesAre(e, G, 1, G);
    hide MultiplesOf, Tangents, Chords, IsGroup, OnCurve, Times;
    TimesOne(e, G);
    forall m: nat, x: nat, y: nat, l: nat, x': nat, y': nat, q, r, s
      | R(m, Affine(x, y)) && Tangents(x, y, l, x', y', q, r, s, p)
      ensures R(2 * m, Affine(x', y'))
    {
      DoubledMultiple(e, G, m, x, y, l, x', y', q, r, s);
    }
    forall m: nat, k: nat, x1: nat, y1: nat, x2: nat, y2: nat, l: nat, x': nat, y': nat, q, r, s
      | R(m, Affine(x1, y1)) && R(k, Affine(x2, y2)) && Chords(x1, y1, x2, y2, l, x', y', q, r, s, p)
      ensures R(m + k, Affine(x', y'))
    {
      SumOfMultiples(e, G, m, k, x1, y1, x2, y2, l, x', y', q, r, s);
    }
  }

  // -------------------------------------------------------------- the numbers

  // T_k is k * G, U_k is (2^k - 1) * G and C_k the point after step k. The chain makes 2 * G and the odd multiples
  // up to 15 * G, then the scalars 2^8 - 1, 2^16 - 1 and 2^32 - 1, from these the upper half of n, and then its
  // lower half in windows of up to four bits, less 1 at the end. A lemma walks at most sixteen steps, for any
  // relation closed under them; a call lists the points it starts from, and for each step its slope, its point
  // and its three quotients.

  lemma GeneratorNumbers()
    ensures Generator() == Affine(0x6b17d1f2e12c4247f8bce6e563a440f277037d812deb33a0f4a13945d898c296,
                                  0x4fe342e2fe1a7f9b8ee7eb4a7c0f9e162bce33576b315ececbb6406837bf51f5)
  {
  }

  const T_2 := Affine(0x7cf27b188d034f7e8a52380304b51ac3c08969e277f21b35a60b48fc47669978,
                     0x07775510db8ed040293d9ac69f7430dbba7dade63ce982299e04b79d227873d1)
  const T_3 := Affine(0x5ecbe4d1a6330a44c8f7ef951d4bf165e6c6b721efada985fb41661bc6e7fd6c,
                     0x8734640c4998ff7e374b06ce1a64a2ecd82ab036384fb83d9a79b127a27d5032)
  const T_5 := Affine(0x51590b7a515140d2d784c85608668fdfef8c82fd1f5be52421554a0dc3d033ed,
                     0xe0c17da8904a727d8ae1bf36bf8a79260d012f00d4d80888d1d0bb44fda16da4)
  const T_7 := Affine(0x8e533b6fa0bf7b4625bb30667c01fb607ef9f8b8a80fef5b300628703187b2a3,
                     0x73eb1dbde03318366d069f83a6f5900053c73633cb041b21c55e1a86c1f400b4)
  const T_9 := Affine(0xea68d7b6fedf0b71878938d51d71f8729e0acb8c2c6df8b3d79e8a4b90949ee0,
                     0x2a2744c972c9fce787014a964a8ea0c84d714feaa4de823fe85a224a4dd048fa)
  const T_11 := Affine(0x3ed113b7883b4c590638379db0c21cda16742ed0255048bf433391d374bc21d1,
                      0x9099209accc4c8a224c843afa4f4c68a090d04da5e9889dae2f8eefce82a3740)
  const T_13 := Affine(0x177c837ae0ac495a61805df2d85ee2fc792e284b65ead58a98e15d9d46072c01,
                      0x63bb58cd4ebea558a24091adb40f4e7226ee14c3a1fb4df39c43bbe2efc7bfd8)
  const T_15 := Affine(0xf0454dc6971abae7adfb378999888265ae03af92de3a0ef163668c63e59b9d5f,
                      0xb5b93ee3592e2d1f4e6594e51f9643e62a3b21ce75b5fa3f47e59cde0d034f36)
  const U_8 := Affine(0xf44b39759a2e6db723a6f90249972dfd08e95380f1fca470eacd1d03e5edf214,
                     0xbefafccf223ca065f0a0db4eea93ff06a2116fca81f7a4a9436a8d917a02dede)
  const U_16 := Affine(0xf249104d0e6f8f29e6016277780cda84dc84b83bc3d899dfb736ca0831fbe8cf,
                      0xb57e12fcdb031f59cab81b1c6b1e1c07e4512e52ce832f1a0cedefff8b4340e9)
  const C_39 := Affine(0xc5a5f7d533b9d61b75161351e133b82808ceae627575936f0d2a287f7c6d42d6,
                      0x44c5bb8e917b75af5ab3d84f8d0473829adb8d6d3fb88e3074af6eb2c6316f8f)
  const U_32 := Affine(0x618466bcb739585c20c44b7fc962d8671d94867054859361a18293ffe4a720e1,
                      0x34587f80988db9bd798cb5da178ec512db9aec2fe35f85e0678b4e91f7c873b4)
  const C_56 := Affine(0xf248d9b1b84ac2366fee7d47fce9f31c4533a9698bee5ee13fae5147b6139223,
                      0x73a4fbb68dcaeace798186ee0008cf52f074446c745a91109967d36b922c3028)
  const C_72 := Affine(0xb9cdba7bfd6dadb74e360dbd5aa41547daa0afb084de8807cd635be8e4398ffc,
                      0x06422e5623a2035b7f4c596afa4bde2261698be60c7b910bdeee0554b1882c80)
  const C_88 := Affine(0x2f0cd80c1e9916f5563d7e896b34f023c7be4a3451a8fa806506e52c0627ba93,
                      0x4dc9e9263d7e65284d56ad81e3386501361441477fe4f98c6ade87b7ddf5d271)
  const C_104 := Affine(0x75836b4f978cdef208213952775360c17794016e2431ecef664ef1fd9cede83b,
                       0x4d2e4aef60803a5033a4575099c1581a4d93ae6ba5a41b52a1c72d568dbefbd6)
  const C_120 := Affine(0x94364f224fde45ef367e6dced6f1442ccfa6d13d5a402be2142445cfbaf98119,
                       0xec4743c9c9a0499ccc2c487b01e0b1176cdacd49473106b7823c82d6d1d9b9b9)
  const C_136 := Affine(0x498a396997234aa91901fb2b8cc4a8f8b09cf9e49bd02d60da263bca8bd3b2e1,
                       0x00097d32c948220ab409c131c9c7b90bae24fa4fb8c6dcdc8e350674004d18c9)
  const C_152 := Affine(0xf4cb17fb0f71f3ba8968eb52b42ab5dab57d98871e1ff8f126eb04c40384d64f,
                       0x8fd1eab70c0e9481787f2b7de03748fdb590f56744727679dacfb803391fa053)
  const C_168 := Affine(0xc43bd57e7b88b9437c3a76f73e2b93ffab8bd2227bc323faf1f9831b085bce86,
                       0xf82c8b9e9dcbe935fdee529da7606688e04e78c0c070af81be3c7219e65ceb0c)
  const C_184 := Affine(0x99a88bba591b167f364e78fc101b386fd435e67c268c312231949065fbb5ae87,
                       0xb62c302f768c6006f5b7e5f6f591996d7ee34d94b0d1514fb19402dbb8816e99)
  const C_200 := Affine(0x6c91ca6734a570c2491e92ce87836823dae578f99579baf6347b651c79b06c73,
                       0x413ad6b4ece5409ab15f0c9304dcd9153c5ba397655de0707c7111f2723cac56)
  const C_216 := Affine(0xfb3956628924d1dfc7d8c0bb3304c08549592831c3c29b66bf169c3b054cab1c,
                       0x790714368426357f909a98d2728b14cf4db0f15d055b566eaac6d4ba4b2c99fa)
  const C_232 := Affine(0x51a4486aaa58693d09405b5da85795c94e3683415f79f8d5cb6aaaca0d12a53d,
                       0x19dd46dfd341597ddab4efec57de93c3b43a28aeca657b5e98bbe3e4e787079b)
  const C_248 := Affine(0xbeb48221be1c41c5322bebf2c6928f2a950d160aa591eb3f325e65b92e5dc213,
                       0x5f93f59d4eba656a9b1211971e3cb0305fafaddf25571b636628dc4af4028f7d)
  const C_264 := Affine(0xf49a46909cc3c3ae5f0e0e4175f697b4a1329f91ef877055bd355de11d80cd19,
                       0x8dbbca34791cf88ce183167846fd2483d0e1a00d08a2297ec22a39c9f20f6e1a)
  const C_280 := Affine(0x1ee8e5e21cfc342869edbddf827cf330449d82cd7e2a4f6de9c6ff038ac0f977,
                       0x4ac99efb3e7c8a80cd4d759cd43158fff0561d5d24163a5e93e8cea86dfd1e3d)
  const C_293 := Affine(0x6b17d1f2e12c4247f8bce6e563a440f277037d812deb33a0f4a13945d898c296,
                       0xb01cbd1c01e58065711814b583f061e9d431cca994cea1313449bf97c840ae0a)

  lemma Chain0(R: (nat, Point) -> bool, m: nat)
    requires Closed(R, PrimeP()) && R(m, Generator())
    ensures R(2 * m, T_2)
  {
    hide Closed;
    GeneratorNumbers();
    Twice(R, PrimeP(), m,
          0x6b17d1f2e12c4247f8bce6e563a440f277037d812deb33a0f4a13945d898c296,
          0x4fe342e2fe1a7f9b8ee7eb4a7c0f9e162bce33576b315ececbb6406837bf51f5,
          0xa249bcb3191802d3cb56fc75a8731f848e7b2caf080f3477a4e4d904a671af9d,
          0x7cf27b188d034f7e8a52380304b51ac3c08969e277f21b35a60b48fc47669978,
          0x07775510db8ed040293d9ac69f7430dbba7dade63ce982299e04b79d227873d1,
          -0x211d1d206a8228ca3f068bcb77b6c66e965b291a72799fab76713dc1b6ea6cd9,
          0x66e168103bdfa57cdd53063189a61e37915827bb44d670bd3c287263db86185b,
          -0x0b51838d2fa990fc8a24a572b59edda8bd8fcf1612aa22bdac765f9f95e4f3a0);
  }

  lemma Chain1(R: (nat, Point) -> bool, m: nat, k: nat)
    requires Closed(R, PrimeP()) && R(m, T_2) && R(k, Generator())
    ensures R(m + k, T_3)
  {
    hide Closed;
    GeneratorNumbers();
    Plus(R, PrimeP(), m, k,
         0x7cf27b188d034f7e8a52380304b51ac3c08969e277f21b35a60b48fc47669978,
         0x07775510db8ed040293d9ac69f7430dbba7dade63ce982299e04b79d227873d1,
         0x6b17d1f2e12c4247f8bce6e563a440f277037d812deb33a0f4a13945d898c296,
         0x4fe342e2fe1a7f9b8ee7eb4a7c0f9e162bce33576b315ececbb6406837bf51f5,
         0x28cdb0fe6681d140c59fb73f85f16459ca4cee083742bada762de4ca226a8086,
         0x5ecbe4d1a6330a44c8f7ef951d4bf165e6c6b721efada985fb41661bc6e7fd6c,
         0x8734640c4998ff7e374b06ce1a64a2ecd82ab036384fb83d9a79b127a27d5032,
         -0x02d882df6b409ed6234c5e881e9c20fb2dc0692fcfae9a7e7d26f83701f5a790,
         0x0680ec94785873a3e3b5f2f6b1a9b192c85a45edc90a674fd52fee739f691356,
         0x04ce4139ed5223d1ab8377536bcf1f41da8c31a05acad758025d9063ffb215bb);
  }

  lemma Chain2(R: (nat, Point) -> bool, m: nat, k: nat)
    requires Closed(R, PrimeP()) && R(m, T_3) && R(k, T_2)
    ensures R(m + k, T_5)
  {
    hide Closed;
    Plus(R, PrimeP(), m, k,
         0x5ecbe4d1a6330a44c8f7ef951d4bf165e6c6b721efada985fb41661bc6e7fd6c,
         0x8734640c4998ff7e374b06ce1a64a2ecd82ab036384fb83d9a79b127a27d5032,
         0x7cf27b188d034f7e8a52380304b51ac3c08969e277f21b35a60b48fc47669978,
         0x07775510db8ed040293d9ac69f7430dbba7dade63ce982299e04b79d227873d1,
         0x63fed8962c05ae08af71e0370a29504a31d75d0224fb0135dedbf2b49db4ec5a,
         0x51590b7a515140d2d784c85608668fdfef8c82fd1f5be52421554a0dc3d033ed,
         0xe0c17da8904a727d8ae1bf36bf8a79260d012f00d4d80888d1d0bb44fda16da4,
         0x0bc6efe8cff9aab220c8c2963f563344fcb7b25cdbfc2930b7f53dea872d3767,
         0x270f1936ce589b77ec2049d59fa13c67f2fa08969f17818b123808d23558bb2d,
         0x0540cd613ab768d628fafbe08e2d101bc9ab18cd9d7c051aa8d3260d0bb4d330);
  }

  lemma Chain3(R: (nat, Point) -> bool, m: nat, k: nat)
    requires Closed(R, PrimeP()) && R(m, T_5) && R(k, T_2)
    ensures R(m + k, T_7)
  {
    hide Closed;
    Plus(R, PrimeP(), m, k,
         0x51590b7a515140d2d784c85608668fdfef8c82fd1f5be52421554a0dc3d033ed,
         0xe0c17da8904a727d8ae1bf36bf8a79260d012f00d4d80888d1d0bb44fda16da4,
         0x7cf27b188d034f7e8a52380304b51ac3c08969e277f21b35a60b48fc47669978,
         0x07775510db8ed040293d9ac69f7430dbba7dade63ce982299e04b79d227873d1,
         0x18c1a34f6673f28e46938ebf9b6006dfa555d9d25d6b2f629017ff18d0bdd6d4,
         0x8e533b6fa0bf7b4625bb30667c01fb607ef9f8b8a80fef5b300628703187b2a3,
         0x73eb1dbde03318366d069f83a6f5900053c73633cb041b21c55e1a86c1f400b4,
         0x04375cf437f9231d9dc306505366f63924cbe7549bf4e9694ca42a418bc9bd11,
         0x0264e1168b814e7cfc4ffe2443955cae0a8190975c6e1757dd8711dad36f6078,
         -0x05e59403636e17249dcbb0067dde1a78dea4154fb8aff03e69dd767d942b7ef0);
  }

  lemma Chain4(R: (nat, Point) -> bool, m: nat, k: nat)
    requires Closed(R, PrimeP()) && R(m, T_7) && R(k, T_2)
    ensures R(m + k, T_9)
  {
    hide Closed;
    Plus(R, PrimeP(), m, k,
         0x8e533b6fa0bf7b4625bb30667c01fb607ef9f8b8a80fef5b300628703187b2a3,
         0x73eb1dbde03318366d069f83a6f5900053c73633cb041b21c55e1a86c1f400b4,
         0x7cf27b188d034f7e8a52380304b51ac3c08969e277f21b35a60b48fc47669978,
         0x07775510db8ed040293d9ac69f7430dbba7dade63ce982299e04b79d227873d1,
         0xf99e2b967d8e0afc87caadb0694609415bcaba785f9c110a24a12fadca6231b6,
         0xea68d7b6fedf0b71878938d51d71f8729e0acb8c2c6df8b3d79e8a4b90949ee0,
         0x2a2744c972c9fce787014a964a8ea0c84d714feaa4de823fe85a224a4dd048fa,
         -0x10f1d7c0f06742235754f4a1b6e3058a62a1b9ae087eca29dd13b11a45ac6d51,
         0xf365128588d245de7d06d2808bd8d15df060c731e5f48143bfccdb9eb883bd97,
         -0x59c9ea05fb75e89a790e109042d75908fab3bb7522a71888b0c4c674527a15f4);
  }

  lemma Chain5(R: (nat, Point) -> bool, m: nat, k: nat)
    requires Closed(R, PrimeP()) && R(m, T_9) && R(k, T_2)
    ensures R(m + k, T_11)
  {
    hide Closed;
    Plus(R, PrimeP(), m, k,
         0xea68d7b6fedf0b71878938d51d71f8729e0acb8c2c6df8b3d79e8a4b90949ee0,
         0x2a2744c972c9fce787014a964a8ea0c84d714feaa4de823fe85a224a4dd048fa,
         0x7cf27b188d034f7e8a52380304b51ac3c08969e277f21b35a60b48fc47669978,
         0x07775510db8ed040293d9ac69f7430dbba7dade63ce982299e04b79d227873d1,
         0x16dd88585b31ab7ff112ecd9f4f7021e8f490327404d0833e208ccc3b94e18ef,
         0x3ed113b7883b4c590638379db0c21cda16742ed0255048bf433391d374bc21d1,
         0x9099209accc4c8a224c843afa4f4c68a090d04da5e9889dae2f8eefce82a3740,
         -0x09c6e570453a65250ed3b89f684c3f7b353e34ead45db1ec9c1476a5bb2f0911,
         0x020ad323e2e2cfc39207a9abfd7c94802cb8fb9a900b7f8eeb148924aaa5ab08,
         0x0f538840107a5a8c4f1879a65802ff0afcf21dda751cf9ddd36ab1c5f9925739);
  }

  lemma Chain6(R: (nat, Point) -> bool, m: nat, k: nat)
    requires Closed(R, PrimeP()) && R(m, T_11) && R(k, T_2)
    ensures R(m + k, T_13)
  {
    hide Closed;
    Plus(R, PrimeP(), m, k,
         0x3ed113b7883b4c590638379db0c21cda16742ed0255048bf433391d374bc21d1,
         0x9099209accc4c8a224c843afa4f4c68a090d04da5e9889dae2f8eefce82a3740,
         0x7cf27b188d034f7e8a52380304b51ac3c08969e277f21b35a60b48fc47669978,
         0x07775510db8ed040293d9ac69f7430dbba7dade63ce982299e04b79d227873d1,
         0xf26e7352f2ca442ca443dc72bb30806740769a5076e020a6932f7e4ecf8e5cf1,
         0x177c837ae0ac495a61805df2d85ee2fc792e284b65ead58a98e15d9d46072c01,
         0x63bb58cd4ebea558a24091adb40f4e7226ee14c3a1fb4df39c43bbe2efc7bfd8,
         0x3ad66211801bdfd675e3f2e3917ac8b3bd3b52b683cb1e2999ab574c3d31945a,
         0xe59501b107d7b1694846f7b4dfa36b586135f5ff4bf10f5d551cd018070fcc69,
         0x253ee86730e28eee6f427adc659c23d8890b8526f4280f74f9f48a914ddfce48);
  }

  lemma Chain7(R: (nat, Point) -> bool, m: nat, k: nat)
    requires Closed(R, PrimeP()) && R(m, T_13) && R(k, T_2)
    ensures R(m + k, T_15)
  {
    hide Closed;
    Plus(R, PrimeP(), m, k,
         0x177c837ae0ac495a61805df2d85ee2fc792e284b65ead58a98e15d9d46072c01,
         0x63bb58cd4ebea558a24091adb40f4e7226ee14c3a1fb4df39c43bbe2efc7bfd8,
         0x7cf27b188d034f7e8a52380304b51ac3c08969e277f21b35a60b48fc47669978,
         0x07775510db8ed040293d9ac69f7430dbba7dade63ce982299e04b79d227873d1,
         0x5d8068eeb9acd3d7640cc5e58c57a5869561fafb50e6d2a788471eb709ee40cd,
         0xf0454dc6971abae7adfb378999888265ae03af92de3a0ef163668c63e59b9d5f,
         0xb5b93ee3592e2d1f4e6594e51f9643e62a3b21ce75b5fa3f47e59cde0d034f36,
         0x250ebf86c55b8a0750e792e854c6052448b8bfeac89d736014ebecac4a464bae,
         0x22268ca6aecaa0df12dd8d6a217716a27b3f4656ccce1006d669e39c7b763eaf,
         -0x4f2daebeb0654e347b416597f78242e8c20f74afcfff31fe51c1e81c699aa8ac);
  }

  lemma Chain8(R: (nat, Point) -> bool, m: nat, k: nat)
    requires Closed(R, PrimeP()) && R(m, T_15) && R(k, T_15)
    ensures R(16 * m + k, U_8)
  {
    hide Closed;
    Four(R, PrimeP(), m,
         0xf0454dc6971abae7adfb378999888265ae03af92de3a0ef163668c63e59b9d5f,
         0xb5b93ee3592e2d1f4e6594e51f9643e62a3b21ce75b5fa3f47e59cde0d034f36,
         0xee94ed8ec4ec9cf7d5783b311431460ded97acc17a52f66463d4c9bb3700a939,
         0x409f8da21aea236a5f5a1904d0310c1c6192a67d0da08936319869a8ad0838a3,
         0x70dcf7b1cf008e570e26e72bd3bd40f73e99a0ec162a6793e163d2c72a1e8f5a,
         -0x151ce2d645198d37e7260218d073c2c67dbf2b5a73f0efe2a533ec823a6b7964c,
         0xde594059de068e0877c3de0103137d71851fdfcc463dc54e2b797e738a6324b0,
         0xa3b247740c2edb33786c93679e073ebbebb7f6b38b59842b96dc3fa3ecd054b4,
         0x954e1702bb6eacff2c16dfddcdd735d0932c9a47d74139dc2bcc33fa893fd030,
         0x05dae8c2c5a5afba7e53b9efcac1d0b8224559146918d320879bb82d96ef4963,
         0xbb07a44d03c08119e2f782d0d70304cef299e802d1d3bf625690236051d34324,
         0x52b5947f79b52e41994ced82bfde091661b151becf248619180082dd57732598,
         0x5713fe9b8cfe892304c7778ecbbf6cf747bd16ebcfa2bd89372171037011b1a9,
         0x22466128a6539a65a08f2b6863bb2f113031795fe66dd9f5893d8072f420f67e,
         0xfcddb146265238f1a5c316525b94355a9bdadf49dd30f861bebb35d3b372c4e8,
         0xe1b11b350da02131f7f545859060d2bb386f232ffe4215f7e822f66cb672a1d8,
         0xfc8ba02c6b27fc2f88454df46adbeecf2b8808616f111687b63aa9ec681f679c,
         0x1711420d73d9647235c6f9c0595f3de441cdec3d9212eac1f4d30b2246de20398,
         0xf9c534fea3175346665433bd21f7974be21ba57a2201271619e80d877e3d225e,
         -0xd92539ce3b031ab645fcd6c4c46e1cb6fc545b39f7e167c473ce7497f4319738,
         0x03da1c91591f903163cef5a2cb9119bb8842a308bca34afaf06df38cd194692a,
         0x99299baa8b91bcf5076cbf03f2482b08576b2b057cd50e962767456e87e030ef,
         0x5cc2e3d3333f8e18bf338101a6ceaa7957c12c499f4008444d8e6b7dd8d9aa9a,
         -0x24d50c924d2b87ca20bf06dd83643b8d2528046bb3608b100e46235fd7197c473,
         0x000ed68012e17ba7cb9a9752cd82c11271f10ef8649e2b98045cc6979d01f9bb,
         0x011761f93c82bdae5a305693a751f9755e90f42800005bbe95f565590ceefafc);
    Plus(R, PrimeP(), 16 * m, k,
         0x99299baa8b91bcf5076cbf03f2482b08576b2b057cd50e962767456e87e030ef,
         0x5cc2e3d3333f8e18bf338101a6ceaa7957c12c499f4008444d8e6b7dd8d9aa9a,
         0xf0454dc6971abae7adfb378999888265ae03af92de3a0ef163668c63e59b9d5f,
         0xb5b93ee3592e2d1f4e6594e51f9643e62a3b21ce75b5fa3f47e59cde0d034f36,
         0x59166c418e543be3a56be00316f9d268c759b59a178db9bcba696982a62dad6c,
         0xf44b39759a2e6db723a6f90249972dfd08e95380f1fca470eacd1d03e5edf214,
         0xbefafccf223ca065f0a0db4eea93ff06a2116fca81f7a4a9436a8d917a02dede,
         0x1e5042232a55f471cb311d435fa8cc8fea9018f5a880331b41316e625120355c,
         0x1f00993c7d03023b9a97e4a0b0cbda93803102b53233d2e0987cf017d5f69ad2,
         -0x1fb6ab48cc03c2cc5af20640c759bc53dff9fbf8d6dbfe77ebc06deac24ef9ec);
  }

  lemma Chain9(R: (nat, Point) -> bool, m: nat, k: nat)
    requires Closed(R, PrimeP()) && R(m, U_8) && R(k, U_8)
    ensures R(256 * m + k, U_16)
  {
    hide Closed;
    Four(R, PrimeP(), m,
         0xf44b39759a2e6db723a6f90249972dfd08e95380f1fca470eacd1d03e5edf214,
         0xbefafccf223ca065f0a0db4eea93ff06a2116fca81f7a4a9436a8d917a02dede,
         0x0654834a2e2af3b79968f41d26da517933bafd978d26f4115a21f5830d872938,
         0x3dabe0c9d2184e797c2657698ade55312d42895f799d62b16935e347ba25e8cb,
         0x81c4776de2f520423450cffa9427100791f14b25ce7d9ed75d253fda5d3578d5,
         -0x2b1ec967838ce209eedd57ab8944ff426db29ff1b6c1013e583a3376a34f32873,
         0x0028120de655626920712c9dc0f89afe2f097729a1afd153b06fbc73564ed0b3,
         0x0484060598f100fe139ce356eb77cbd773a22f988a4366165a1f2cee9f7a9ebb,
         0xa5320bd40141e5864483defcc981c8b7e48dc9d06522da5e027ee255f28cf7a9,
         0x20a90cf94acb628d5b9c9bb63f8dc8ce65a1f3a6c445f76c075280147df42749,
         0x71eb4bff795ab242bd18d03211892279838eed6c5143377a66da9c8209c0ce85,
         0x7ae7e91dd5f3f16acf57149bc0f3729963d303d047edb6b0a7ddb0ed325f23ae,
         0x6a998d085394e452649f5d453f9ed81624ed219372ca34f48eb09a8e9dd06b4e,
         0x12b87e69fe3d588de1a441934e6c2077c9c9a930e1fba70de5eaf828f1511a88,
         0x1649266fdfb03bf5789e5212b00976b4628558e7412e33711568b247b993bc31,
         0x8fc3c70d26bbde93efd946da4f010a8229663d09fdf310b4b309e5946fe11bc5,
         0xce4a88633ecd916f94682d0acd267ed31bf98d676f96c9ce851341003e08e8e4,
         0x075572d55615053dc77fcdcba44cf50d543eb55a2ee20c686950281647ad9186,
         0x01f0a7822df5eb9e9ed4a4f8372635443da836e3369a7f37e7b1834eef2b68f6,
         -0x09ac0b4b5386d34634349c3fcb9f06756e645069c5c9334a700b9134671c6cdb,
         0xd6227a028c575b59048e7f2094a09fa6094899a85b243c69ff3bc94304b63349,
         0x09528803e89afc1ec63ab8c682cd822f0a8c355692c618c6b4b97ff8a31bfbfe,
         0x9b67195737f3d7337f3ac1f7bee3414a038235fb17db219fd8a7c1f2af71c8b4,
         0x66e74229155da1164d66574beabfb86d1029bd4f2dbfdce9297f0746c9d7c6c0,
         0xb31da8a198936a57be17238eda22250e0a969e8410227b3575299da444cc08b7,
         0x7074c5cfd83f38180f9c05bd3eba0ad8aa979faa57139be63f31c7019075fcd9);
    Four(R, PrimeP(), 16 * m,
         0x09528803e89afc1ec63ab8c682cd822f0a8c355692c618c6b4b97ff8a31bfbfe,
         0x9b67195737f3d7337f3ac1f7bee3414a038235fb17db219fd8a7c1f2af71c8b4,
         0x5b87882a964eda17e7fd863532e4eb448b8f2ae1c8b08ec4736ed2f66d5bce21,
         0xbbf14c297989c3d81209d878309468837bc1b88ce2e4d006cfd228a65c225c48,
         0x456b994a62f55ec2ffe647f347eca52cd5f8f06b016911e616154099134e2823,
         0x6e1b1f8f55bcd6734f94cccb5b5a11f0d08c4d208883c2d253dd75936890c1a1,
         0x20b9a28f4ced7f8fa2323e00d592ebc7686530bf5df1145475938eb756eb3403,
         -0x3fdd007519517e0152ed22d3524279a4c888e9526dfeba7528e7bccc85a4199f,
         0x18f2ff2947e31e29d8dbeb28ac1e9c3bb4b1e19b0790172057524297ec7bad6a,
         0xfd5b20bfb2e1cea7912cc870c8e381857005733b080d16829643a44a5f677fb7,
         0x02eb69a6a1327611890d552d3afe1368da374fd8a0556ea1c0d92a996f672ff6,
         -0x1906743924b4c43de87e6e00fc01756b37410fd4dc017c4e552ddc24f8b6f0e3f,
         0x026e767f2848396a96a7ca72f4857a3d608a9591952010de783a770f8e57c863,
         -0x0660032c08d58b19d3c7d029e6089413f5ab35bb8ed08bf5df3cb9530f62f8f1,
         0x26da79f9502e7c53483e6ba6e14e04c08511f93087c68afeeafe9ac738c59ff7,
         0xa9c970083da23b988e56953728452063d42e2f1c0ff9f2db23aef7ad15f39492,
         0x155db059f4ffee45712b353dd0c5d8f8adff6d8212f9ba4323ca9886cd6e62b4,
         -0x2ef54de6eea2c0f3d5048a5d3f23cd458deece125ac27dd1934b5156d1262e244,
         0x05e596aa006d935776e33964dc3776c010ebd181beae29cc41c753b42ea7d3af,
         0x0caef21d03b886ed5a9b5e8b3512a6982c864e331ac82ce2cd9a99585378b6f7,
         0xd75d8ac8b00065bf0e2fd8dc29cae6d9b6bae0b37de7a32df0031eb6581baed5,
         0x3d13f658ca8dae4f8b4407546c22d94db9f22d82b363ea0d5bf23adfb3420974,
         0x0137670c0df9f78d5cd86dac0818128103e80b16a1e5283dcd8ae30a23eaabf2,
         -0x12ddfc1d16f210662db964ef6faa67b4396ef67377351d7f5cfab9a4273a585bf,
         0xb52e414beddbc78ff6a3b502037369a62c9b5e9c7169e3e447a89c2d16d4f55f,
         0x5b74220ef5f3c726955e7630b3d5f3113cdb97ee93984b5d3b81efb92ae7eab0);
    Plus(R, PrimeP(), 256 * m, k,
         0x3d13f658ca8dae4f8b4407546c22d94db9f22d82b363ea0d5bf23adfb3420974,
         0x0137670c0df9f78d5cd86dac0818128103e80b16a1e5283dcd8ae30a23eaabf2,
         0xf44b39759a2e6db723a6f90249972dfd08e95380f1fca470eacd1d03e5edf214,
         0xbefafccf223ca065f0a0db4eea93ff06a2116fca81f7a4a9436a8d917a02dede,
         0x34bacc63973d4f0ddb0a8daa899a9a80a0870d91af96236fe37e60b4f5c5c1a8,
         0xf249104d0e6f8f29e6016277780cda84dc84b83bc3d899dfb736ca0831fbe8cf,
         0xb57e12fcdb031f59cab81b1c6b1e1c07e4512e52ce832f1a0cedefff8b4340e9,
         0x25bcea1012efcea961b9b2c59da21333bb5c7ad9dc7301cf9088e42757c6e9ec,
         0x0adc6b562433f852a338bda0fc174a072055d67e51606c54914bb03c9c1d2617,
         -0x255302876ddb9dcab623f476100051eb55947f427b99850c36ed1f120d6ce46d);
  }

  lemma Chain10(R: (nat, Point) -> bool, m: nat)
    requires Closed(R, PrimeP()) && R(m, U_16)
    ensures R(65536 * m, C_39)
  {
    hide Closed;
    Four(R, PrimeP(), m,
         0xf249104d0e6f8f29e6016277780cda84dc84b83bc3d899dfb736ca0831fbe8cf,
         0xb57e12fcdb031f59cab81b1c6b1e1c07e4512e52ce832f1a0cedefff8b4340e9,
         0x284437f876000545dea5703645ee881b3a8d7b04aab299eb6c09b5054a254e6b,
         0xd97487d5610c73159732d6906496fa43fe724d07519e7ce70551369b81f1236e,
         0x0b4e657d8843da4ddd4eb932ca1d52ddd30bfaeaa23022b4d92cee2a9592cce8,
         -0x276d286c0d924202a61277348f1f01afffc6c5ab68c1be4ae01a09eb8163ab8a6,
         0x065563ab7370c92ce87fa25ce7db96db126e8901475aa675ec66d5b846f59453,
         0x03e7d334b9713f85b1c15970f9484cb54469060d651cbe94f4762397b32d0046,
         0xe70ec84d152e30078f2c9d14cedf0285caced12a663a4c8549acdf6c958cd073,
         0xb4bd01150916e4230b441953c515cd6ed3b7d8857282b5d239853b45b7472db4,
         0xd65d2cd76e2ca7038c609c629f0a3035b07b8406a2479d4e012b24baa375c17e,
         -0x215bb808e82676772e6ba2a2a88e5b514167918aa2db30a24a32014015a934ea7,
         0xd08bae5671ebe25e712bb0dd1a5b82e906c2020d135d316eba4a355a35a660e7,
         0x2123b95b7e8a9743d4110af128d69205e55f766bf96ef89e7fe8054173500bd8,
         0x43a9c2d3eb10b269343fc01b197a463e93dbd94077dd2eddba6e2760f9dfc92c,
         0xa8da0d5429df123dd5086e39f492c6f2c2a922f54e10d8d7abc61441e240aeda,
         0x14339c3b9958bcc1751cac4aa59ec17ff7af138d720c444b56d687c4f952df9e,
         -0x10d7dec6b7fb3fa6c5628e052744c72b22840441a51af51b0c427ba6821d40ba3,
         0x11e24c8dceff45af0122891bb4eab179d817ff6f53f28100c1f928d5a010eab2,
         0x032447aa3b946ccd06f99916f389cda3883ac2037b7ba0bd698c4bca5c2ba9a4,
         0xa5bc43aa0bf6b131aaa992fbc635e855bd261e5c51ed1f1e32af974d7687b1c3,
         0x379fb72b9110237ddaeaf1cdf35a4e8623f18c0d23b330fd2612f0a74e59d214,
         0x1e5badc3daa5e1c0b7ae5157cafd2ae4011b11465cb52ba43f964400c2760cb4,
         -0x133f483cc8f82157d315ad32d1ba4a2913d47a5f7de788e3373c81c2388d5f1cb,
         0x6b4c39ad125c3fa1f2f3bcbc06cf6212b1abb0eb1a4a76beb0cec01057c1f53f,
         0x494dde4d342feb3b74c58dfd8203bfd3836ad9aacef77c4a9ca732b4c3dfdb80);
    Four(R, PrimeP(), 16 * m,
         0x379fb72b9110237ddaeaf1cdf35a4e8623f18c0d23b330fd2612f0a74e59d214,
         0x1e5badc3daa5e1c0b7ae5157cafd2ae4011b11465cb52ba43f964400c2760cb4,
         0x60aa80860d0251c804ef1c02324f45a10b6ccb40f2bc0d05b98aa45437926ce1,
         0x8659f73d52cba1cd4cca3dea54bd237aed7df4880ed8e18dd474c52bf17e052a,
         0xfa762bb2ba4b9ae9f882d25e5dd3234efc4416facfe6e084ebef7d937ffc4b8c,
         -0x0d54da7c32edc304d11ffa1d40eabaeead691fc3d3f36af78a1e56c578a3bfbb,
         0x248051f3a0d1a9920e8a18d93e72c560118db743b0669a9b6c5eac49813f0b91,
         -0x1dba473babb1d32038fee3c8d3fdde260280f9bdd4b356c36fadd42e38a3796a,
         0x9842621b1bfaea43984615a9e88570e30c5506155467df9f226c8e78f08b851a,
         0x744f5e91d222b1723ef506984c0408b45fc9f481664b8d4dc655a4cea5404c66,
         0xc2e1438d7a79884b39f48e8c02017a49115b1b7d8e279521e49abb0f1ca6b7e9,
         0x56674d7482a2aed79d0d246198cc7104ee10d7c35a6c29ed20b7b9c7cc913039,
         0x5a8ee5b7475c0d9301d2f3e91613bebc744f4e96d4a4450d0cd3a92bf8cc5016,
         0x0abaf84b32df00dc0ec3d12bbf5faff26937f9de53be003b3752dff1baf46b8d,
         0x359cac187ed65f63943191177fdc8bb6ff9ebd1250fb9ac208eb24a2c6b7e62f,
         0x2b532efdb108bb05896ffd5a0e81160dbde843ec4e0b0697e11ae6ec1d7d44e2,
         0x2487028b277b3f6884373c8c62cf422533c679f429494b20d852bdc0e7d19935,
         -0x4ce844685bc16938452750e0aae75cb929a13d9310c221625a0c3866216609a5,
         0x0b3a3f24614a84afea00d3402075d9d70b6244d4764c32900fbea8e1cdd3610d,
         0x0f48e097242ca5faf443d038f3afce3f34580476c770965291f5e07d678d57e2,
         0xee6392d7e2820cc8a13c4d744db47e6fec3b62d143e15a7787b369c449c123bf,
         0x3689ea2a4a86c6adb4ee79beb6a81a3bc4920c995ffbe5397fe3b357a57b88cf,
         0x5fbbdf4bd1d3ad816d00019509dff8e2f5b4ce8f3265fa4a7390fa3cd628da27,
         0x2e084c9c4d94d75195d8964a1761009dbf78bbaaa8694b0b98f51af82b256b73,
         0xddfd4bc52e5b4089d4c6faf7a393d776185a76ccb3a6f80a5eae5e9e077a4a12,
         -0x0a713e9c8f066ec7f14ee70b6a033ab61c2dda0a7e2ee0bb1f40d1ac3d5a77d1);
    Four(R, PrimeP(), 256 * m,
         0x3689ea2a4a86c6adb4ee79beb6a81a3bc4920c995ffbe5397fe3b357a57b88cf,
         0x5fbbdf4bd1d3ad816d00019509dff8e2f5b4ce8f3265fa4a7390fa3cd628da27,
         0xade2bb9d3d8aa9ce75a9964a461cbcfeb1594ec67f52d6ef756b9c9374ca17ec,
         0xf4cca629b7f7d395b72500285bef9f50165590b0bd8f2c68a60112e84075849a,
         0xd3cc17680e65e118bc9cd6aaf219c5d399d6fb14d065427d6c39e637aa1f38db,
         0x5f32149240a6a66c893073f6a14b9821b85b52d4cd8dea6b0c517460f2028c38,
         0x761c3a62c66965344acf66893d2b675bc4096b57053756204bf99b57e8c054a8,
         -0x813b9b65b1ad747bc58b696f67ba10c6febf04ff204dbb4b13632f66817690da,
         0x67dd8497e454be740cc067c46e3244fc930a24181d4400f258e9cfbe6d7b29e6,
         0xf4f312238dea594d7a3f4d4e8db3f1f3058813832110fd42fdbab6af7325fdb5,
         0xc521d54673097490d5d7f9af3c9ce1fceff817adbb7e6d679c768bbe93db7c3d,
         -0x212677c706f89361970bc8a63f4d0573ded9749a7b41620162fd539e46468c99b,
         0x2a24006096cd69892f51aa3588e380fbb0a5ccb784a6a58805aa9a28ce318c45,
         -0x000f96b0a24aa46bc67227127ff8a37189a121f50cd79b5c17874c8f451a29a6,
         0x47ceb23224f364cf02800d492f504d2b68d77c941ffd212788e66334fd75bcc1,
         0x0d964c9b37aada69a4c49b68147f78d72f361a74b0f7b33dddddcb87a84252da,
         0x5979714f11b20ccc9b37088199f203a2924414d2d13c5abe55a2d665dc6bc6c4,
         -0x25089aaef5e912229f787fb7c62dbce78c9dc023f32c051711ad71c5fa1e92612,
         0x14244dbb29608c91125fe863b0ea266deef8546bd41fd9d89bc3574300f844c3,
         0x40e5887bd762f04fe0a3a5d0d444c2b30bc44f329ffbad4cc914c0c1c4139fe6,
         0x0ab24f8737fcaf513fe36017bba273284185c7f9c947a7859742c8668148eee0,
         0x069decde88f1388003eed4c526ec377d65836c1a5154a6cf8908130a2f4c8c9c,
         0xe8f4a771f8c5b201c1ed2bd4c2fcd1a064fb2eb61fe1dfb66a04652fa06ed757,
         0x05504d425c6297cecf76b475e7a5b23d38e7548227015548e66adc4f6138dde9,
         0x00726a694190bf79740c8aa1eebd12f7a8c090ff175492169c9cba1482ebee50,
         0x004a8e9a445b40412cb1d1f60a848d068e92d2e867ed18f8d319dc9e280f83db);
    Four(R, PrimeP(), 4096 * m,
         0x069decde88f1388003eed4c526ec377d65836c1a5154a6cf8908130a2f4c8c9c,
         0xe8f4a771f8c5b201c1ed2bd4c2fcd1a064fb2eb61fe1dfb66a04652fa06ed757,
         0x3d7cc84ad699c6201bd7ca3b3eaeceb9836a42d9e2d2a12a7fbbd0f35b32c4d0,
         0x1fc2d39be1f5603228320826c503c9e700f9be4960b03b77667cfc6376127aff,
         0x2e702878f3481581122f20556a13575f791712e88484c3ac8a1a43e5701a49c3,
         0x6f6457c0f860584e938b42369a6699b48dc3a16c5ddffd4a8bd30182cfb9d7cd,
         0x0ec4b4465e3ee6da96382badbc3e8604bfda4a9eb3535ddbcdfc5d9a7c1c6b37,
         -0x060a0c8715f9bbac9876f623502704bf41f0b0ca125df28e0bc07dd323cb6276,
         0xc99ce8827a7dfaa60382808ad42a6e8200a3a800e51c19e21657ccb6ca5c2cd6,
         0x4345d4ffb961d1bd8615cfeb30f2a55ed7f9a2cd672591c934883ed3365a40fd,
         0x2fc37f86bd6f5fd2b606938c8481145a498242d888c84fb47bbd5607dd99881c,
         0x3d52c20aa6c4b2b5a28c841034c6c6f1730b462c2be07a8c133e81269b65c3fc,
         0x9ec7c549b553a2f03b3eda6a40af14be866bab86ff7bdb7d7d93cf6028d4f417,
         -0x1bf7a02d2bba23bc9294709f8bf7e5b46da306038cde620abd52c1020cfd03cd,
         0xbd79b363797ce6b85d87d1e3b92141bc2c1faccee717b9e000371fecb856c30f,
         0xc7d68df246ed5ef92213e7095cb16d85741ea1de7fb83d97b8334e803cc2a554,
         0xc6934685c743f0e31a0c56cdf0b51ca30c3dcd10d0efb2615e14451d11c3eab5,
         0x11ab326cfb4e2b5885de97fc9a43cf564ec97609e56628d646ac3debeb01d2d0,
         0x8c3cecbc7f5c7406226a12072d335259f5a35f9775ddf418e8dfb0b176c34c6d,
         -0x621dddd79374ffd4fe680754073e7a9234934baa4f5dfcf366687571eedc6716,
         0x8f0a91050c341711e7398fadb0d22cb62c2c3e830236945830e7cadf8e7794bc,
         0xc5a5f7d533b9d61b75161351e133b82808ceae627575936f0d2a287f7c6d42d6,
         0x44c5bb8e917b75af5ab3d84f8d0473829adb8d6d3fb88e3074af6eb2c6316f8f,
         -0xf614e03c3289ae67cdc03f82502efa0e625ee03286208f4b8af0869c8527d72b,
         0x4fecce739a1aac3794a6582c8bb237127eef9ffff9c0e9bb57f2151bc8c0a36e,
         0x01393afdac29e400c741aa8b65f895d3b3ee405b74fc3e3f6f405ffc8fbe2dbc);
  }

  lemma Chain11(R: (nat, Point) -> bool, m: nat, k: nat)
    requires Closed(R, PrimeP()) && R(m, C_39) && R(k, U_16)
    ensures R(m + k, U_32)
  {
    hide Closed;
    Plus(R, PrimeP(), m, k,
         0xc5a5f7d533b9d61b75161351e133b82808ceae627575936f0d2a287f7c6d42d6,
         0x44c5bb8e917b75af5ab3d84f8d0473829adb8d6d3fb88e3074af6eb2c6316f8f,
         0xf249104d0e6f8f29e6016277780cda84dc84b83bc3d899dfb736ca0831fbe8cf,
         0xb57e12fcdb031f59cab81b1c6b1e1c07e4512e52ce832f1a0cedefff8b4340e9,
         0x0c5a66507c92c8c8733a32efd4ed6150bcc0aead797788403203bbc6fadd29ad,
         0x618466bcb739585c20c44b7fc962d8671d94867054859361a18293ffe4a720e1,
         0x34587f80988db9bd798cb5da178ec512db9aec2fe35f85e0678b4e91f7c873b4,
         0x022768533efacf5c1aa2a293eb0fdf302cba9a16c91b893180082705c921c715,
         0x00989983a5c2301ead43d0138ace2c48b822cc672fbc8791b9019c74b3956d9d,
         0x04d4ee9f084d7ee787dd2414cebb3217cf4f2df02a7f20501aea3609df23b3b2);
  }

  lemma Chain12(R: (nat, Point) -> bool, m: nat)
    requires Closed(R, PrimeP()) && R(m, U_32)
    ensures R(65536 * m, C_56)
  {
    hide Closed;
    Four(R, PrimeP(), m,
         0x618466bcb739585c20c44b7fc962d8671d94867054859361a18293ffe4a720e1,
         0x34587f80988db9bd798cb5da178ec512db9aec2fe35f85e0678b4e91f7c873b4,
         0xe7289190fbb5a7d7d62b51d40f3571670d41439c83a980a6ebf0c77129c5ea30,
         0x6f24db5a219067f6c7ed039151a8d5ac91ed91d9be5272b747b4e738b39a52da,
         0x1777f41a8de3f291211ffde201744ddff0d3cb972b5cbd10c70e7a8e2aa70e31,
         -0x10e881b5f68e1e96507d2a8e2c446efddf370fb342647cdc03e1ca7104636240,
         0xd0ba3d2247104a0d5a4833975f967fce966769b1aae11337b719b2d2d8cccb9c,
         -0x0c4df20be98fde39eedbc486b19e2ec6c601dc0168fb8fc0b266dcff6eac856b,
         0xc0c0f69007425dc498074987e7b1b2cc32e5edf753f84c8d1e31e83a7f4c1fef,
         0x6184d2a091f07c3846f28108a5d4111a113ef877df1b2e648b350e9fdcb3153f,
         0xa9404e45027fa0c188aa763b8ebbb9de825ae68b25b5b6049ead0923d93f3e41,
         -0x6d6ba349428e8056da8bcf9e7a4a0aaabe888264821098b704cf0c73352b3895,
         0x9122034b6189927a126a8c171dd231bf7f33a86aa6fa57d4f57496732803f9d2,
         0x0a424bb133f015523c55f8e70a6827a3e1bbb039049f7f5f9a45d9a7328a03bd,
         0xe2266a64fc9e96910bfcc391499f69e6e3862cdee724bf5f53e52619a78d636b,
         0x8354e03a605b57989d8254e9094e3040e6aca47e5fcfeef4513c003de9f0bf44,
         0xf38de2e2640576d5a32995c9a49afecba4dff1093dd6b00b3ae64e2f51403216,
         0xbb969061e52387cdbb75767ecacd4a09be8fc9360e2954da07a0109318f9e02a,
         0xc7c7d99ed802a3948652fc36b60f7ead0c9b1ed2e66dc698076d28cb5edcfb09,
         -0x1ddebef1673277b4a322dcd090e9623fbfb49463fa6933485ba9af218c399092,
         0xf7be988964ec4116f418581f98955a9ca415e34883c7a464aefb4b965b9e49f7,
         0x803c9eaba8fa71eb4a4fa96536e4f714bdceff15c4f0f6b24ffbc30cf2458eda,
         0xa3f72acb06bb7da031f43d0b98ca5a3b17f600bf3077db32f3f05f21c910018b,
         0x10d4687cda1aed26db20896aaaffff1d4b1c5bcba36e3801bec446ea4059a6bb9,
         0xefc15840d7567e208aa0cd5fa6e6948cf0043021a66c4cb3e67a719fc9e44111,
         0x02feb5196df973a166ff6478c23bacc1a94e3f1e9e006164b2ba8a78c3ea435b);
    Four(R, PrimeP(), 16 * m,
         0x803c9eaba8fa71eb4a4fa96536e4f714bdceff15c4f0f6b24ffbc30cf2458eda,
         0xa3f72acb06bb7da031f43d0b98ca5a3b17f600bf3077db32f3f05f21c910018b,
         0x4eb34c79827117c2632524e9f4d02fecf1eede4cdbedd17bc9b364e5ee04dd99,
         0xf5bfdd6e28096dbada5a90d36c5f333ddfcbae3ff9f95a88fc428b92495acace,
         0x7403dc2554fcff16d40a046e05a3507ac66684a300481a48a36736b59fe7a734,
         -0x5be5bb63a71727a1f38ac484be9079e8e53a5c08e0dad1fe4df831550c74213d,
         0x1831c02e2c7373ef79fdeae8ad6f3f88effc82c074fd95a7f72309d2054c6311,
         -0x24204aff0660aa8e3117960b35938ab7158c0347a93c85848d2e6af46ec5de6d,
         0x53b963e0e2a551f86b7527b4da6ce25b70cc5b23592b9b7b4a6768e1eb9eab20,
         0xf9bfbf82de9d176ca7c6bdf398a56fcbbabd61f41a4b6688bceb6a4ba82b72c8,
         0xc1adae302045783f941ef0dbe93edb63c1f6b7ff42250dbfdcf2d2f99cbcae9d,
         -0x277d7e00a4befb3ceecf215fae9ed96543ff1dcd9ee9b8be430775cdd2ef40bb7,
         0x1b61bd05705837f62b0da7596fab9d29318caefb96d13f6d90e102abccfd4464,
         -0x014edbc69156fc068b9546f352316b313b33121191c1fc900a1b0b1b5ec6acef,
         0xb8f8d77f98b07b91a739fe888ef94517d1e11ec5ae46114d5d9fcc91b1494e2f,
         0x45aacac4387db567315c42300d6461b1922b1d7b04d1ebca6998b46442e508d2,
         0xf77a05dfe6f590829ad72adef8124d06b6b456871a9e6d77bbbd140a55062a47,
         -0x1c311858c084d22adfc5670e7d42b1e88992b01921e305822895c18726f4594e9,
         0x85a6a7aa2dc3c14bbc6fc5b1745b5de31e3948dd95f771417aa19ca2e68d41c1,
         0x821e1bcdfd8fb7671f8a9bd2459091ffbdffee6a5a62e58b95f663ff986670ba,
         0x856480bf6645295b7cc166fcbf9ccb4213ca02b689e6a51515b002a54653b436,
         0xe586d59f96d1c3239f908e358bb827e5776d721ac17837813d0ca0436cdfba43,
         0x2c221df09914a1101705f1adfb69fa1741efa2214a16d935b2444b2c2a59aae9,
         0xc906909cfea2a9361b5da2d0a2fd65757b3b6920665bb8143b3233fe67edb6d5,
         0x4581953bfc0d4d9c03108764e4901137db209e49fd3973c45ff5018410c9d083,
         -0x534c13fe13753d411e2c1a8cadf3cdee51bf4eefc5005da8b0358d90f35848fa);
    Four(R, PrimeP(), 256 * m,
         0xe586d59f96d1c3239f908e358bb827e5776d721ac17837813d0ca0436cdfba43,
         0x2c221df09914a1101705f1adfb69fa1741efa2214a16d935b2444b2c2a59aae9,
         0xe5bd602b7c75efe5dd4bfee34f6d5f15c12502dc3d6a454e8416bf7262efd14d,
         0x25d493915d5523796695553f3b555771ba3c2d7991b127cf20c2d84ba10c6714,
         0xdf23c7cbddac695731da10cc2089659d67726230ea177580789562cdcfc3c66c,
         -0x21a292e8469ac62deb618100be9a5b7b4b9ece2bd4490c94870189e41b550f992,
         0xce2c5a25bf2dc435e86196365eefc9873e2f28f3110a56181b7c4d570de70a71,
         0xac0843b592de45971078411190bb26c5a5ad5a282dab19d20ed3eef97dc30d32,
         0x901938d044075d035fec1e3dcc28585a76a2c4f101473d40d33faf2d07a666ef,
         0xcb57c89a7f748b1058850cad0f56abdc64ba3cc261cd57f30646b2d75172ea99,
         0x6fa11fa312fb916fd9dc88dc5bf95567f413b9026287fd49d78e0c515dbae569,
         0xea6ecf47b95f66fcc8a2bcb4de6ac7604369d02fc5e2f81bc5503159c468bf05,
         0x511c6266c2edbbac3f20407c19ce188bb750957783b7a01b72b4eb9dda3465a0,
         -0x5d2a1c610870cf69026aea4106cc6a76643e666b10217dc145a0a6bb5f278d00,
         0x225568746c8026c61a929d9ee21cc8b663b8b70852d3eab403172b36db27773a,
         0xdc46ba3ba5930172cb8d86b64358c623f82bf466c96d0bed7d46dd2dbdbed6c8,
         0x36eb8f0fe74ffacb3756823dc92193fb371324ae5a9fb7b638c04dfbff73428c,
         -0x1c69bba3ff5f31a28dd84d987a10f69ae3766683feb182ca3293764a7fa356344,
         0x049acc3d795bb0be74fdf5b90289b1e8e8549acd71ac43004f17ee519971b2d6,
         -0x02456256697352a7ce219464a757c01fc9282234a6dab9a32641b83f9eab7c65,
         0x730e7f0e730508b34af19c004afc304711f461a3ad85aa214506bbb2d38216bc,
         0x9ff074615589ac64025a090247b7ecdb5af12a8cbc0d68280d93583a3ca4905c,
         0x390559a84227ab1dbec695c194b2a8b36706be18032012d7588cde558080d31c,
         -0x2073f1014daaa836efdb571330d785acf5b2cabe000a28fa3a721e054dfb0d8e3,
         0x33b606f953b07846efc813c547556ebb3de2ed898dcf2b45c2731990b72d63dc,
         0x1b1e2c0b337dce85c8a90f1aebf9e266a031da3e3868a6152cbc89eba7c31658);
    Four(R, PrimeP(), 4096 * m,
         0x9ff074615589ac64025a090247b7ecdb5af12a8cbc0d68280d93583a3ca4905c,
         0x390559a84227ab1dbec695c194b2a8b36706be18032012d7588cde558080d31c,
         0x61bcdb4b66643b59a748a3260de0d150ba66d53835998a7618465429d353b8bc,
         0xdd75090da916a7714ecbf81dceedcb4f8169f117a9914a1ab3aaa90bbd0cf019,
         0x380a0e0fdcc7d2c1a44902d9b9f5eb12a3f5dc48693e7ab288291c0ea7f1f4cb,
         -0x1003b87c50bd03c67804f09794ba1938cb4cde69434fc7ef6a9627f61c2ff6df3,
         0x2550a9821b811917b7dd5f303b92c038e932aca26a705f2a3781af60ff1f46c1,
         -0x177c9e651b54484d56ce0e36d106b291ae89f48d518f7365cd821571b4d0114d,
         0xc9651e62d6774d6d434978a729e20c44dbdf244c051785d459e9d397faf72d77,
         0x5da7422f1663c6d57e2d1582920e4644d7fb1f5597d27d56d00eb7fb982f582b,
         0xc6dc13fd9f8bac18f672b8fd5a1ed7fbb54eddbf6c2d22f158fe9c312858a10b,
         -0x1e68dc618dab32817e4c451a767f104d92ed4dfb1b166c07962140f3126264b6a,
         0x9e6ff1a8d0cfd3cdbb68ea0d1a4af4d070b12c8914e788f93c348a3be2942b0c,
         0x648b0c8010af295eb0544a5530d664ef307ff1e86d748d31e72b13b5b6f22034,
         0xd5c0e76343a81b2fccebfe410ee5f059d6813035f76b381d8a4c32004e356535,
         0xcc5cf8384395586507e793938f79a3025602ef45fbf8a89e0ff6c5db6a782a1c,
         0xfb96d696ea57e0306d356bf964dd83943e50619e19dc791971d0e9a6a7840a5d,
         0xe54d10c56e3249c1bcd5632ef4f6d583077f5b1f1ea6834a7925664da423691a,
         0xb27a9267c71a16642e4a527b25d4e123e85b46aa28ab65eb812eed033ee1fd79,
         -0x5c709ccf6ab6af128f1139b4d426c2edb413f6dde4587c8fe4b681d00756c8b3,
         0x33ca08f7f6caf3b2bc2dd0597e53765ce9a3a459a2d6ec8c14fd62b9829c8036,
         0xf248d9b1b84ac2366fee7d47fce9f31c4533a9698bee5ee13fae5147b6139223,
         0x73a4fbb68dcaeace798186ee0008cf52f074446c745a91109967d36b922c3028,
         -0x183a1b2ecfb03802ef347614d481bc91f7c2916ef3b56acd3b6230e23b7e1c60f,
         0x0a7a1f04fe70e40199ca1a380e0d4a6f4006078524e0b941a9e1e50f30fddaf7,
         -0x07abeb5f3df33952b479e63b366ce101637cecfe09f73869adeadbb22d405401);
  }

  lemma Chain13(R: (nat, Point) -> bool, m: nat)
    requires Closed(R, PrimeP()) && R(m, C_56)
    ensures R(65536 * m, C_72)
  {
    hide Closed;
    Four(R, PrimeP(), m,
         0xf248d9b1b84ac2366fee7d47fce9f31c4533a9698bee5ee13fae5147b6139223,
         0x73a4fbb68dcaeace798186ee0008cf52f074446c745a91109967d36b922c3028,
         0xe3d88474bf049aa8c92e117118d8ae2192be22c3afc88bbb6d45984b246b29a7,
         0x3f069f0caf6d1b8a003183e31d6a7639fc9662fb33f78337c98fc3583bcdc78b,
         0xf0d634c2804a56d4192802decaf900685a573f23359cd35a7037e22ba20ab87e,
         -0x1e20f3c754968b697c597d7ca753923fd9b62cdeed43f4cd63b9f80fe04a9d1d8,
         0xcac9b2079f16ce4d901a643cd492c14e05760df1e0fbd87601775d7ad79400e0,
         0x9f8b56a257a8aae1a2df25335ba75f6a5d7a8d58bdbe535c80f73d9835b5677e,
         0x48e767de0f22738d95a0cde900e2811f059cc9b0b4d8f7c6662c971f6dd8540e,
         0x2b22713cb4d4d6f0729f0f208f747d99f65813faf13d28ced0db001f0bad4171,
         0x60442684cdb5ae6002e09997cc26f8bc3267c71a48db3d6c479ac9fae4e701e2,
         0x5a9f1c52e6fc56c38c09c0b4f3b8a96184576f95658403ae1a770e06639752a0,
         0x14c2fb999a2a1d91acb70423236fa06060315c6c1d2ae8cd5a7bb909a40f9fc3,
         0x05aa27d9ea4b8eb154d6c6983aa7429b1739f2049b9f755850a1338b0139dcf4,
         0x40ce2d624ccbdda2181d7203eceba6f86c74ffecf1099f60709afd4e366ad7fc,
         0x6a2ca24329a14d2586d4d84afbbc2e427cd19f30e5da079043a0ff685627a21b,
         0x715b966cbb3fbc9e8945f98206c054a762d417938414a26af21974727d2c9926,
         0x1aef5f0c621cb1eeb64de5a9a650e6e44459208ef7d26df014bea67e19406ab0,
         0x1067bcbe490cf866849d1e93fe3cefe12a124f8c6bd4af3126920a608a98e4ed,
         -0x0ff551a21fc88ced9c24a4b4bc03814f51fea086f70db3ea2ed9cb04a3e277a0,
         0x07ca5a95dbd0f238188c92bc10fe3120ca5cdc8c94f5543f619e7b4a285fac63,
         0xace880fd319db60e08e8312362822b4aab68bc33f988ea72759ded54b65286c3,
         0xa393c7a518957d2cd62437d88a15ced5e93c5ec758dd9206fc340760108fa157,
         -0x7d34c37b6f8d5a9232c15e7e71b33721faa5191fabe900d1366f58b77bdcf6dc,
         0x003cb0e746ceba2d20b906a998c8916109452802120479d5df5717490d129cb0,
         -0x0207e2f1f3fd4f62cbcba52348584eb2f3ebc5ec681da97863567cf255b4788b);
    Four(R, PrimeP(), 16 * m,
         0xace880fd319db60e08e8312362822b4aab68bc33f988ea72759ded54b65286c3,
         0xa393c7a518957d2cd62437d88a15ced5e93c5ec758dd9206fc340760108fa157,
         0x1695cb9add979f9b44bba53cddc3af6ec9a9ada1fcecce7cc21c53ebfe9bf13f,
         0x017d021e5a0822845da7ff25f0cc23e3ecfb6e2b9adad4bf6fc0f32bc7663df1,
         0x8889b06b8f2bc13f3816c9f400ca112eec03be1b188b1fab43488aeaa760c363,
         -0x1417eecf30737be5c16c4b52b5239b3b30d7d8f510ba68a32dbe961b6f83b0d3a,
         0x01fe16a5444911b18e34a711240e007568c36e1cf56aa4358b3f38742a699df6,
         0x0f1f8acdfe003a59e0278219e470d235b26706295fcba955a94871350816c70c,
         0xb52ef301be713cd3721fb2eb26e9651c62dbd5611dbf05a2a082290ba0205c5b,
         0xd53d5a852cb411a97e99b8cb5bb9578b51d8c2e6b1711a9d23700327fd38e388,
         0x1b20a99853937f9873930c491b525c60d2c0203c21cbac126967833a34ebb804,
         0xc13e22fd9668c94512f99f08bcb28218f751c6ad62d826b433809e392720263e,
         0x803b6c3d32d44c7f91fee356e122071c5d4269ae4e4084cef2005c2493f3d711,
         -0x95ddd412307b9d3f2aa63971a9bd5b4bbf61d0871c21048765ebf18c3b7063ec,
         0x477a8d7b28feffaee439432c1cb34e620d2b28f77d7a02dd8f8b7b25da055f0a,
         0x24688c9b2b59562d73bafa55e3694d2d98741c02069a5bff70e14afb6a34f44c,
         0xd669974b3228c4a8a923dd131423654b3149fde6979481cbababd6e5e46fb164,
         -0x205b75ed36cdd74c3d4bdba0b1ef87d33178048a460e6986332c5fe29a3f5ef93,
         0x13f535258c46a06d7edbbc7bd94db934bd7a09374d482ad96e57166d82fa4ef8,
         0x315fac40813eb19855a407cb3476890a9f90d230d0d1232d09fffd5b2140cd10,
         0x3df23d02be64203da86b3586f55929b44d3b721a7d42d1f74c2790f568dedb19,
         0x11007f19319af1a6d1ce80397deeb0e8563689ee692ba5a0315c20927bcf0185,
         0xe817e244a8c06ac138d4c0b10e6810088a0267b0dcf51e6766dcf514fb4b3291,
         0x583b6134947f014a05cb42e9c4cb784d73b3bddd4b71863494ce5de2a7412625,
         0x0efd564ac57351b84bd227df7ddc87ccefe576afa0937a26dd7f64aa455921ac,
         0x04b22834c28980c797835e6edbb9ed125a115ec035603fb7faf5744e0083f186);
    Four(R, PrimeP(), 256 * m,
         0x11007f19319af1a6d1ce80397deeb0e8563689ee692ba5a0315c20927bcf0185,
         0xe817e244a8c06ac138d4c0b10e6810088a0267b0dcf51e6766dcf514fb4b3291,
         0xc4edab784cc66e9dc3ddc0a1bb35098abbebb6da1bd0379f4f35495b1810da1b,
         0x6fa565a378dde0df22f612f3779f8db8ff70ccae2e9ba8a15647f0ae541844ef,
         0x7ae276bec1d2bec9d4eb64f0b20da6fa810c27b136c0c00d0f0465141c8a47f0,
         0x161b052f8ba077f01a8ec3961ea57f979b3c8ad2c198efbe513cf1547332d4eb2,
         0x977ccb37bca4bb1ab2050a801edd68e04aab746e12d4fa9d053092a03e844920,
         -0x48ce1e90350e15fa29658762ad35b4399a5620a758987a5ac6cd69248e682551,
         0x88fd5e6ed410c082c3ce11a91fb70b3f67e4a7765d05e18d7f947b38ca97f419,
         0x6db2fc5f840c467555dfc8257eacfed24cb8dab28afe143ac02ebf90e61dbba0,
         0xf7a91123a9a8b15e300d42a897c5793991e38ff29bd9757303cb4a2799aed283,
         -0x0e8eae8dc5d8338f94f67d09da8affac521b07d615f1e562ba1ec4b343240780,
         0x494e2f19d484b8783929b98dce19bcf9bb6cdfb6e0c7ecc91a77a8943c109b0d,
         0x010ab535fdb011459d729a13edbea6c2008fdc4315ecb60e34f34921da4965bc,
         0xf20a57ee70df07d6ce91f0bd0a46160e3a6c07e71c958c66141e21069158d350,
         0xc3376dd235c533ecccf4dde080377e969556216f981cb9db824041c9c94d7468,
         0xa88754c4e3cd3d42fa0c78f4614d41b8bd7424db314f6710b6ec89cb7de14d0f,
         0x14749ef988104e4693150057622116ae20f7139a803c69a670b86d6e346f1e81d,
         0xe4d78eaaaf11f9b62d58f6919aad70f39a613693708e5b16f2b37af9001bf2a8,
         -0x50daa7cad4ba4f252d389fb275082041098d6c834c7b842e73de5a44c77949ee,
         0xf1fbc80729ab01a5ccb119d4f3c345cb8f969116d59a28f5bc535098ecc8e08c,
         0x682c1373b018b924f6ec5ee81fd0d65ded7abe66e21640e973f132b2253ee808,
         0x67eecad0de63ed1d78e66b6ea15d5fc4253683955d973189a31bc585d170e061,
         -0x7ffe29948656e3aabdc2c0eac6b638d01a798af46086cbda243cd028623b49ab,
         0xe4bc06403b86e5fd3e051550d628e607c620a5f4fae5a541a7c49463f8248448,
         0x560f3b58574e9eb36e53474363edbd01559596d2a8d4070bcc407110b18968f0);
    Four(R, PrimeP(), 4096 * m,
         0x682c1373b018b924f6ec5ee81fd0d65ded7abe66e21640e973f132b2253ee808,
         0x67eecad0de63ed1d78e66b6ea15d5fc4253683955d973189a31bc585d170e061,
         0xb6f56f88616f73e59cd055fedf26a4e7e9b7d3805a7210f8280ce5f968813bdb,
         0x8f4960d0fad5121e7ffffe005df1761de7f8e1c2cdf965478173dbe628e75af2,
         0x7c853b801b2e85abe2a219299d17921498c82bfbec9ecd3ea2d6d5a066064c18,
         0x15634bd3052021d9afca5b4879ab893b4b2822879128b126f618aab5423ce4c7,
         0x82c1e5e518ee6b2938a4ce9c1d32d0dfb701453b56983804b1a8c16522b07da9,
         -0x1bf45516045e7149f9034895c034be0ee6096f63712fc8a978fa4a57dd089759,
         0x95293b8c9d1b7cbee1c6a40dddbfa08124cd4c445226188841a5ce723091ed70,
         0xb780013f82cafd3fb064c465c74e23abd489f4c630168820d51976a7b9c1a67f,
         0x8483796ed584235343c4095575ce7fd0fa870b4f17da440ff188eb514617cbda,
         -0x5f7df9b778e84f90e69d6dcc717597d360fe68da3988551ed0aa81417e75deb7,
         0x56e905f626af75a0d9b72311927657354a589817d4df5be6c0526a7b3677cb63,
         -0x176e457acbcb353edc478ebc22d80a80859b8b2365f13dcfe73942aba192515e,
         0x5fc30199770d63f9306b8eb5b70c590e7a78844d7f32b7599bffe25242913afc,
         0x59d10e27a2e1d2e0f244547873a77c6a9698147cfe238b843f329338c29aebda,
         0xfe9421b3711ca96e839fde225fd3fb52195f60e1434087b704602925f18c5f09,
         -0x127754f4c24518960a9b0a9933ec946976a479683c64321a248a9ff080ad74430,
         0x23d24fbb79fc2d4235e05b2eb39fcd13a78ec5c61bff7dd61cdf924a670f10c8,
         0x230b490f0265f90053c8d6d42ce0d667487cd24f3051f0957cffa354e5c60e77,
         0xe6f5915845524817c9b060c18d8b717cac8fca080e26cbcd288bf75a7faab605,
         0xb9cdba7bfd6dadb74e360dbd5aa41547daa0afb084de8807cd635be8e4398ffc,
         0x06422e5623a2035b7f4c596afa4bde2261698be60c7b910bdeee0554b1882c80,
         0x16cd1817cb52774d1f4e78dda715084bee504fa884785d33743024fc8de255e8f,
         0xd05e2cbaf267d2b9cefc97976685b5e981fb961ee46a6e71a36a0e6733604b97,
         -0x5699162443225d4b348882d40cba7acc5789ba36af48e341b0d425740f8e13cd);
  }

  lemma Chain14(R: (nat, Point) -> bool, m: nat)
    requires Closed(R, PrimeP()) && R(m, C_72)
    ensures R(65536 * m, C_88)
  {
    hide Closed;
    Four(R, PrimeP(), m,
         0xb9cdba7bfd6dadb74e360dbd5aa41547daa0afb084de8807cd635be8e4398ffc,
         0x06422e5623a2035b7f4c596afa4bde2261698be60c7b910bdeee0554b1882c80,
         0x5964c5233f7fd444ac5e95e0039f0cab6fa80871add7e1b32f0a722a6608889c,
         0xd3e088b3d86e948a511cb9cd320eef8885a923bfafdd2e0045f1e3677ea17d8b,
         0xa35c11622ee976688fcae92cef9b0a88aa57587ac49e2b69d1b33a403f5a98e3,
         -0x19032050417b9e3fff6b39c932ef2b3a2ccbb64b8b9e615436da28f52e7a3bbd3,
         0x1f3738bd3cb6fac7dc66168446b9ab26ef78b7e50bd0172eaf660ae4246e7e73,
         -0x091acd1e11ca7c94cfcd1ea4bc524bfd26dc03db462e0f734da209e15b1c7f79,
         0x748605f98a44ffdb3930cea42bf820c24251d42f4514668204d50214f20ec435,
         0xeefd602f85546c6feb2428f5bceb6cc400ec680ec663dce4b7168800b74a7f4c,
         0x04ed6f3b4ee2669ad38432539763d66585c46a81af01e7557d9b87f9fe614367,
         -0x1795d371629536a62c7246d2f77823fa7166c6ad4026bed5569ad7620eb3dc996,
         0x3509bb949bb8b653e2e9d43ed1c1e0d368d933f7320d1ede2888e6b974604769,
         -0x0c57435edf53c6186229ee0b894b431f99b8152b84055caa255858b1176102c1,
         0xbfa7581ba17e7011a35037f5554ec574466581d61ebf651be54010d1b3462128,
         0x2e7a2e6feb61ffd53da8a3bd7d8967289ac109cf537c00cfffe410a12fb715ac,
         0xfb4d4a1b7deea4f310dd30892be8d98007a78d510a3a0434dfc1547efb43f30b,
         -0x295f38fbb84059c7b25fdfadfd13a8307591b5ce575000e7a3233fa4ffa642283,
         0x8f7b22dddcd5831039a731c3bf6e17f9bf7e34d54aef2f984fded7be8820be04,
         0x901fb9f5d85ab964bfe12bcdc4784d5583ca10d2307607be5e388448083f1572,
         0x15ccf0c1cbb1265789c91d1e08af146542fc69685d2f29bbf2b57c8be05b29dc,
         0x8af778ea48bd951207df9783c1b903d1f1228e1a898dc77a1a9122f8d78265b0,
         0xeeb65ad4bca0878f8da03ddae0dde90504eeb9f7c175cfb158c6d018b807af34,
         0x117ca1028a4c35127c99229770c34e1798218476b21543e1a2a87567c6c3c1c5,
         0x01db4390648ee6d0c5e49a496dc61289af4982b53296bfdf4115059b6db05bf8,
         -0x07e051eee4ea7277c412a19513a9484fdbfe31ad02e5f1e4f9d720bf98bef651);
    Four(R, PrimeP(), 16 * m,
         0x8af778ea48bd951207df9783c1b903d1f1228e1a898dc77a1a9122f8d78265b0,
         0xeeb65ad4bca0878f8da03ddae0dde90504eeb9f7c175cfb158c6d018b807af34,
         0x0132e377c356dc604ce9009f2fe476dc8bce83718d159bb94bb3881b71a9cd6c,
         0xe49f610ceba9706cdcc1298e4dd50e5822c3f6d01bb2e37dcf5d8fcd226d7607,
         0x42c91f66c389cbb00e778cc47c646da335b60554dbea393807ccd40fa29e817d,
         -0xe012e49e677a2822f0d0cedf3a04c677f412b59359b59594d742f8b5a25010e3,
         0x00016fe4946e07fea545903fc8b3354428b4f869e99326d1e0ec68fc9c041bd7,
         -0x006b7a5d4e1f2842c28b4cc8f7f4d44c18eb4f17339e988b678349b89daa3f9b,
         0x10d1a977f9e36431971a8912741876bccbe9607e868c6c2d087999d483393764,
         0x025b62a5d3df9c0c6fb907a96ab59e4047dade36123be380eb234cce760cdf29,
         0x908f3ad75c78aa4eb9605aa92b018058ac49d87ecbcbd7e59450902b47890e12,
         -0x25bbe4f8e3c871341b0e1ac0a0aed91700b51d491338ed94b015a962202018318,
         0x011ae0e5266cf2dd70cadeed3bc2b6a6693e4e2d8be07c83ef198b4eac63ac27,
         0x0edd8f321fef062a061f4b33c596609cb6b8b7f7c80dc0b9faf71529a294eed7,
         0x1a1e60204cb24b6cf07e7ef26b311c8ae19e1fb468cfbb0376b0f1f06726556b,
         0x77af8e4f01e0fda8953835322951c177f578029d9cb5f50ef144514c68c4e67b,
         0xd26dc19817217fd0cedb614eac140658b5de6960599737046fd6ab1088217ba9,
         0x1d6ebb97ef9909d4948256171f547658c553a8b0312e20792ee107a0f5dfa6a4,
         0x02aa2f213de89dd605bf66b46dc5fdbb53e3af951427ba22f2276dcfc29a6a14,
         -0x0bf8785ab6839ae2673d77f7f58bf389935de8ca38c1cb8d7e68f1658ed02cff,
         0xe071868ac00bfe0328bb9e9bdfc84218abd265f4f0c26e5e8a422bf9b8474f7a,
         0x3d1023f9ddd701cb9ad3c6dae21cdac30005edc4691dbd1088aa6dd186dd166e,
         0xcb61649dab4b66726dfb4cb6ba455f317ad220b1fde9b649f36579a3616a61fa,
         0xc91ca8cae1f589f4421b01a0e44b271f750dba0f9434ee853e158c5b11919234,
         0xc4c6ddcba20ef126ce45862edb2bf8b837273c51e1f8b3a1f438e2f9ca0e5d40,
         0x33657c37da15528826ec4ed7dd15b1b1378a2bff823a08725379fff4ac43b471);
    Four(R, PrimeP(), 256 * m,
         0x3d1023f9ddd701cb9ad3c6dae21cdac30005edc4691dbd1088aa6dd186dd166e,
         0xcb61649dab4b66726dfb4cb6ba455f317ad220b1fde9b649f36579a3616a61fa,
         0x254c920e29f647d75b90a68add2d1aa6d572bc42eb1a0c689289b7b6f8f924c0,
         0x148967a47d7220bfd064461d2b6d32a86a02041f7b274fd16ab766be87dbc03d,
         0xe45c3348b9bf133e1e19b6dabfca7d5b6b81a7d695d12b3b1c937c4f9d6c8364,
         0x0f91ba7e30c32e3ed224e6698b0acb211b43b2fca53883ddd1ccb75da833fec9,
         0x056f391f294d7cc393f6c19b9435b61968288208d6d92aa2ff9dd7b512cf5d19,
         0x05e798575b9a5977c3af6d736c46048fabf6068904265b29d2685a35400e5c9e,
         0x52cc77d77a790d260c5ec4ab5e43bab3fb0494b31d2c7cf7a3c80b87a580ed1f,
         0x8f52c4304b2bf6e6019682d703737b8ce1ba733cbc7849390821a10cfb742cc7,
         0x3747644257656ed80eaa47410dbe302fa304f179c841596832b51f5a20949069,
         0x8ec693c5a3defd3ebce9f0f31437e928013e622b4bc144d44fa869af149db160,
         0x1ac7a0155cc266aa12b042ca83e40d1b26be308024659788d5c63b401a894380,
         -0x27b69195a2e3c3e55ea1a06f9cf4dba5493560bc8b3022b665497ee0ef0e057d,
         0xdd253971ff4f370fd7dcdbe46e8ae8032c9879364d66c99e192b0f3287bc0b53,
         0xe0308881dbcdf7eac6f7656f692fc47ed15e2a406cc3b14f30920122c5e5b4df,
         0x3422887220f980fab0d5cf64ee8ae716a0e8e7923460f92c59ac54241f7cd922,
         -0x91375f44b106442556a33f05f3cdf380ce2cd928f0d3c8d6c496c5383a6fa206,
         0xbf094a9939afd3046900d43ca8c3aaf4f136d0d62146aa09e6333ebe9065d184,
         -0x45db34ad72c0b48ed5503954d35c5cd078b53101365a0c03101deee9a2a66ead,
         0xedddfdbd0a84dfb7f7f5fa366ebed05594fbf805ed249956968ccd8083cd3374,
         0x5f1b6cac7386fcbee830761db554d1520a5608b5c3e5f81546857eee58198ce9,
         0xa7b3161fdba5e580f274bb503c0796d66bb42f60e66f21cb9a3160b6de742f1c,
         -0x1ec1c8ca9f379157e6341df3b86a2be7e853486978bfb4537c241104beddb4410,
         0xdd04c850f6622a5828ef8e3427f1e5bc1ab523a283726c6cbb529e0fb9c58a17,
         0x77f079ef3f1a7d203263060f76e32d48a15892a939b69c9cef7ae54aaf7aeac6);
    Four(R, PrimeP(), 4096 * m,
         0x5f1b6cac7386fcbee830761db554d1520a5608b5c3e5f81546857eee58198ce9,
         0xa7b3161fdba5e580f274bb503c0796d66bb42f60e66f21cb9a3160b6de742f1c,
         0xbf823f6bf24aef6081f1e3f108e981f357242d34b6311601c3b45b9ae0112b65,
         0xb0a7f7c6268a00c824a22b991e245f42a12bfdc708e8a83ab06262543f2baf23,
         0xc190b9f4fde71f76a4f71c477b9c42b5793919e2ad989d85e4fa579deca09cf9,
         0x90e7c735dc4bccc4e33742f46a379be943f72e82c49d57987c399f6537fc7018,
         0x8f439ce81c27d0f9fe967d02763b20c8cb28d6a8c0862c5bcbc54f956499b31c,
         -0x3d01595b05c5b210be6b770d594cba7068e9488e59b8bf02acad079bf929f509,
         0x8bde950e45f61e9e42f9cd262f4c319028ce9c97ac77633d1d5a12da8a1798bc,
         0xe752869a18037091b59d5b26b7e5b6f450224cd3f210771d92fc1506eb262d85,
         0x5092f855f778dfe615a07c5dd14a909f00ee5ee30eee79199370fe5b365a0126,
         -0x9a326656f77554dfea0d68d6d397444be956042e643bfcca727f7b405853a160,
         0x4c6b7764a7efb1bd8c69d4c6721ea6736ae91a3d8f63aece2b68d6a7ec95c1bb,
         -0x1dde23495f2c2c5bae94a793df1d2185f59065763c007819e532599da73861e9,
         0x48e990f8ca2a4ff88d53f18d4ae0d03635a3cd626854543f28f55cd02022b4a5,
         0x3c678c3c05bab18b8c2503a4c6ebc4c9303959e18a90f9e543aec6f94a2f3a1d,
         0x56ca8b531eb29b81fcc885023fdeeda4633a3e2e4f7a51c4b4f13586af4fd46b,
         -0x2452c6a15b4915269649a8c9604e491812bac7c9125e040960faf0f7542fed5b4,
         0x14c436a53d74d9de763a7ba93e0b8b6c72c160c468ba1bbbe7901b09652f22ce,
         0x30ae0712cce23fec9983c614c050338f30907fae8bfb51e80417ec322f89d389,
         0xfe189b18522d6fe1b04b38062c250cd07514c90fe6dc37716d2b5e8493f357e0,
         0x2f0cd80c1e9916f5563d7e896b34f023c7be4a3451a8fa806506e52c0627ba93,
         0x4dc9e9263d7e65284d56ad81e3386501361441477fe4f98c6ade87b7ddf5d271,
         0x818880c27d088a88891f335859f9a89905bd45063875bf9d1a446378444f0098,
         0xfc34d622b1ccde7d121fc32a603453d8c09f31ebe7c88ca70a27f5e3691c2acd,
         0x0d41475fa8f59bd5458459115a6e74bc14ee6f58d2c16e13086517022c60281c);
  }

  lemma Chain15(R: (nat, Point) -> bool, m: nat)
    requires Closed(R, PrimeP()) && R(m, C_88)
    ensures R(65536 * m, C_104)
  {
    hide Closed;
    Four(R, PrimeP(), m,
         0x2f0cd80c1e9916f5563d7e896b34f023c7be4a3451a8fa806506e52c0627ba93,
         0x4dc9e9263d7e65284d56ad81e3386501361441477fe4f98c6ade87b7ddf5d271,
         0x7e8fe9bb9e707cd872bbd28cda2256d5688ba9a4ae09c17ea1b04eb9283670ef,
         0x6251d6d3e29476ce36595ed4011d79a5f99e92a0466749c046d4649618342a24,
         0x24ccfa7cf99a9155a86733f38c7e6f3abf94ec573d9d232c6d0e533213fdbb28,
         0x32f90f339fcb652800324e54770204c2b6cc52a5fd57c310bb5f46022d7e023a,
         0x3e91fafbe38ac775cd614e2bf57ca7cc4a83c84a2daa9628d87042a19ddda029,
         -0x1958c7c01c6a0412c5548151833381bd61254bacfa765c5c449e3b52930ada08,
         0x7e538d01ceee43459ca01eec09944424ec5de5378258ed78564a373e4ee53b18,
         0x7acee7f81d3a82a1edf8b5e3efaf29ef9fc4d923c5a58b9c9df50171de4e1a85,
         0x69173e25ed1973989e422b32275f6a9a320c038443e36d9d6a1f5e9de0cef31e,
         -0x4cf67be428b4685a946c25f6252ace7c92ae4b4e14c864a45d5ae9d038b80853,
         0x3e565a12c2e010c065166c0ad331334f5991dde412aed35213005db8a8225c8d,
         -0x0c158c797e6bbe13a69294a65b5b01091c0eadeb201df10093b1c7fde9996da2,
         0xfae62f8c4843292901276fb6e71231a5f07590a93671e5e265574033128cd213,
         0x750e075cb733a91bb8f5696a09a6ef1b57e8b1b0e2e00d37f6e013f7c3ac6b6c,
         0x66ba53b1e26a4d08be86f31b1ef8bca9a05b69887678f1273c65faad845856f5,
         0x1d40cd37adf91e80923c65e5c1921905f19b8afba629c1a4a9bc18f580fc8cd4,
         0xf5e663d86bf0385148f0d99235d9aa3b02fea13c4578eff49d62c848631d730d,
         0x05a387b3233b0091f6e00c9dda652c1a81a25ec69748f60388087eac45d8c938,
         0x97efbafbf382c18a7e82c94cf13f3f4ca2158e7d4b8213e14adbe6c61fedded6,
         0x1f0756d7084c25e3577831844763ce86ded4a8ee219fc77cad82a565dadd37ef,
         0x2fb35ca389b734b7fc642ae0daa1fb0201616475c50c490753fee92e55503f1a,
         -0x26a145c9ba64369cb7e92dcb7b2e956d81e59ddc2eb71fe2f100e4b1a789ecef,
         0x5a2caf143e74b35c1164c994a5549718816c7dbe9159a93cccc6194f340233e3,
         0x330e813360abd7e1c13197a32b83bcdada5faab57fec1818c7af2e42c0142591);
    Four(R, PrimeP(), 16 * m,
         0x1f0756d7084c25e3577831844763ce86ded4a8ee219fc77cad82a565dadd37ef,
         0x2fb35ca389b734b7fc642ae0daa1fb0201616475c50c490753fee92e55503f1a,
         0x9857183c4acd138c11bbd9ed9d40ea48a4ff2004e9febbcc3eb4a8c642a240ad,
         0x4de4b8669e771c889192886a4a497a293be7bc49bed5b14b9e4c3446131b7e7f,
         0xf8533b55a1f1bb814e73e93ad077e717e6a20ee598acb490991f70cf64a5db86,
         0x2d7d1d399dd24052b3315dc7315ab1ae199ab93a0e91701fa841c76f4db16a3c,
         0x5aa78a696ec1453c4c037bdbfa7dfbf0c0a68bedb55c520e20d25346a98af974,
         -0x1be363994f92cb6f0d78dc02774edda5d81c67adf4623d05e2d75172eb303610,
         0x64488d9175a463225d8162a4b6d9275a3fb8b54d9b895857f0d7ede8d1e1c268,
         0x34209a3ab9654fd0c7639f3f66a3c98bb507f9be69214ddf6a21a657fa0ef029,
         0x7535ef8e94e09ebdf2c9c53fd88efaa5f42c1c9da62b22c2571be34c093bc667,
         0x7b739dfe7f2f5244feb7eaa6d4edaf37322a3da45a807aebfe31dfa280dc5420,
         0x2748c329bb4ceb51bfe1aa1b37341a90703434dd02b24fb604d2bbdf01d422e7,
         0x0a17e9315475bb99e6cf533c83ef91eb3802e6c9d8e61161e14b5c386d54a2fd,
         0x1ce01033d3f5a2a032d987ba907215ac14d10cf4584191e3c3f263b72a44334c,
         0xbc59c4226e36c73a8652fd9fb989b09b108ee19dbf7c25717a80ec4f16b2f742,
         0x75d4dd51834b4957d83a9f40e248b164274c2d3142742215c793b3c14338031f,
         -0x0566cecbbc88a95a06f6375919e23b65e2c9b3735f19f73282e25588d1e82378,
         0x0341c7a7b558f6142d4168bf0364a42876ff8d385690b39356eba756d0297904,
         -0x0f5d7b3938ae42cfd401db59eb895a4651f66ee284969b64411f264688cc200e,
         0x0b069aae63092ac7fd78100b1e55e7b6aa901678e040fe71a2e697e18739c77d,
         0xbb9d2d7239ddb6c201416ecaa8327be9bf6499000c5d9f3f4e0cbc25ee7f3fda,
         0xd2496af1bf641cbdea7cd83e0758ff23880cc96f5c491830a52a580a05e12209,
         -0x19595874329ee636e740b95b25f6df75ef7cf2a0490fc0e56097472ee7391f73d,
         0x007991769a9f4583998cc34a6dd26595262e77035177d146761e7799d4c79b55,
         0x00081f570d868d6abaf80d05459c5858679260cd4428efa28b22c5cec61ebf60);
    Four(R, PrimeP(), 256 * m,
         0xbb9d2d7239ddb6c201416ecaa8327be9bf6499000c5d9f3f4e0cbc25ee7f3fda,
         0xd2496af1bf641cbdea7cd83e0758ff23880cc96f5c491830a52a580a05e12209,
         0x90d3a4702eccff3e37da7ac0cfd6a420e0440edb43e375481d9ede78402e4563,
         0x8ad473c573fe9437686678de9457d45efce74d547f21c3e766e2e6d369dfaf0f,
         0x88dc565e91b34f48710673c6e23d5c5883728b0787a2431854ec83bec50ffc16,
         -0xae8eb73502b8d715243387826108e1089f76821774eb7003a45f344f5d0a1c0d,
         0x51eec7f701227a29118eec54463f8458e5d424beb689001372f87340c47baa7a,
         0x1b993d384bfce3ddefcb4d2e858668cbb50d66905c74dc7871c87d19babb689e,
         0xe08b3ebeabbf2d6ee95009601503e146b4ef0fe251a7bd20125d79d61d48d203,
         0xcaf9f83c4b9da6241a0076c1cebcde25cc8891df4a017f9e1ba6fd8a955dbad4,
         0x393e57a11e8d28c365dd4db189a79abf8952d5d40908ae7956b81a0125feff8f,
         0x0e39421f7319516da543f5d32590c4c0bca65af5a0053275d6058caaa532881c,
         0xc4f3f98ba3f1f3dc4abd86bf1082e42a0a3a0434ae627978179f43e1ed242ce9,
         -0x3843b7fffe6c0a55c50a430a9afa8a3cf93fda149ba6c95d287c65f68c67470c,
         0xc58638a1dd9670bc6b85764fc21ba1318c5038224b97eb4159548302ed0f79c2,
         0xa2eb7b88a2f3d9f7b74d987f6f828941c8c63ee39969d34ede8a5093609ee3ab,
         0xb02d031438a93f95007b18d281b824b113279104f70ecd52af4344e5d8c56907,
         -0x18a78560822ebc370c20717d7a4ef8e483671652f1dbb5b72663959e131b0440f,
         0x9867d9890d6c93d2c01a052f90a4b90d4af30e1acd5e7e8fe428303fd8b5624f,
         0x1ee8266824ccdf11406bab76db24a04585a77116af278d4d3e2305f1420bfa84,
         0x2281d19bf1a0689e1d6457da51286ca1ba9d5b42bb467326fbc54bc15d83c618,
         0x9c17dbd2e5e19096ac5ed100c4c1925f51fdd766916de95258e24b3a6dc06114,
         0x0e6e118cdcb2f15a2a4b00045df961d3f50bbd0c9c1ce1b529c58f1759976ab0,
         -0x1078e00315022cce6383502a3bad6adc0ae9da435a5190027fd1c8a1061fe68a8,
         0x04a6bd825b9edc7c2d40aa626be7b4c1a7dbcd795ca3feb4cc1b2a6f6925062a,
         0x00eb91708c92d833e9d796d95451ae1d6e6a13462f02a32a7b30b9a9a63acb8f);
    Four(R, PrimeP(), 4096 * m,
         0x9c17dbd2e5e19096ac5ed100c4c1925f51fdd766916de95258e24b3a6dc06114,
         0x0e6e118cdcb2f15a2a4b00045df961d3f50bbd0c9c1ce1b529c58f1759976ab0,
         0x7eb2ba6cc261b469fc66eecee573ea1bdcffddc1ab7bfefcfad7e60e4cb1c4fc,
         0x21805090f57e1140f757886426022772b43f1e60dd9641fd1e6b48fe586963c1,
         0x48e9d28f44a269fe97716243df1905e861b631fa233fa2c01b95b7e42f78525d,
         -0x10f3ec30c984a8c1fdebdd4a06b81d4248ba536e58a862cebf02be43be4670dd3,
         0x3eb46c4b150d226c9e637f46aecc2f41685d1f5324dc7a90d8877b7b97df4dd9,
         0x3cac2d2fb50894dcf0a4494095ab7b0a84e00b117702193f178f129c2317d359,
         0x40c42881280bd1f66e6f791f9f930a92b81e68278962d16ef078362488e54428,
         0x94a1c3ca4caeb7223dbee17c3f120fcbc84f879369f3085f6cac3d95f8efa3bf,
         0xac84e512bd8d4eece9d62cebcddf279ac98f7f67aadf59281d7723e9bdfbcaa2,
         0x17bda722ace1fe1175159a5c3a3da46513c5874530cf74e118698d6615d56170,
         0x1062aa8eb09683506c8eff09e044eee08229a5c7d9ce044741925e95280d2501,
         -0x1d2094a1fab20fbbc50b65cc1c8551c194b2afbf6bb80ca7ef7a280f265c6b51,
         0x69c306629cef4a4ac90d387bc256a8cad1a84cd487c0bcf4382d93c9bbecbc45,
         0xd0326e0cf1e4994f11b14e3b70a1783d0eac666ba8575742a80963467184ff78,
         0x04848a0714b0b45bd1bdc8e4b29aeec53b5e804747fe1c1778d6c100a946ef26,
         -0x745672d43edfdcb2e81945409d7117fc82832d7e055a64f8d5669bf2dbecd1d4,
         0x2bb18fcfcad1b4a3e4e02c332b037f826f7df8a4d27c3c169d35461febb6dc5d,
         -0x189bb68375053ace52203e01277380d23c54350291ae901052afd705b793b15b,
         0x84063339235ee83099f686e2684e2015e86a9c517279ea036c803a6d0d5b87b7,
         0x75836b4f978cdef208213952775360c17794016e2431ecef664ef1fd9cede83b,
         0x4d2e4aef60803a5033a4575099c1581a4d93ae6ba5a41b52a1c72d568dbefbd6,
         -0x1f74d0ff1feb141db3637330957c3f4f1ce1f0271a5cf530439b96fcd8c972397,
         0x441664f9a17dbdb6f41ea50e8ab73caf272ff4ec0bfab29ebd3ece3225eb625a,
         0x2ec46fa8fcd4aada738cfba21d9e8311aa12b8e05ee3abf8bad1964f36142361);
  }

  lemma Chain16(R: (nat, Point) -> bool, m: nat, k: nat)
    requires Closed(R, PrimeP()) && R(m, C_104) && R(k, U_32)
    ensures R(32768 * m + 32768 * k, C_120)
  {
    hide Closed;
    Plus(R, PrimeP(), m, k,
         0x75836b4f978cdef208213952775360c17794016e2431ecef664ef1fd9cede83b,
         0x4d2e4aef60803a5033a4575099c1581a4d93ae6ba5a41b52a1c72d568dbefbd6,
         0x618466bcb739585c20c44b7fc962d8671d94867054859361a18293ffe4a720e1,
         0x34587f80988db9bd798cb5da178ec512db9aec2fe35f85e0678b4e91f7c873b4,
         0xcb993d45deef7a169ea5fcca9924e0285740da25f48430ff961d4196cb8abb7c,
         0xeb26590892332d8f2daa49906423fd6123641184e123c44519207317c49dfcf7,
         0x9a5956c198b639c2dc64c68252d28cc674c2943144b78b2641d87d6e0a5f537e,
         -0x0fe730d37cce941808aef5146e2494f3d62fc229aa4737657f67e34bcb8b3a8a,
         0xa1ec62e7bdab0816f9ce5611c0bf575411edfa2679cca63abb3bfb3ff334a203,
         -0x5d8e9d0a0ddec6b6dbcd8e72b96c999042f933a0863d1052a849ca0e4e1a519c);
    Four(R, PrimeP(), m + k,
         0xeb26590892332d8f2daa49906423fd6123641184e123c44519207317c49dfcf7,
         0x9a5956c198b639c2dc64c68252d28cc674c2943144b78b2641d87d6e0a5f537e,
         0x2b533d0d75373494ab6e521e47c78b73ec0da04ed717f1dd6289e1ccfb6547e7,
         0x59edfe5995f1bf8e6b6bcb48214ae0d59e5529bdd21688d6fb2c844e1268d7cf,
         0x7e7de23520b7505e4b173e5581e2597d2905c566ff674a5a996997a47cd4f169,
         -0x253bfe4ed18eb522804d96f399938100d6d705e2208f4c2bc8fba0e6322fcee74,
         0x0755119331ff099aa0fde3ea5e767047f100a7f383946b0db3810144d12cdf4c,
         0x1893af22f3a4d533499aaef75b0c438cb52233098804adeb4b347e601b29a5cf,
         0x03befa847ff61fdd6e18d9c74828d6b81e4a67132f69487ecd9de0b41a2c1a54,
         0x4167f1a7d91677a678794125dbdd1057a4c235d748a0da40bdb0588d83621fea,
         0xa63646f2a966d0bbe27e51f66c2ddabeb447c7fc366b4d087eda9dbee762df24,
         -0x5b125a9831e32d26dedbb4f76fb6cf00831c3d2a9bdb8a5dcdf0a8e9fe87b4c8,
         0x000e0857ece2ccef561c3e366076f167d17147ba159e5879e23c5e17889ea3f8,
         0x005bdda31b42cc77877a66e381881fe0d47b0418393d9a6da1625ad4e9fa3769,
         0x6275c6e3ab21875eac97d9db4210b0230e22f3fc2585f92774dd7da0d884c580,
         0xb38c9c906b1a3dc2e6ea07d098fd7bc48d74d4391b439dadf4e4d9acf199695a,
         0x518b8e22afe96e4d05c7ace8cbc131de81702f9c55ccfdbc6897f02c9eba7a8e,
         0x4db8a56fc930c94c0a1069a6ae016e005c0706f29e744aecb93db39561faf9a9,
         0x25de6275db8371f0bb95693183ecffa209b2d4594b4984756b4f58a3b3ff692e,
         -0x2be68cdd2f1798d4c3186fffef5e1ca6f79a5a433523cf97f6a2a21474fabe4e,
         0xd9389a2e9be97a11907ea996b368ffd6f5b13e64747259f93d8cf9ce1343d0bf,
         0x1d7028e76172d2a46c9678374545663bfccfa13e53aff458c02bbc0f39d2b0e8,
         0x915762d4b73d82a5280fd60d1a532452ef5db0c3532ddb1afd2c3521492228fe,
         -0xef672a4b13f86c5c9356ce9824b46fb94ffd7c9c26e06104b88a152974f0c4fb,
         0xb85101e78de3250f51f1a4fc76da6874ba9def0b84b463226462cb11d4d4951b,
         0x7f5f4eac87a4eec7389576bbdaab3d3af9ed085b41079d9cff04c0e198e6667e);
    Four(R, PrimeP(), 16 * m + 16 * k,
         0x1d7028e76172d2a46c9678374545663bfccfa13e53aff458c02bbc0f39d2b0e8,
         0x915762d4b73d82a5280fd60d1a532452ef5db0c3532ddb1afd2c3521492228fe,
         0x6d2b2db140a44662dbb0d2b928059438937b3a997c32b1e9d2a32de34c966e93,
         0x92e58221a072e45baaf9620627a4e21ce5cdc988738237d8969a5cf7752a35c0,
         0x35b1fb7e45ad084cecd9831926f13c4138169bf6986a5347a04fa0ca76672f41,
         0x71cda22e0f1206a2d095562961df67c022006edfc35a64a4bb415833e2821b09,
         0x2e8dcc31814d32c55b4469f7f4b3ffa2143f969eb1658b3c4f2e6456dcc8ef27,
         -0x3216c6aaf02d07587ac649321b6111b51924451b527b4fd4b7ac76fa9b908fb9,
         0xeed006c163fc93fd183a319243175adf56dbe54d8ba546ff4abaa2c20d94165e,
         0x162f22802b3a00e0c74593b33550ac8688d520fc984166abdcd466caad40a9e1,
         0x2ed0aca70002fb78430f00067db2c47722392039c4fd92c7f032eb9e9619cccd,
         -0x98b18ee4f1d0adccf28b2a1904de26af7c5af2bc4932f87642c227e26232afbf,
         0xdec7759b6f2135fd6581a7892b6fd71969ecc102738a5ab22ff7e2522cf0cadd,
         0x7456e460bef27a27ab9631f37c27e4a6d69c8ecf009ad8095f1ac2ac62ce762c,
         0x51fe0b59b06c2784710da320afd77705e6a637f71d95a0b9b9977e3edc6862dc,
         0x86e3d6e880ae7cc5b5cf10787cc239d4e987112e6b6909b264266033c4308fb9,
         0x3d49f345d91f26f8825985804a5662ddd65a0d13f7bcf3569d6c52ae8f16c8f6,
         0x18388fabf8a6f175b84da07ed7780140c3eab9844c34855e9d4bdb49f5fb92e8,
         0x1a42bf4962621b7ef2a81455353540547b512ca79e6922a544a326be85c4b66b,
         -0x2419055f66e6b7c1037099dfcb7197dc557f5354daf35664d86abb504ee9349d,
         0x9a5be2bd4b0eefef974daf36cf337feab13d8ef573309cf5db7f5f5eed2c39b0,
         0xa058d3be85e5597d41aff5162c46cb43a34da86e880fac64fb44d0acac825c4a,
         0xe4825e7b06092055ffb8abebe768c27aae48d40ecdbc5157cfd4511928ca5302,
         -0x8b50f7730c235b80446724adbf98c7ba88a6d2d9bc91c67c776bb952fb314330,
         0x5d12adc716c6c78fd9c63231590f79d1de4facf1926c411b8beba9607363a2bc,
         -0x0f59833ac89abb72738b28c43d4cca630294c83b705f6d93730988aef369f758);
    Four(R, PrimeP(), 256 * m + 256 * k,
         0xa058d3be85e5597d41aff5162c46cb43a34da86e880fac64fb44d0acac825c4a,
         0xe4825e7b06092055ffb8abebe768c27aae48d40ecdbc5157cfd4511928ca5302,
         0x4385985de48bcd9ced1c5539dc3b8243a028a197f290d54c929be944a496e46d,
         0x46feebf9f24ed801234d9d4c793be1e26015c5e6b3b80cbcb27abda6578a11cd,
         0x4707f231cadef19194b9368c703843e632d2705d083b428fd848ad791e6539a0,
         -0xb4c2b994f15437d7491e2381f9996731b794d5d0cc7157aa7de78f1911366f8b,
         0x11cf3378e3af7c3278d28cf4cc3c56dc953396db4a18f187333ced7b8d0073f8,
         0x1791288c1a5d01ab6e1c0e7bd8135729b84bedb8c4f1a1e48b8dd9cb3de28169,
         0xe7e3a16f180935443c48030b0f3463af79df183d1f0eff933baf17ea2e70d877,
         0x8c40dad5764e8d75867a7f5d68c912c1c0a3af4dbc4ee293d92d2315e004e911,
         0x16095c83903fb8b98c7ce8fa37601ae7a524f982b3b12fe9b8ecee7e64b20c0e,
         0x459d7411e0d878d6cde8d2e671c9962e691ef1f894917e2158a40398996907b8,
         0xd20c97bf003ec2a5393cc76a03812513858f32bcda15e4c33bd2c34dabf0055a,
         -0x3ebc13aba4cd2776751dd567776d163d1311ded59be4f0bee3d97974006d49b6,
         0x10f293ca565515a23cf4767749bacee2574c7dcc90279ee5a7a633def58b1a62,
         0x7b20f23fb01cfb79a674f179ee94c3bb55cfc28d91ba68f8ecee4f82dda952ad,
         0x0f39b679a18bd5a9439e4b5ce5db39b2098d8bbc8f8429f817004ac049887836,
         -0xe39a10a2d0874e20ca8984d8d92e13ced47ae72984b8f6d23ff675ad8fd03958,
         0x011f38550bc712f84b3d647b7491c23b9caae2a48d097df656e83ba1608f174b,
         0x01223896169c9cbbb02e1708f282686a3ddee9fb505461156115075a1d98c9fc,
         0xf475e468f374711a7faadca054f40297058d68c5c7040b5727b8b81f02e2fa5b,
         0x99713920c368d6d49b6340b41374a6b725584255b42552ee4dec52b703d6230f,
         0xcf8201e85666f2d4a6fd1cd249812705acbc36b6a91ea429fba7bf50ac25cc9e,
         -0x9495fd509dc07c918222ce14e90c88b80139548e736bcc47ee8dd4e909cf13ac,
         0xe970f1b38d408e6aa8ff60157c68f06016a2de6b6f16428e90152a8a55a6ec10,
         -0x1cf2794af4c5d5b485e2ea7ed1a051fc898311f8c76da0a39df22c0efa5ff456);
    Twice(R, PrimeP(), 4096 * m + 4096 * k,
          0x99713920c368d6d49b6340b41374a6b725584255b42552ee4dec52b703d6230f,
          0xcf8201e85666f2d4a6fd1cd249812705acbc36b6a91ea429fba7bf50ac25cc9e,
          0xeba9594b0edc39b7326b68735ae36551456313c10c7f43482759d72937617aac,
          0x2191fbb0b4deb84a771d52c6db5b7ed60c7c27afb3169f70ae013296ce0b419d,
          0x3e2fb174d7180a37dfe7f87a143aaf124866885308bf2aabfd1f148cda98e9e3,
          0x6a21a0d3a15e52584d979fa7f11a63d86b4865e969ec212d4071c080a615c450,
          0xd8f059f7aa779108320100cdbba9d462fa4021b4394fc5bd11009d18bc97242b,
          0x6e5939959c63e5e9d79498e83733b912d848546a68d82ff3a2441305c8cce9e9);
    Twice(R, PrimeP(), 8192 * m + 8192 * k,
          0x2191fbb0b4deb84a771d52c6db5b7ed60c7c27afb3169f70ae013296ce0b419d,
          0x3e2fb174d7180a37dfe7f87a143aaf124866885308bf2aabfd1f148cda98e9e3,
          0x3e0d64b9245143b7844fae049f513663d2c107cdda373abe5af783aaf3c16c8d,
          0xe5e9b6c278031ee6d67c7066f05f88e36c90fd6cf9c54c8b866267495d7957e8,
          0xaffa121c5041e1a24596203907db4c288154ecd18a3d956447587088f4724f21,
          0x10f0b953f76df93d3db4c9dc4c9ccfa24084e019460c31c21c34ac8eb4de22ca,
          0x0f0a7d7d1f10b4cfd4427327a3341842f428485d9410beedac398cfa70ee9579,
          -0x2f978503411508c6ca2136bd6d26c1377ac310e0b70d2fdede1f5018c05fdbad);
    Twice(R, PrimeP(), 16384 * m + 16384 * k,
          0xe5e9b6c278031ee6d67c7066f05f88e36c90fd6cf9c54c8b866267495d7957e8,
          0xaffa121c5041e1a24596203907db4c288154ecd18a3d956447587088f4724f21,
          0x89ce98d405ea331251a62c5605990f0ccd4014a3dbbcc06ecc8e641c543f67b1,
          0x94364f224fde45ef367e6dced6f1442ccfa6d13d5a402be2142445cfbaf98119,
          0xec4743c9c9a0499ccc2c487b01e0b1176cdacd49473106b7823c82d6d1d9b9b9,
          -0x1adfe3310183c8b40c29693210f79a6308b412f24778d205773059c66457d72e5,
          0x4a2ec64d88f96c80f4573ca3868a490dba6963384cf3804fedf271ea1ace4888,
          0x2bfaf19874531f21f30ef6d4c554f212158f695d872c9de6d630934f338a3abb);
  }

  lemma Chain17(R: (nat, Point) -> bool, m: nat)
    requires Closed(R, PrimeP()) && R(m, C_120)
    ensures R(65536 * m, C_136)
  {
    hide Closed;
    Four(R, PrimeP(), m,
         0x94364f224fde45ef367e6dced6f1442ccfa6d13d5a402be2142445cfbaf98119,
         0xec4743c9c9a0499ccc2c487b01e0b1176cdacd49473106b7823c82d6d1d9b9b9,
         0x074c318957d59feafd656bdc1209f9e8b4aeea426991fe2ba4e8fa26a491f2c7,
         0xcedbba90b3e06302f37d7fc8b43f47fad95b1e73e62a41d922ac0d4393eaf883,
         0xf120ae2e45c53a864350cc1846a1e22df5768a38bcf3b8d5fc14e69faccab534,
         -0xf3f3f99a529b98f570bb0491f1c61e3496c994e34f6f0a91ac516aa727fde44e,
         0x00354162f624f447ab51b67c0bd60ccbe198b7c5931d5fe9f6f8878b26332404,
         -0x01abfa650b6380d09c415a2d5d43d3527b96af605ee827cb897939670fbb89ad,
         0xe3646bac638d354e623c6083101cda5e6636350d6a47910f8144234beea1604e,
         0xa5a202a7bcd85012318fabbbc7990123cf08a56e48a2fb34ed30d1a8e639f750,
         0xabd34c7f9990c334380a2da5eb348fe9bd11c06b850f168f2c356e834e0d02b9,
         -0x4915f548eb3c111288bf4fe4931f034f969120aa383541ab8895b456d6a73298,
         0xc9fb3e58ce7f0080a2fd410c86b1b7c45d5238c9fffe97339bc4b5b0bfb95092,
         0x249e59f67159012e7d66ea558d9cc7fb19c611af44409bb842110c7f83633a63,
         0x766b55516956bbc5e44ea941b22e2271819570dc2ea949c715eac223ce0815c3,
         0xa985a78f114337ebebc1b2daedd159f206c9077c94ea6ed24d238a399528ec02,
         0x1f3c32470b17608f7362293eb370360362ed395528efb54375ff3d61fc42e413,
         -0xa287da2c35a3d13ad67eca29299e311cd1c2d809d483ba1b3e688f13803214d9,
         0x36c71fa7b2604d1a4e6b0b7e675d94d09f9c0a7f0d4316722406aaf22f934819,
         -0x01cc8f7461c7cb316b0ecb21b04892df3d42662ed548911ee8acc6d6fa091b9e,
         0x574ea46e74b7210c9367b4d6ffa430a0643932246e1b381385efc1bb87d7f469,
         0x88fad29148f723c1b6b342c339eaf6bcc2ec706e9cc86c5d4524c6956f8554a3,
         0xf7b3a2bba8b6db054d1a1a8f2c5661d05bd47b038b4562ff31d35f3946241397,
         -0x13b771c0d815cf5ae58f07ad5d48c65282e674d55d5016f51efbf836ec8f23f8d,
         0x1dc68bebce07d92d850a99fd426ffafeb8ef8cc12d90bd090d42fdaf6a20d996,
         0x0b192d962a6e58f028b5335b5a76172491f20fe188beabce2ed7d7cbac3e55b3);
    Four(R, PrimeP(), 16 * m,
         0x88fad29148f723c1b6b342c339eaf6bcc2ec706e9cc86c5d4524c6956f8554a3,
         0xf7b3a2bba8b6db054d1a1a8f2c5661d05bd47b038b4562ff31d35f3946241397,
         0x9247ecdcfa235ea60a8f607cffd365a0ee12708c3d05ddd9bec5e856b4aea763,
         0x5854e7e87212a8b4445bdbbe620b5d0af0aed80d2c6778abf263df8230a6def9,
         0x02e00e6d9d4ae4b76cdfb3eacb07393173260bf3ae3ab19f299d67e9f66c807a,
         0x3f31b532791f85a08efd7ed392a6f9f2c761f7b887ef960bab4d5de2eb51f68e,
         0x53961e619ea161e546e693b392c1ce9d3476fd2cb47f0371760d739ddfab37f6,
         0x1bcc4adb6da0416edc410e8271b149c7fc01cc9b572c3b697ba11fa34c3b2d53,
         0xecc148f099c5b07d965e6c8dfa29d83bde413659d6de7d34bb4cf541ef7e6e77,
         0x03c094b92d1dcbce146d17ee1c3c4e99c6d1d3c00b430a6d49cbbe2ad663834b,
         0xf22d5ceb6b02c0901c0dd4b013a3ed78527d5540ace0d2d7ab7f9542c94a552c,
         -0x561e00b77e4ecb80c04845f069eb825693be65f58e0802264433ce18b3fddedc,
         0xdaf4f06b8609828637feda4e6c144fee058efaf63870b796403a4e0e18e2c5ec,
         0x4e38989bcdae8eba7bc1abeeb1c6b3867faea5e23fd2b1046e4ed7dc475e73c4,
         0xc2c512db09996d20facb085f93abb248642e3fafbcdacc28b2e9f25d70f61199,
         0xf441b888ff8b026930d459b0365e60edae48cff04efe1862e71236486831354b,
         0x841de83008b4643076a02c49e727fc1b7cc2068d784a7d30ac193fdbd4c54293,
         0x170576140c406c9a68ce33e43fb717d371cf411536198faf106248c79ef4de150,
         0x942f484a953c2094f2200cc7b1ee580af01907b3375c395c3041698861b68e70,
         -0xb6fb023b9f61a132d829c4f48b9434331d9d31012cdbf1e9331da6fd892f0641,
         0x48a29cb460ea2d0c3b68947f8099896cd8eef7d0eb01b615055b0dbf2d55bd13,
         0xa6d429ec3440f200e3eb58c7842edb69b662343818f5b7dbcacb0963a9899cd9,
         0xc94544dbfc0add003b048a9286257d30e72fdd4f836c43803cac14445fdb269b,
         -0x2702f5fbc12959f2016b53d16ef56456193cf5adcd0ff4a49fb1813b597c883ea,
         0x149bdf703f56965de487746bddca8dbc95c85ab2c37751cd0c42246ab1a8f806,
         0x15f7fed5bf9d33b0901438fc87fea160075ac752d1013b02f992d3e4aac9eeb8);
    Four(R, PrimeP(), 256 * m,
         0xa6d429ec3440f200e3eb58c7842edb69b662343818f5b7dbcacb0963a9899cd9,
         0xc94544dbfc0add003b048a9286257d30e72fdd4f836c43803cac14445fdb269b,
         0xe5299495b4d1ff37b77d18d71f0296af7ca3de4a393d5fb77cf5ad629763f819,
         0xb199b926a2e39b95fa9f98b76adb15f961b947eb7f995801267c64df88db480d,
         0x22c56f0e6969fb81d234fa8f1cf98f5006517d8e883788d74bba75d411790c59,
         0x222fcc69e29d3fc0d2697e6e919ef94b5763222c9196e7511c2e7fe73d95b58a,
         0xcd236a9590d47910fd13212b8c6a6fa685665008d9be81b444d5a4cb8a280f4e,
         -0x09a47903c25d9677d3f40b1aae0baeacc289df109ff79b0a8a4d4ffec0bbb4f8,
         0xacab46b4727a33897e8938024a1ee2923686b350f5ea25fe0a35efe8b90f888d,
         0xd14896ddde26fe8f408fb8d25a82143122d63e67598ffdff954fe1eee7703758,
         0x0b249ae7eaecd7b42f99519f56f9c2bc4160e42a003615fb1bb82094340b5e8d,
         -0x142b9f6d1545c8da8015d097fae453783ab4e3b7a5dba946389c6786b71543812,
         0x7476999a76e2ebe7a15c7ba9aad8fc2917594cbab70cc001610071d0e5caa9c9,
         -0x155eaf857053898427051c0bc64dbe34e5794d6f8b561c92897a51424aeef0cb,
         0x775e7c437dbca5821071aabe4c867edea4b2d0f99697ba86ccf392b1f8f523f8,
         0x5208f67dc09f96fbea52dfc2c798dbc49afbbec6107d91d0618cab2c508f5944,
         0xc226c5a0c4aef3791bd1b5d2260651c7f358e531164f96746074a2ff1b62728d,
         -0x1f6e28f0db15212c331d38c8b6424bd66dbbf69a9584f8187b6f6f73a40def473,
         0x37a8fa6674702668826b52df9be035e5743709e16572b7c8313df1abc1b207b4,
         0x3b558aae2a2fb14e22803e07de3ef4108fd7caa04991be486f11ec447e15f1ba,
         0x144f50e14100a377c3fa8cd47e26a4392419c429bf2e6c150507a583171d5edf,
         0x2ee4ec7587650949216dba1f1065519810e8693403dbe2994d644868f1376e27,
         0x07b32435b81628657b5df622c679e148eed5bf51f714ff18202cc2f38ce02298,
         -0x300edd2ddf9e33545c5ca2959e11d19d8e064f35b97ff9fdc8fbe571404c0f79,
         0x019c7d36385843f98b11676dc1ec5c7126b073ed20c0a567a3dac61cdea79a6e,
         0x02c9b401ee87903eafecc7368e1c3d70689709283a0682eaec2aecd4150f20e2);
    Four(R, PrimeP(), 4096 * m,
         0x2ee4ec7587650949216dba1f1065519810e8693403dbe2994d644868f1376e27,
         0x07b32435b81628657b5df622c679e148eed5bf51f714ff18202cc2f38ce02298,
         0x207bec157a964153d703a61469ae7f9dde7f66226de1e61d2cc1f4081c254c01,
         0x1e0536405add2e853f74b68b9afd1994dabc75ad660fdc303f8d4751a895ccfd,
         0xad2d399ec1975a03faddb3b5c2409d7a21f66284ec30a0cf3bf76673a954f7f4,
         -0x17d0f7ab21e4ec6095c982727c68c50cc89651bf42b5ba423633402597c3e760,
         0x041f370219202f8c311f5a3552b25ba95cc40594ee79e4e30a850204442a114a,
         0x022421d2d9a8fe13c30b9ebad34ea11aa1f78bc2210f23ecba5800730ea90162,
         0x669bbe7356fb65c103540612ff1ba57690f9bad10355cd27ab6200b6082a075a,
         0x12c7ecebaf0c013df0cc505ba1198456b55b1da4d7c51521c8bee2bc06d697b6,
         0xc297dcf3ed52341a98c8a812b951bd4f2759f92c797e9fad5d287af40781d4e4,
         0x804315e338b23fca36a9e08a367d054d7dc08f03bc85f15980ed3d84a694e688,
         0x29207a843fcb8d1b8b81dac5dfadc1bc67e72b011f4584a6ceec560b4e44260c,
         0x048141afb4010a1ff09a98af46a13cfc20d996500571d02b321809dda38320e2,
         0x83233cb9cbe5891e91aa4b3fbb02796f2788c144e66fda36df8da460b6ca13b8,
         0xb39a6695d647c4afcc95368e0d50dec3026279103369fd9444aac135ba8f088b,
         0xc867b6c605a6b84d1a497dc9edefb20a2bd74e0b616b9190916010d566607021,
         0xc33ad1a074f7aa1b025d81fef6ffce0d1cd91ce00e25898edea3946b5a84c069,
         0x432d1500130f5e8483bebed3ae0e169a019a6cc8e804fe870a220921085763b7,
         -0x5261d72f136daf6ab2ad9e9e6084f79ccd9056a8d7f78a6b2edbd0c63f1ad2e3,
         0x4748d91c04602565fcceda28ab2acc13813f3ec672ee684e7a1d3134ec0b57ce,
         0x498a396997234aa91901fb2b8cc4a8f8b09cf9e49bd02d60da263bca8bd3b2e1,
         0x00097d32c948220ab409c131c9c7b90bae24fa4fb8c6dcdc8e350674004d18c9,
         -0x10a68441c0f9ae2b634e0d45f437b96e87ac089f305679e189eb715cd3387f0b4,
         0x13d97d287629ca77f26b78d9ff071465cc649a0198edaf7210f24c2187201a33,
         0x1d88ab07695d13c2862cdd9927a090335f89cf779c78539ac335a89abb83d41e);
  }

  lemma Chain18(R: (nat, Point) -> bool, m: nat, k: nat, k2: nat, k3: nat, k4: nat)
    requires Closed(R, PrimeP()) && R(m, C_136) && R(k, U_32) && R(k2, T_11) && R(k3, T_3) && R(k4, T_7)
    ensures R(4096 * m + 2048 * k + 128 * k2 + 32 * k3 + k4, C_152)
  {
    hide Closed;
    Twice(R, PrimeP(), m,
          0x498a396997234aa91901fb2b8cc4a8f8b09cf9e49bd02d60da263bca8bd3b2e1,
          0x00097d32c948220ab409c131c9c7b90bae24fa4fb8c6dcdc8e350674004d18c9,
          0xfd1dc0f1a19995ee63bdd49e12c701f872956ccc020314c0f725edef1f5093ba,
          0x0d20b2642d87bdc3885ae2a9aafd92963e4ba877bf4712ab152a3d160aa030c2,
          0x7f88027c5f8ceb5b92dc73c6034abd4aa601340e5a71ba6458c8cf9f512fb961,
          -0x3f4d9a75b2f954e0b136bff8f1e469ac83afd81c5fa14e6975db29391073dcd4,
          0xfa43d2d3dbd7587014cfc00dc874ccd2a3f536a8f5e79cba7be3de3b6cc87360,
          0x3bbb4fed0b75c87581af09a8ddc2887d4b2ed52ae5a4741c9a8f55f173a87aa4);
    Plus(R, PrimeP(), 2 * m, k,
         0x0d20b2642d87bdc3885ae2a9aafd92963e4ba877bf4712ab152a3d160aa030c2,
         0x7f88027c5f8ceb5b92dc73c6034abd4aa601340e5a71ba6458c8cf9f512fb961,
         0x618466bcb739585c20c44b7fc962d8671d94867054859361a18293ffe4a720e1,
         0x34587f80988db9bd798cb5da178ec512db9aec2fe35f85e0678b4e91f7c873b4,
         0x298c6eafaf03deb3c6d277a71650c550c8a87644e794770945c8a4a4f7b828b1,
         0x8748c7d085779cd58a8899e9edeae71b210c293b42286c1cd5da5cd76d1d1bd3,
         0xed9665185905b41dab7f4487caf56539c968ff826be42303b0d2bc6a71773d50,
         0x0db242e59d82c456595362791a76b69fcd9fb2efd277a0460d2ac6ab52ffdce4,
         0x06be487d8cd06506c2b6403f102603fbd4c0b2e8a1558a56462b6025497ca315,
         -0x13d36e2b3347624e0a561097a36c06f641d0743282eb151475bd7c634507da8e);
    Four(R, PrimeP(), 2 * m + k,
         0x8748c7d085779cd58a8899e9edeae71b210c293b42286c1cd5da5cd76d1d1bd3,
         0xed9665185905b41dab7f4487caf56539c968ff826be42303b0d2bc6a71773d50,
         0x7bbd682ca56c620e51834596d63c8a983bd853d89d0ae8eeb7a9f016e8db674e,
         0xcd2299c359da198339545ab0e4acf9ac434bfa00ec13fbaaa5393692534d5fde,
         0x0cb8a2e5d2e4445dfbbb7d15674b5e1b9830e3652ae2434e64d265225bf8342e,
         0x0f3490470187d59363a8c64b1a6075ef934ebded9069c1bea1635131fd9cd2f8,
         0x3bcf8e3e1f1644b1c69172975e732010089d7c076ec748d42cbb8791e463bbc0,
         -0x21c3561c79f327b5bad501e1fbd9862ef83a2eee4f47d3fc1e2882fd77126628,
         0x273d1d57d84d64783d0b1759cc9ae412da7c982eae81947618e6d74856e416ea,
         0x5daca3c94a36ca1f4a386f1c3436320ec5bacd10f8f0e040f58c88a3698ed064,
         0x507e2132ebfdabcca90959e18ad690a91bf05e649f3f44a9d6d4cfba84893e66,
         -0x1e93af847e7ffa084a2faa4106ca62d850d5d540663a6845ed8ed2f5c5a4fbe8f,
         0x0603ad87c9255c2c8b285f89bebf864d54955284b12fab55173efb8a054c823c,
         0x1115945b622e54e2ad31b265ac8925b61f43bab76213d1a685dbae2a1355d110,
         0xe6a5a90758bf835ecfa748ee848f56960ca416ce44bb2bffd4283c59db2b2704,
         0x34cb3aeca10ff090d45fe5e5902eda843bff6d55d0866fb92c87cd1b81a24469,
         0xeded54068ac147d3e7d6ae2c7906d4259c8bf9f5f11934ea7ad2837435149e3d,
         0x2a3626435edbec344f95332bab8fb515e1d5ddc5bdd6c5b49ca065e23226edfd,
         0xcfce16ed5659513d109415f106fb2684ddad0778c62ee9e1ec7301935b75ad21,
         0x24d4f87cf59680e3e080fbc53657302a211192342363721ae483e1fbd46f6fb7,
         0x7807828583c92f8f0a183a3770ff79e3404c083ebe87edc35faacdb22bd3db13,
         0xd00ee15ab4c2e790fde88cd7b319b331d46cf85545e16ef375c54985095d505a,
         0x7ca35826d4ca6e355bbfeaa0372113d8ddba7a58b9d218c5c9c7194d02970c43,
         0xbe72e08ac8f88319f730fed077314520abf7bad10b398a77c5de15cced29fe22,
         0x38470a95c9acbba6cbdf2aa15f3f66d880e0afb98a13194a789ef464cdd655c3,
         -0x48cc4406c3a1b20499b096539b613deda8db14fef7326e78e7f84b8e5f98479d);
    Plus(R, PrimeP(), 32 * m + 16 * k, k2,
         0xd00ee15ab4c2e790fde88cd7b319b331d46cf85545e16ef375c54985095d505a,
         0x7ca35826d4ca6e355bbfeaa0372113d8ddba7a58b9d218c5c9c7194d02970c43,
         0x3ed113b7883b4c590638379db0c21cda16742ed0255048bf433391d374bc21d1,
         0x9099209accc4c8a224c843afa4f4c68a090d04da5e9889dae2f8eefce82a3740,
         0xf858be3efa21f88d048f14d6b3c99ed05ef432be8bd5f68aa394d93736f721c3,
         0x78303515700e6722fa41f5f547c71f42cc989d6d59d8a7d00c2c7ae070ac4366,
         0xb0e533c9e15bd3b02346b0ed40ceed89d019b432e164a2a246cd95a4b2f328b3,
         -0x8ce63864e9a16ebe1a51f48b2896f48b8095de8d34cceb7e3629d21f5077b9a8,
         0xf0ec0f5e4e3b631200e3c37a0d6b91b145ba4fec6d144b71c8730d9e8007db08,
         0x553e2cbb8940e6368084d2e4cc0d63b995b13028e323fcde1a72c7e79c95e31a);
    Twice(R, PrimeP(), 32 * m + 16 * k + k2,
          0x78303515700e6722fa41f5f547c71f42cc989d6d59d8a7d00c2c7ae070ac4366,
          0xb0e533c9e15bd3b02346b0ed40ceed89d019b432e164a2a246cd95a4b2f328b3,
          0xc5b005dc9624a5e46ffdbd3d9759ec611fb2fe356615359d8356d5fff090beaa,
          0x30f524d4b0c6a095b27b9532e58af91456a5229a1e9f25c98de00ba9d79cb7d0,
          0x91e9218e46c08dcb3dfe5cfc19b116261af55e9f0cd927505781c3549123304c,
          0x67ec546dfb8371d5ef48f548adee8fe801bb311750cf3160d6a9a355a3afe42d,
          0x98a8620e272d97b31282bc7117746d4c54a94718a6e28a51904e8f68ebb475b8,
          0x37016dbebe91343f63e88a9e82e1075160026379b06baf433aca7518f1ca5363);
    Twice(R, PrimeP(), 64 * m + 32 * k + 2 * k2,
          0x30f524d4b0c6a095b27b9532e58af91456a5229a1e9f25c98de00ba9d79cb7d0,
          0x91e9218e46c08dcb3dfe5cfc19b116261af55e9f0cd927505781c3549123304c,
          0x8caa2f7ece2703143018c8da2e07c0b1f1cafd6841adf37482b3261d38b9e9a4,
          0x1aec21a4e29fb72914f903855ce5a78142b8e889db00078ec2e24c2b2fa7eeaa,
          0x855cbaef02dcf13b1129003733996809b10b699f39fab30e377dcc1a0200e8f9,
          0x844272cb0555e5b340aaa2a3617e3b427577633d13104d1a40caa82eab98e19d,
          0x4d4a95161bfedac5e1aa82b809871e315337158cae66690d7b3ce71b9a9d6d3a,
          0x0c1b93d0e05bb5e3a49350778285db80b327e56482ef52e32bb9423982c9a6ed);
    Plus(R, PrimeP(), 128 * m + 64 * k + 4 * k2, k3,
         0x1aec21a4e29fb72914f903855ce5a78142b8e889db00078ec2e24c2b2fa7eeaa,
         0x855cbaef02dcf13b1129003733996809b10b699f39fab30e377dcc1a0200e8f9,
         0x5ecbe4d1a6330a44c8f7ef951d4bf165e6c6b721efada985fb41661bc6e7fd6c,
         0x8734640c4998ff7e374b06ce1a64a2ecd82ab036384fb83d9a79b127a27d5032,
         0x3ec5b2afc01de892b3a3f4190eddc8d30ad7cc5764e1ea066ad5eb262a8b727a,
         0x93becc886afa689b744c94012578f800ae1d6295f677f50152c2e260f030bf32,
         0xc774fe5cff4e0a9249880360266b0e24cd2fe71db9f3468abb5c348134beff03,
         0x10a49bd6481016505fb3425c974cb6d4d83302a098bec8dcc1317c0b2e0cfac5,
         0x0f645b39afa965ba718dc9cebf402095cdb82cdd8a23e1b7dd3e8eea5b13c924,
         -0x1da053d6273f5cbfb8f044335bc712d5273b0514195a33101b90b15a91582734);
    Four(R, PrimeP(), 128 * m + 64 * k + 4 * k2 + k3,
         0x93becc886afa689b744c94012578f800ae1d6295f677f50152c2e260f030bf32,
         0xc774fe5cff4e0a9249880360266b0e24cd2fe71db9f3468abb5c348134beff03,
         0x674be996a79b1ffa91230f8457289247595753941f964900da839dfeaa64d097,
         0x2ad8057e55c876bcc9fab533b74a82cfc775bc8cd4336d0567836c9dd4783636,
         0x6b967ec9bef09bd25808c29eb1a2ba1a1b38abf1db5708be6f61568291440336,
         -0x5ed798117fe9b1d40ae6d530eb335e840513dcb32dd1da1dce1f262bc96ac441,
         0x29ae2c7a17f6cadb839f36f58f715c6ce5d3a21270e0c8432d2e02ff88ebfb89,
         0x2a53f5694fde2d3b2e9487043aba00177917d20e2467b1e5e9f2b953a26d7595,
         0xee5e7e6600de627f082365e48c6f6688ca2c9ead6d077753c293089bd937b41e,
         0xea071d57a6e452bde848b0d819a52190d80b53fba3a09a2e38e5788b85099bb2,
         0x18303c1eaee5b4645d0746417b41f1fb3d66c55709a0727e55b7fcb87dd40ac2,
         0xb2d8783ea3207a6045fc78db07f4c0ea23b762abf619a916c6f742784ca7c981,
         0xddf3d5e798e289dadd86c9d35c544f749aa932362a52c55a7872d9f96e5bd49a,
         -0xb20459dcd85e9387945853e86b300632f7c44ced837faa8d04e1a66d1adedd80,
         0xcd91cc334db87c39c7ce70cfb2f30b7c6860531fb6369667b92df117f1189eff,
         0x5c9a9d9500bc17cc301d541815f139976a688f7f2bb306a0f0c110448c337ac3,
         0x3f6e98b6fd2051244d3c6f5e8403f83a54c7845c24e131b17d44345a777c5cff,
         -0x25afa38031c27fda639f816268ba932d46b9065f33d2fbbf920966b6de275cf33,
         0xa512d413c48c242a78045dc354ef987f758a14e4af4f07295e0df3cf45b6f026,
         0x71906d927b3adec7ff587c5def4e09fce26bf3f670077a1e7632a73fda4a17b0,
         0x6a87849d55621a0d54421c8bc664857f96ad67b0e6dda85183cdc7fa9657308d,
         0x5cf08cc89f937424fdedeefe87f922eccf0a7c7a56664697a0d59104665a557d,
         0xa454e2702f10defcc8c056a034555546a3fe8b5ebced47a47e3b715f1d6d5eef,
         -0x2fb3bd1ac206746f7bb9f10f6f0625deab2cd37adcbdfc15f7a6cf5e057ebf4e,
         0x2c54818f99ac6d58f2d987498a39ddedd2b19131920afc45ea755d9239b61d5a,
         -0x0023c2890848ac416a283bfd3c934a529d44e54716b17a8b732160b2a976eba0);
    Twice(R, PrimeP(), 2048 * m + 1024 * k + 64 * k2 + 16 * k3,
          0x5cf08cc89f937424fdedeefe87f922eccf0a7c7a56664697a0d59104665a557d,
          0xa454e2702f10defcc8c056a034555546a3fe8b5ebced47a47e3b715f1d6d5eef,
          0x23dd65f27fb8322ef0afe44464cf5745f641339de1ab69269d1bb29305dc990b,
          0x9a41ae46df88895208ac03061f03c8a6d1bcf0fcdfe9a375748abeeb460f7b0d,
          0x6cc0fe1189e109de6377e648b9aba3edfe2ab207de33b611d13fe615ccba3ac3,
          -0x372de24dae5860fee65e5ea48e28e50ec7b5e319da61d43ef18085cc46571972,
          0x05064959813c699606a1f953edd4b865ff339bcb9237228a6f9676403e5dff8e,
          -0x08971f094cd2ae08a6dc0703a57debd1639ad706b3f9c0feab3338d41ddcb91e);
    Plus(R, PrimeP(), 4096 * m + 2048 * k + 128 * k2 + 32 * k3, k4,
         0x9a41ae46df88895208ac03061f03c8a6d1bcf0fcdfe9a375748abeeb460f7b0d,
         0x6cc0fe1189e109de6377e648b9aba3edfe2ab207de33b611d13fe615ccba3ac3,
         0x8e533b6fa0bf7b4625bb30667c01fb607ef9f8b8a80fef5b300628703187b2a3,
         0x73eb1dbde03318366d069f83a6f5900053c73633cb041b21c55e1a86c1f400b4,
         0x93e27c95e470adc6b307f50ff2df73d45fe5d3422493aed9b1a59a50ff3ffb3c,
         0xf4cb17fb0f71f3ba8968eb52b42ab5dab57d98871e1ff8f126eb04c40384d64f,
         0x8fd1eab70c0e9481787f2b7de03748fdb590f56744727679dacfb803391fa053,
         -0x06e47a417e061334f73a12f591385d46db4c16a11b329954cc362669315d5337,
         0x556de374af102f0a3d6d36f11ed62cfb8024184840cf016d7762302055054def,
         -0x344d01118eda5e081aa94e457ae2d5c6bba1c00f2f7d09ebcab9c2f04eed0b72);
  }

  lemma Chain19(R: (nat, Point) -> bool, m: nat, k: nat, k2: nat)
    requires Closed(R, PrimeP()) && R(m, C_152) && R(k, T_13) && R(k2, T_15)
    ensures R(16384 * m + 256 * k + 16 * k2, C_168)
  {
    hide Closed;
    Four(R, PrimeP(), m,
         0xf4cb17fb0f71f3ba8968eb52b42ab5dab57d98871e1ff8f126eb04c40384d64f,
         0x8fd1eab70c0e9481787f2b7de03748fdb590f56744727679dacfb803391fa053,
         0xaf4aebf985cfa16ba0a6d619d9a6e023514f5bb08c62d76b0420577c88407f52,
         0x34c6411818e018562416ce796c0fa0880996e88a226a373ac70233a6ca5b4929,
         0x3194ec77203b8f7bdf664e910439b090cd4d698684609c75515fa72159c036da,
         -0x1f946271d22e78da701202270bc0cbd3ce4f049b6b8108b77dcbbf08ba6348a0c,
         0x7807848ce2bece27a8c94536fcf21b719b6909f016d2094692ce9237c9127f83,
         0x837b814b61fa182914546ede7832ab19bbbb40eee61ef6c71a5a3ea52d0ac701,
         0xad5555a05bce9b2281eabcab4e0aaaf83beca658b0c6b730bf3e204f948e8da0,
         0x0f59cab9c200cd1032b9b790626393051bf4023eb730f6ad1dd44a5aa650fed5,
         0x642690bc9f44eb280f0f50e38538f831b4fdc996d43e304618af9f66f6a9fca1,
         0x2280e9b98a1f1f17924c33c50cb6b95838d371749d2d7dc0920263c68da28530,
         0x755c722d2a92887673eafd9af33311249de96bb4fa48dee0a8c025c5cf2ded27,
         0x1956c5859be1935eb44936078b35596668c7a2ce7c3524f8e1fd267e54737afb,
         0x483de7956274d82c64f1a4dc18fccd7e45b35343f872e56a8a8bee2d07c8d126,
         0xded7aad47be12aafb7bf29634e6f67bd135f7202b3534ab25ab6ebb40de80b67,
         0x9adfe0331c072c3c1b22c158174d3ddb335c7d0c58b71ca17e87d76f99e5a08a,
         0x35c3313cb513b5a51fd81f1401a0b35c1081feac73618cae0c360e4929dc35dc,
         0x1462e13c4a74755ed40308b71d5f3bf71b895578747f509f5d62b815d04af76d,
         -0x3a8d93b9ce7b69d65c39b4e485ca86769a4bcd9457903ae0af39974dedb15329,
         0xae3e2903620c37d55d0ea6b3e1fc67d79e179eaa446f69c274092307b5504d8a,
         0xfb327112c18dd4f830271a97633b763b80042c8057c41681bc26f8833229b4c6,
         0xffb0443282ec4842fa685edaf68d2983afc6bc55a87a00d7f59ba6e9b55f84fe,
         -0x1731cbb164fd4148306e053faac56436a863834be04e9bca982373bfa24ce0e78,
         0x76988ed8f416be1cef102f1cc478dbd703a7a31c0bc751048dde2f899c3d7d30,
         -0x134c95455369370b7bd054881280f8314f783c35bc0ef4afe3f2ec374cb3fa42);
    Twice(R, PrimeP(), 16 * m,
          0xfb327112c18dd4f830271a97633b763b80042c8057c41681bc26f8833229b4c6,
          0xffb0443282ec4842fa685edaf68d2983afc6bc55a87a00d7f59ba6e9b55f84fe,
          0x57f70416236071624d21878e8af0182cd0d4c71067dd9430dcdacf3a52c7f258,
          0xa3f8b20ecf12853da3b2345f0f6bd7d4cf505ba23dbac958a81451666cf8bbee,
          0x7b3ff85632daa06af862bbf259ffb1610cbb118197fbf3135b6c42bb1aa7812a,
          -0x233bc9e5bf8a31cfa9aae5483ac735cb6697d1563047431df166ff23a86c68b37,
          0x1e39d3200d0e5750a7f437ab7d6ddefcb76579d9a0c651232b396f21c711a73a,
          0x1df8ca06342fe2a0541d8ea0c780984ed5ecf283b2225ac6dbdf43a21c0d4be8);
    Twice(R, PrimeP(), 32 * m,
          0xa3f8b20ecf12853da3b2345f0f6bd7d4cf505ba23dbac958a81451666cf8bbee,
          0x7b3ff85632daa06af862bbf259ffb1610cbb118197fbf3135b6c42bb1aa7812a,
          0xdfe0b4214974e9710e5d25ca2ad23f73b45b5e6c55154dc395f6352cb7110447,
          0xc0ada0b46fc24d257720c969d3596abb958cb9f20f5d6646117a0064b9154701,
          0xc820e63e46e573d3854053f4d40092c83d836bb89c6ca9bcd499745b0e218296,
          -0x63821cfe9a5015ec2985eb001569149d54411c861541cfbba0c02246d3464183,
          0xc3c93f0e7ac24df9a15787a30da7a08587e85fe946988f8206a66f8a7f86732c,
          -0x191ace66245c73e3ef0d1ca8c4b8e587373e520b5e6e5789e5ca7b9e77dd1dfb);
    Plus(R, PrimeP(), 64 * m, k,
         0xc0ada0b46fc24d257720c969d3596abb958cb9f20f5d6646117a0064b9154701,
         0xc820e63e46e573d3854053f4d40092c83d836bb89c6ca9bcd499745b0e218296,
         0x177c837ae0ac495a61805df2d85ee2fc792e284b65ead58a98e15d9d46072c01,
         0x63bb58cd4ebea558a24091adb40f4e7226ee14c3a1fb4df39c43bbe2efc7bfd8,
         0x5458b5ca9a63f1dc4d89eb154f1c63a2f1c664d7381c8374794c960eb2990141,
         0xe1686235d51426efac8bf6724273287aa9709bc1aaf5efb11ed877012d4745a4,
         0x3cc26c3feee6f4049d4ff623d963693a98885d1a6806f3ffccf907eb5dd49898,
         -0x37bebe9ec6ef826fbb733829de58c4861eadcebfb95dd9097726902cb6a9e7be,
         0x1bca560a8d7e3022a2e346811637a9d95e863a13a2909a6e45ce64b648b02625,
         -0x0ac89eeef66c9ad19acfaa4771a39b2fe35cc85d55305367a55b25b35bee9a6f);
    Four(R, PrimeP(), 64 * m + k,
         0xe1686235d51426efac8bf6724273287aa9709bc1aaf5efb11ed877012d4745a4,
         0x3cc26c3feee6f4049d4ff623d963693a98885d1a6806f3ffccf907eb5dd49898,
         0x63d5a27d4896b73103d1f9742ee5aa39c4da5924885965e0b8ec8f06163c238a,
         0x4b0b40a92acfa59b55a612346950bf02f435cf180332754699c8ae9180fbd5dd,
         0x2656f5919e1bc01c76cfe4cb1cd15f479123bed24bd0ad9dc93437706744ddfd,
         -0x224062d36bb6fe57e2c062ad95d533600efbd3717619b9eb0319ef198de70a0b3,
         0x26eeedf4d8b117a029e4fa7e8641e8bf1e151295e2ca0034b49561df75eb5ac1,
         0x3aa37ee70fdcc4f320a76ddbb88a4b33f55ac5c99eec1635dfa049a74783004f,
         0x003f974baaf4c2973ccb20975d94f9f837f4dc1c32a7c8352b003ab6eceddc74,
         0x8ad4c489e41523d35402e3f393632e15f4befdc1a28961418c53d4202cb75346,
         0x6a42fbdbd479670190e3e4690a2a5913102b7312b5f2e72cf9a4e1d009ed4958,
         -0x41ebbd075e428b8c6fd945f7fff07b163e854f7045da8d96eabb6c093c4f82f0,
         0x00000fcbd0a88e4df23ad545cc7d3b5d42e52ee3759475a64283c0db620f6a70,
         -0x000fd84a2bc96ea3d27bda761ddc58cff94033bb0391807a41b87faeb7ddc917,
         0xc6dc45490fffdb39977914c7f9c6c2505db3b6ad5af3b70d1b99bba62a75d591,
         0x3e4e6cd947c926c3de872f9d56b1f77e8dd6339699abd15b9e283a0322c2be25,
         0xb442c8b7d6bb3f6edd8b223077455234a17f53d97679968d1247dced3291533c,
         -0x3cc7c3f2da8a5a92faafb6636c797935497589a9d76688b3672bbf0d59ca2047,
         0x9a7978b4c78d370c1b77707f42782c1bd6f04656cf0bcb5b9ba033e6ff7cc890,
         0x3b71bffc3cd4ccfd52b333d94819e0054f2247525b709e6ef1d7cf5c86ccafe3,
         0x5ef2b28e44e0411f40c283970043bfdf1cda0d5116b44cf5553b3f754a6a3c08,
         0xd2abb5529b83e66743a3a23d1b11e28bb217a82c4a9e8078083adb191e0fa468,
         0xd5fea76d0188346239bd0e658e255e53da95e5ed6e2fab56cd4a22721fd5d8ca,
         0x583896e0cb52023a4371c1f9d4c32c9d1e20a624794b218ea1d816b6ce238048,
         0x23372136af502fdcf49df2ceeb6d88d51a823a7bfc84b2ace492e904fee16072,
         -0x3706e8469683ef4f428a7748b2e1035e2d57a6487f8f90e54d18cf05177bede2);
    Plus(R, PrimeP(), 1024 * m + 16 * k, k2,
         0xd2abb5529b83e66743a3a23d1b11e28bb217a82c4a9e8078083adb191e0fa468,
         0xd5fea76d0188346239bd0e658e255e53da95e5ed6e2fab56cd4a22721fd5d8ca,
         0xf0454dc6971abae7adfb378999888265ae03af92de3a0ef163668c63e59b9d5f,
         0xb5b93ee3592e2d1f4e6594e51f9643e62a3b21ce75b5fa3f47e59cde0d034f36,
         0x86c5464009b7ae58183099e5238fda859187941b1b72afe626647288cfe9fa5e,
         0x723b207732b55c05256bf207c629892cb2cfcbce93e0ba471ba5a0b60607d05d,
         0x4202ef0ef6651e8dc46616b8c1a6ebcf4bb45f3f2df03b3e3506d5656777e33f,
         0x0f95351e7dbc3a85f46b582e193cd4d2251c2351fd2a6f0e3f4d4c2aa4d7d5ba,
         0x46f31d9082f5721c187837c7e83e3b5b401fa0a5246cdd5f1165139551bb57a0,
         0x32c53f0480fb5f4aa9864c5c526c39a2aad31b8d0ea1a2c96d0002902c5821ff);
    Four(R, PrimeP(), 1024 * m + 16 * k + k2,
         0x723b207732b55c05256bf207c629892cb2cfcbce93e0ba471ba5a0b60607d05d,
         0x4202ef0ef6651e8dc46616b8c1a6ebcf4bb45f3f2df03b3e3506d5656777e33f,
         0xf2e52cb7a0dbf5b7ef55f9954fdc0b324a0f39211cd3744d0693b7cb2962402a,
         0x7c649cdaa274f2d85fe4d662ff27e4771806f0d760edbd634e5be1c172a27eb2,
         0xc17f4ff35caffa5ba435a84df737119f576f3be6a16a0e90a5facf7679d0ee4a,
         -0x1ba6676ed8611f4a63fe6e779427b5d9519bfe52263675c6725428c7cf2a4b54,
         0xe67615b51aeb5ecc8c0a3c283baa7274e1bcbc9786fc5070bd2cb64eda751888,
         -0x09a45078b9a60eb4a838044ab5e879fd6551483bbc1ddd88bdfa7a9448375485,
         0x913748f5f4ebd40ee833087d5f049a3160d91a7e477ef3d255ff1d5003941e44,
         0xa7493dd58024d4123d3d0d864bbe17328f2917d55d480aec657df9087a2146ef,
         0x8284f3ce7c42dd761e69d552b1c7763e991b52ef284128d4611c4d64a2a44233,
         0x2630ed1573c700f250f120670d160390091789d006d41221bb17b8366f8b2bf9,
         0x525fac97604d56386c5debcd4bafacf8d7588c7c009a0f23c3429ba2c5324243,
         -0x1854c28648e90d27b15a11ba23065b9cf3609ad5571b4ea420e913b19022794f,
         0x67cd271077eadff61d760b28c71cb39dd0643c50cf45455fe93906276c75ebd1,
         0x5caf1eb38b4a62e0eef457cf620e99b9f85b4ef6d40e155085585a4e95bce7d6,
         0x2044165b902c2b0242fa9e4120553e32aefc42a13851713a32fc531fb760c256,
         -0xde19bdef8fe22753255bcfac4fac2c292a3bc00262ec2910642fa7d7308affe6,
         0x2a16b9d700ebcdd2587a6f76ae7ebe053a206285e02da91e1a52f167cbbc1513,
         0x1e3fcb53fd46f6d5269167dfe5d09453ba350dc9e9a8e9080247994bbe5a6e20,
         0xc39cd865a45b2ea35158cef71b74603dd89f0f459b9f5a8be4fe8371419211d1,
         0xc43bd57e7b88b9437c3a76f73e2b93ffab8bd2227bc323faf1f9831b085bce86,
         0xf82c8b9e9dcbe935fdee529da7606688e04e78c0c070af81be3c7219e65ceb0c,
         -0x335bbdfd0d0bca4cf930731a4b22574a8868eaad2b4ebb48f0ce42184b1907c3,
         0x957851c3e0a737a5e852afca36d13da438497daf2e1398d7e7f316d1be343191,
         -0x4f1fa0841f03e20f3b6d9fe499ce9c7346990ca08708b411f2fbbd5e00d64cee);
  }

  lemma Chain20(R: (nat, Point) -> bool, m: nat, k: nat, k2: nat, k3: nat)
    requires Closed(R, PrimeP()) && R(m, C_168) && R(k, T_5) && R(k2, T_11) && R(k3, T_13)
    ensures R(8192 * m + 8192 * k + 256 * k2 + 8 * k3, C_184)
  {
    hide Closed;
    Plus(R, PrimeP(), m, k,
         0xc43bd57e7b88b9437c3a76f73e2b93ffab8bd2227bc323faf1f9831b085bce86,
         0xf82c8b9e9dcbe935fdee529da7606688e04e78c0c070af81be3c7219e65ceb0c,
         0x51590b7a515140d2d784c85608668fdfef8c82fd1f5be52421554a0dc3d033ed,
         0xe0c17da8904a727d8ae1bf36bf8a79260d012f00d4d80888d1d0bb44fda16da4,
         0x26b3225f315bd414a1d6193962b3f71becde70f3148f1e361b4ff457ffa12f9b,
         0x6ae4e348851624e801b4f70613bf87374a82054ce3d76d78528e24b5149ebe48,
         0x132a37974f57ac57480049b7e659c7583b211a4b1c3516a42cc735ee620c4146,
         -0x115e0dfcc7aff2435b503feadd22852b030d12b9f514eafe26e2336d2599cbc5,
         0x05d9ab8d5e3d61701d4ac1346685fd2d63ee61fc31306a2250a29c302cfa78e2,
         0x0d816bbe307a7ceac08d4cf954ded61b61fb9758d36dfa242ce78e6705f6f4c8);
    Four(R, PrimeP(), m + k,
         0x6ae4e348851624e801b4f70613bf87374a82054ce3d76d78528e24b5149ebe48,
         0x132a37974f57ac57480049b7e659c7583b211a4b1c3516a42cc735ee620c4146,
         0x64d0d38d31f6655d7305cdaa081f8b3588f2ee7037fa56584ed2c138efa37b6e,
         0x8d865ca64320c38e6014fb14f0105a055d42ca3af10c3c1ac1a578d326dc4c6c,
         0x9e3743d1310eda639db861db6e819d5b5ffe94b93e777885550478b25b2c2af6,
         -0x76cecae442d8ea6e61a9ed5b53bdf97286d01b2cdee85e76b9b5bd3fd1787f6b,
         0x27b3cf9eeaff8d70bb47246dde1c6c73d31cb48f8548a5ffa6553d3f8282e5b8,
         -0x0da3533978c43b33a656a517b609457aca8a3531d66759c5f36e68eabc1d344c,
         0x34c0b6e689e3ebaa4a2cece3b57c7a923ef24ecb819a1795b6aa6193fa78ebcf,
         0x1b17b11cb2fb8d3df9eda6a5c5d9425c4cd1a560b1fb8e9477702496f48ff36c,
         0x6072c070edece208332902a349036f4ab92b6f0d82d35e11d1d83bd515172359,
         -0xa98331373a384283d1866f1feef22222afce7352503ade73505e08c4c59c3527,
         0x0adedb608f5ee4ab54f8e187d2c7ef43c4d9dde5d0084497392d02d50b02dae3,
         0x17949f9a6b0d4fe3c9cd3e06244b8401feb3e895be64bb07028417faf6d4574f,
         0x4c5ca3872a730e7756b42eda7c1f57adc499839bd7b913b70013b2686405c3a6,
         0xc7637564581631a631b43adb0716b7783b9ae648b4f32d5b728449f5df7f4181,
         0x94b0014f13858d02e2153e7d3b51a65b0ee5ff78cb9e689987690023a967b6bd,
         0x30efeb4d771cefddcab9578a95ee088d64647e92114f99af42537949ab053341,
         0x16c7229e49975d53c4e0b6c4f0351ae566b16a29abe1c0abe6ea4348de9cd8b5,
         -0x3364d78f38a813d27695b51e1007feafc78175c8c6d4ef600f85d7d1e771854c,
         0xd1cfe17be47f81023ea9182bad5d60eb41f0f4b06ec8059794bc7c5dfb986d92,
         0xf8c207eae1ce21783814a495e85ceebc2c50abd30efd75c072e912e41ce01805,
         0x76713ae63aa662fb422ca302bdca17c510d572ed77394fa8e879a1c2b80ae7a7,
         -0xde2a78c05cb77c0318fb51b0386a7e508b34bc219ff56d50bf253ce0c4171894,
         0xabf516fb6403d170833f70fc3ac517848e3979cc794de56d2b58591d4398f3c3,
         -0x28764c947cf84a1425c04528ea6fdab1f0d17a3d574c60da7c6d1451979cd654);
    Twice(R, PrimeP(), 16 * m + 16 * k,
          0xf8c207eae1ce21783814a495e85ceebc2c50abd30efd75c072e912e41ce01805,
          0x76713ae63aa662fb422ca302bdca17c510d572ed77394fa8e879a1c2b80ae7a7,
          0xcb7b5666a620a0b8ab8c367f77e6a0258b54580d219d4454fcbdcf60b56f463b,
          0xf1e0e5c278b44e07abbaee1bf93fd963841cf0bfb019288f450173ca7dd91c87,
          0x4a12c305e065cd7b99d9b2da631983b74a751fad83971ca60f167a780c088dca,
          -0x218dfd30c904dd540214a406182268a1528d555d50ff0023a62500db46b854ab2,
          0xa1bcd67391015978fa943532ea1cfcd71df4a1ec036422d3c816f9a54f2afaf8,
          0x0577d693dddddcab61107e5a9da553ac3fa4841abefade3ef8225ac013110b67);
    Plus(R, PrimeP(), 32 * m + 32 * k, k2,
         0xf1e0e5c278b44e07abbaee1bf93fd963841cf0bfb019288f450173ca7dd91c87,
         0x4a12c305e065cd7b99d9b2da631983b74a751fad83971ca60f167a780c088dca,
         0x3ed113b7883b4c590638379db0c21cda16742ed0255048bf433391d374bc21d1,
         0x9099209accc4c8a224c843afa4f4c68a090d04da5e9889dae2f8eefce82a3740,
         0x0f7c31be79f5db46ef596741bcd16138186c4465b7c7a27f2903331f75b4e9b3,
         0x066a9c992903f18467f22e9ef849aec9fd8a9028b2af7e0951c25460654e5329,
         0x4114ebe60dc7c04ce187d883626cf27da496440d477560cd930a67617c6406c3,
         -0x0ad4cbc3ae78cb6aa99eef16a54fa841c45d75bf8bf28629c70b6f74ee736348,
         0x00efca148d6b385caa3cc14fdab882f0e35c38d737e241e13cb8912d40d43e58,
         0x0e3e2955bfe45790131531756f5e220cd1687592312e9f697c8f8e54820339d3);
    Four(R, PrimeP(), 32 * m + 32 * k + k2,
         0x066a9c992903f18467f22e9ef849aec9fd8a9028b2af7e0951c25460654e5329,
         0x4114ebe60dc7c04ce187d883626cf27da496440d477560cd930a67617c6406c3,
         0xe49459c373c5dba80edde36f7347197dd8ca4cb493790182f5e3d808c610246a,
         0x9466635111245cdf036a63ae28d4db375a26af5086e74da57b7284cdf8506c65,
         0xfdd17a3902012890c00339743543a9e7991e388b62e0c7347edaaa4e244baad2,
         0x73bd2ecf3564238fb6e5db5dbcabad2360d161b95cae45cc58ddba21c4e26434,
         0xcc1895dcdbc85d9e8aff0e10e611cd9a5f199b91da6b85346f490d96387f16d3,
         -0x7ec684541ae9bb4f96453099f4d4b53a7853e7100b9caa0ef43b3ebf39256b93,
         0xedcb40b3507486f3f28953bfccc450a88bd60d32f3732f1f0ce7246d95bf2b27,
         0xc799c88297ac2d1373f6af0c2f449a0e35bc010467bffed13d65750acd50932c,
         0x2b83863f11a28958dfeeb0332eaf5c90ee32f05e9c88e74658fb1b9043d9bac1,
         0xd575437774517d1a4061e7bcdae84bcc8cbfaf71faa5afff220a1e870343878c,
         0xdce1f72c8c9577ad456027298dd5dbf0a980d91e2762a8980b62b073ec794c05,
         -0x2f8f3b60fdb425fd7eae2a62990cdb08b1d7d1a330a7984a205be8ac5cd8451c,
         0x95a16d6b5ced6ecb415d706a506328de77b3cf0ae1c65c6677ccaeec3ba1466c,
         0x3d5ae3af25cda884ce422f6c4c733e1a5a6b49082e41334eb4ee48ef4d48fa36,
         0x858f1edb1c7a1a2060fcc745a3c96f5102fdf8d0b5c1b446a11c913be0e82c36,
         -0x1a0035b6fcd26a8296a50c46a2e00584ac1f9bd88ddc99c296bf8f51bd646702b,
         0x57754f2a21712ef0c04a139467416d9f3fef2cf9e81a7f5350a0cfd578b2e2fe,
         0x50cdc7d40cf5661314ed261d19a0acacb32f8725541382824ef4106029041b2f,
         0x8bd712d997fb4900c0dd77cc654eca64ff73b31dd603d4f3bad0a04cfa8023ec,
         0x5fc74cd181f0c1df01d4f3fe40f379526f9df88020633994799acecc3bfcaf14,
         0x9486ec6ad6954a9dcdec1706767ccedb6dc7f3e4106532a0049bcabb9a5cf638,
         0x65cc83404951160c2822b3ef654771f4fbbecfb80a617ba3bfd55ff6b6a04299,
         0x4c634329424ebed6bf2034f1e845ea9a8a2ce1fc8d20f976b5dc863df58441f0,
         -0x12cdc8aae8697da308d9783cfabdac2a0f84067c7de418fa5697bd56aa55c6ea);
    Twice(R, PrimeP(), 512 * m + 512 * k + 16 * k2,
          0x5fc74cd181f0c1df01d4f3fe40f379526f9df88020633994799acecc3bfcaf14,
          0x9486ec6ad6954a9dcdec1706767ccedb6dc7f3e4106532a0049bcabb9a5cf638,
          0xad308154074aa9e2d7ea40c01a4341b7858dd67d1861225bb956b691667787cb,
          0xd1e4d7d12731eb4da69295936ad9070a1cbfee48ca03f46581cf419309a1264f,
          0xe798e35631ed5f8436b851909adf9f2c5ac00ccbbc3c086527a326c3f791f42d,
          0x5d7611aedd2fd88b081215477c5e443db8ce2ec48515392e9a75798eba277fdd,
          0x752a97fcc7de0886a802496ea25a0688d7bbbcaa27eb4662a120ef3036d8c97e,
          -0x4d33961f77cc20908e6f2fdd7b0192622071a755fe9c2f99018c9b09b3596cd2);
    Plus(R, PrimeP(), 1024 * m + 1024 * k + 32 * k2, k3,
         0xd1e4d7d12731eb4da69295936ad9070a1cbfee48ca03f46581cf419309a1264f,
         0xe798e35631ed5f8436b851909adf9f2c5ac00ccbbc3c086527a326c3f791f42d,
         0x177c837ae0ac495a61805df2d85ee2fc792e284b65ead58a98e15d9d46072c01,
         0x63bb58cd4ebea558a24091adb40f4e7226ee14c3a1fb4df39c43bbe2efc7bfd8,
         0x74bbb8ab255da8fded5f5b7eb3362437a8e98ef48e014039c57733918383c818,
         0xf7282ba39e5db687ecf291b176123a7b5ea6d101464e02b148f236dddbe06bb0,
         0x55201b1614b46074c1bc85f53ce53e9436db7045d0e86840d309e2be62c17606,
         -0x54fff6e4a37da75976fc590659247693811688a4947e28d499c8d7f765e3cd05,
         0x353aa9029e56991efeb421e8ad7512bd94107725e13d4e5bacc0783f36933bc0,
         -0x10fdd50af7635a87d9f4d8bdc05ceef3e12a1905c9044499a5c9ed665de74cb5);
    Twice(R, PrimeP(), 1024 * m + 1024 * k + 32 * k2 + k3,
          0xf7282ba39e5db687ecf291b176123a7b5ea6d101464e02b148f236dddbe06bb0,
          0x55201b1614b46074c1bc85f53ce53e9436db7045d0e86840d309e2be62c17606,
          0x1687868d0c3c942a86f6a2f6bc2b0b0014da5b25d28de6968dd58ec932777ea8,
          0x712882c6f5c608ceff86c68358099492bebb14c41242cf2c12a46fbd41a7fd26,
          0xebc802f7c048b4c1c55b0bd20a483b3826015fa160bbc02de00a2c5d7b88419a,
          -0x2bcdff98d28aafc766ac9422af9d3d9f1d501f248d1f4a840aaf0a1e6dbc704e3,
          0x01fb92df6f90dac0e80f7c6065b1e3b2b40a412912271933f6deb4685a8f0646,
          0x0bcae8c2b5400cd966afe73f6d292cd8ca926f72fe6dc4667b4f49a28cb34110);
    Twice(R, PrimeP(), 2048 * m + 2048 * k + 64 * k2 + 2 * k3,
          0x712882c6f5c608ceff86c68358099492bebb14c41242cf2c12a46fbd41a7fd26,
          0xebc802f7c048b4c1c55b0bd20a483b3826015fa160bbc02de00a2c5d7b88419a,
          0x2e1d6d99905ca613107ae06ad50b69ee23145b1a91e4afb8a2ca74b9207129a5,
          0xe391a696c7ac0adf4f72004a60b8a6c7a688173cb829f61f9c85b8e0b62f4d25,
          0x4690b02ac2d58cc655aca1095179d06f7619b6f7b8e05d568687ada93c6409b7,
          -0x411c4751ac374cb4e3ad741c2eb6094892662e993d162f38eada30a6a2e37f9b,
          0x084e96c53be6b87e73692166063cd041d209c549b4bd6ab6c00263722f0f0318,
          -0x149c0b53e078967ace8ec1f298d84f667226511d82b871bfec0d9f74517e4e54);
    Twice(R, PrimeP(), 4096 * m + 4096 * k + 128 * k2 + 4 * k3,
          0xe391a696c7ac0adf4f72004a60b8a6c7a688173cb829f61f9c85b8e0b62f4d25,
          0x4690b02ac2d58cc655aca1095179d06f7619b6f7b8e05d568687ada93c6409b7,
          0x4cc2cb0832313f941fe6fa205e66482b5c95e94b784f8cad768d71554e8dd58c,
          0x99a88bba591b167f364e78fc101b386fd435e67c268c312231949065fbb5ae87,
          0xb62c302f768c6006f5b7e5f6f591996d7ee34d94b0d1514fb19402dbb8816e99,
          -0x2349195186fec8eb56b247c2c0e0abbddd5663406e276182b6fe29bb2a8ab5020,
          0x17043cc54e438d06ce70f901635cdf1ecde17f998ea4a948a597de7929ba0441,
          0x1629713e181ba56c73eace3b0dcba22469e07f26702bbefd9ab64479486343e8);
  }

  lemma Chain21(R: (nat, Point) -> bool, m: nat, k: nat, k2: nat, k3: nat)
    requires Closed(R, PrimeP()) && R(m, C_184) && R(k, T_7) && R(k2, T_11) && R(k3, T_3)
    ensures R(8192 * m + 2048 * k + 16 * k2 + 4 * k3, C_200)
  {
    hide Closed;
    Twice(R, PrimeP(), m,
          0x99a88bba591b167f364e78fc101b386fd435e67c268c312231949065fbb5ae87,
          0xb62c302f768c6006f5b7e5f6f591996d7ee34d94b0d1514fb19402dbb8816e99,
          0xff4ce11b3ed7035ce9a63e20e84cb5be9bf80dad1aad2075a1c8e6947fd04344,
          0x2367ee2de9eb32b9988c9c8a866c32b30c0ab08760c64b39a896afc2680e0a04,
          0xab7e4469a0ea3c594d9da618b84fb9a30cb52ad40e8e33902654e8c111533c50,
          0x56a8c0a6a666237c564ec25854c9a7994b3ce96ab57dac31ba2c80d3a85e8a48,
          0xfe9a3f8bb3e8cf4412a35cb9fa9c8ae2598228142e4d5b8328038dc3874cbd02,
          0x75ede0197eaf99b551ac3762e2e2dd2a17d29f05adc7280173757ff609ceaf1d);
    Twice(R, PrimeP(), 2 * m,
          0x2367ee2de9eb32b9988c9c8a866c32b30c0ab08760c64b39a896afc2680e0a04,
          0xab7e4469a0ea3c594d9da618b84fb9a30cb52ad40e8e33902654e8c111533c50,
          0x6efe928cf319e8487f1de3b99b0e3f100002adbc41e054326a05c304c633153a,
          0x57815b5f9f552a38439ae6e4dbb6941a6febd67246a186af12536299c6b60672,
          0x3192617479071e47753ad1c071a489242869769b25260009182a694ddb2e2580,
          0x8604d5bdae3b564fd530eb8631bec8e7d53422986b42e97785dd9d9fc1007bed,
          0x301fc31874a18103d9be9ed0bd5ce13862304fea55e970dee9daad4767f38956,
          -0x1696bbf8f983bc822a3d358c48704f42d66034fe9c1d097533e8f9f57bd06744);
    Plus(R, PrimeP(), 4 * m, k,
         0x57815b5f9f552a38439ae6e4dbb6941a6febd67246a186af12536299c6b60672,
         0x3192617479071e47753ad1c071a489242869769b25260009182a694ddb2e2580,
         0x8e533b6fa0bf7b4625bb30667c01fb607ef9f8b8a80fef5b300628703187b2a3,
         0x73eb1dbde03318366d069f83a6f5900053c73633cb041b21c55e1a86c1f400b4,
         0xd8864cb40606407df152356203494b884f5c90f238523ef437945acd9e6318c8,
         0xd1605c7f98518c3bdc14099138ae10f58e00559a537595bd0102d52b4cb75d94,
         0x61582c41e6e345a428575a5be939935a2a1735d0a001d63a1921c8f996f11e70,
         0x2e5dd755d350d7076867d4a8c868922f39827896ef0bc7708b603318f5dfbcec,
         0xb722e7e4e4bf257067e95d41f414fcc489eaad0f7d1bfec7f1fb96f237defa69,
         -0x67141831dfe5db5a498b219680f960e824d6136332188f5f4e8c46f20e837980);
    Four(R, PrimeP(), 4 * m + k,
         0xd1605c7f98518c3bdc14099138ae10f58e00559a537595bd0102d52b4cb75d94,
         0x61582c41e6e345a428575a5be939935a2a1735d0a001d63a1921c8f996f11e70,
         0x328311006166da0e2d955527c15989dcadf4e3fd67e2fa1041c595d4d5bb5318,
         0x324626b2a465f61d1d5335efa22ae562eb230a8431f0cc9c009c00d4fe34985d,
         0x0ed335e389b3b10c230d9fbc9a5617c692d22b0adb969e71db302c73987fb7a1,
         -0x1db515376593480fcc76cbc5f4bcde74b73cde5a6bec0fb4a1fc2c1391b2bbc53,
         0x09f775be97885f1f0fe6e21837784a17ad5d334f36fb30d73044da13279ac145,
         0x1f64937ca904dee83b3ef36666ccf1548f345fa992155159ce1095b89b1083e9,
         0x7e087002e55cae077c9697c99e58a03e348c2cf038320cdadba6fdbdc2abda18,
         0x05480132ea18cb477bc329bbd68f50afcda3bbb8677a2d7ee7efbfc0fec3350d,
         0x1f877a33c066a4cbe14e90b9a08facde10c9b147067f69ff82510001df2cdf19,
         -0x0f058bcc778547f603caaf829eda316728546f76492c7289d3ff96830c62ecd8,
         0x3e0c4e8a4904685dc54c56b0188100ae29d3d83bb82ef8624f2b6011854f8387,
         0x16269215d28a2d8c39d0be3ec7aa4d5fec9d771c0f858d8142441aff0009273a,
         0x874749fef062abebe4fcd8d6de89523c51b44716b020f206d464b45cebd0227d,
         0x9da6d204a90c97e83677bd3abdd8e190f42f42a9b651c441e08db4811b49a35e,
         0x2f16762c05aa3f6faa7daca4130d6c11ab881fcdbdea00a99534145f197ca6b3,
         0x20fec55c90ffd43411ff6c9a42028f5994f46701565a13555fefb548aeb0a58e,
         0x477c43e549d10eed5643550fed29c5c6a069db1128d46c52af74d9a18b0a9c6f,
         -0x50846e759d1592ef1af967af77c4dc8b001aab604c946a3e610db86d423bdaa7,
         0x54f55f77ccd03ea178b1a9b03bc1897cea9b8351be047214c7608b24e0da4759,
         0x3edd7d6d5efb143f842ae7a29746869cfcccf9c4aa741e2eaf73634cfb42e855,
         0xecd4a5d53f7abdd49b7bdf8e93893bdb26c6611a69b12245a71b93919625b9db,
         -0x104011d4377289704475678fd7cb7ee107d0e1fa6896a41620533637ece68aeed,
         0x1c31f1d69982c39af1890c1809be1ccd216a196a39cc2cab83715e4dda5fb220,
         0x1f74e9c8ca5c8cbcc9986c11863cd31cd572f6e512fda6d7d05a9e4889c1db6d);
    Twice(R, PrimeP(), 64 * m + 16 * k,
          0x3edd7d6d5efb143f842ae7a29746869cfcccf9c4aa741e2eaf73634cfb42e855,
          0xecd4a5d53f7abdd49b7bdf8e93893bdb26c6611a69b12245a71b93919625b9db,
          0x04885c3c7bc7c14360fd64185e560f8c26050045a0f0610027e65651b1bfe0ff,
          0x6efd299cfd2f57e13f638662f173faa6cd9bd90da24aab64d0445e0faf5681a4,
          0x22717323552bf26c834732d5e877997485fe28e2ec15cd3e8332088ca1c158a0,
          -0x25ed2760dc5bb8492de130193b07f990c36a93a18318507b331dda0b6926fda2,
          0x00148b840571d50d4c60d6c4c2594ef9726c9029d482d0ed50f48a59859b144d,
          -0x00da20daf9313a5f8f19fbcf388493b6b49bb0c335ff9c7e3eaa4ac1417d17d4);
    Twice(R, PrimeP(), 128 * m + 32 * k,
          0x6efd299cfd2f57e13f638662f173faa6cd9bd90da24aab64d0445e0faf5681a4,
          0x22717323552bf26c834732d5e877997485fe28e2ec15cd3e8332088ca1c158a0,
          0x08634cdcea3ab83d91f73201f7c040538893b241096a2d8dc4f6be8bcf976d5f,
          0x3c3102f7926554d020fb7f4528d4324707ab6fa19e70ace673939dd1669588a1,
          0x81b2adce94b3cca872355377ee778f6cbd18fec3f6e0224c553f134f81401f1a,
          -0x8e19cebb0eff7639468b0013bff4ffdc03b4aae35a493beab93e4c334433f393,
          0x00465b5258db19f6f9f3b5bba3fff908188ba078e0b1780a8c685454ee7682a8,
          0x01aa1568905d459eee428bee4accdbd744c5df3a37b827ee20f4ddf7ab99c89d);
    Twice(R, PrimeP(), 256 * m + 64 * k,
          0x3c3102f7926554d020fb7f4528d4324707ab6fa19e70ace673939dd1669588a1,
          0x81b2adce94b3cca872355377ee778f6cbd18fec3f6e0224c553f134f81401f1a,
          0xd4b8a440112a7eaff2cc76448dc0a63235d74f68381153ef7d69722da83e3cc6,
          0x7409dd5bb6dd49a33782ac3f8555c2895eeff424d4041cf6da72f36cd0d64ab8,
          0xc2f33621b3dc26720addab9badb7ecab9ceccc19e429bfa2ff2b33ae57058de1,
          0xad15fed3f776e3618594ad70bf6434644d0ad94d218178264ee834b8b2a41388,
          0xb0c2553752ab8a2731b051abf8c716579542ad3b6c4e1cac889aba8e3fabf2d6,
          -0x2e67dc8cfa72d5a121cbab15cd9a45107f7353559943018faf2b7ecdb294d13b);
    Plus(R, PrimeP(), 512 * m + 128 * k, k2,
         0x7409dd5bb6dd49a33782ac3f8555c2895eeff424d4041cf6da72f36cd0d64ab8,
         0xc2f33621b3dc26720addab9badb7ecab9ceccc19e429bfa2ff2b33ae57058de1,
         0x3ed113b7883b4c590638379db0c21cda16742ed0255048bf433391d374bc21d1,
         0x9099209accc4c8a224c843afa4f4c68a090d04da5e9889dae2f8eefce82a3740,
         0xcca7c04a3847f61bee093ed868848270dd9ab02cd202cc3636ffaf0cb51666ba,
         0x906190c455f1999be9baf1609ac8a07033d3273c51381fbbe106e3134fd2444f,
         0xf9145a5bad2300264c3594e25c56db384c0f465335761fc864bf0a0bc80b370b,
         -0x2a8c20b48f2870acef0ec7e2094e7a6ef8fa4b7c53d8af1d7aad039340b394cb,
         0xa39bc8635e935072ddea9162881b84be4cb99fe2df1028ccc57ccbaac033f1b4,
         -0x16a875777ccfe5cffa13c18e5197d2c7e01f6ff20049c98de82f4f82026fb95e);
    Twice(R, PrimeP(), 512 * m + 128 * k + k2,
          0x906190c455f1999be9baf1609ac8a07033d3273c51381fbbe106e3134fd2444f,
          0xf9145a5bad2300264c3594e25c56db384c0f465335761fc864bf0a0bc80b370b,
          0xe02cf3e22f37777a9f0a291795186edf86f76a830e192ee15156aab6c19d43f6,
          0xc746d556fbddcc12b974f34d6444989a1e93ee8d2f4593a28893012435449dc8,
          0x4f743d3c56cef78d831a700cdf5f83facc5af9e1afa2809cb2a565ffe322bb51,
          0xbff15f914fc9f159d42c05835fb0b7b0829f7f29dc4cdb9abfe6720643a6a5fc,
          0xc44eb2b155072c52eca8155aa9738a306304b0e9fda51e66390aec6d7b227602,
          -0x30123fb46b1329e211d023482cca1b230e65f1d30f9f020fa8645d0fd350685e);
    Twice(R, PrimeP(), 1024 * m + 256 * k + 2 * k2,
          0xc746d556fbddcc12b974f34d6444989a1e93ee8d2f4593a28893012435449dc8,
          0x4f743d3c56cef78d831a700cdf5f83facc5af9e1afa2809cb2a565ffe322bb51,
          0x853d6c45639ccb14baf6f540083b6107e567c4c52849c7fe2cacbd06939a0848,
          0xc3255b52e3bae2fa71066a87094f5ec7189c2b56362f4bd2f58a644ae77c3bfb,
          0x6ebaea82e3190aebae190cedc0cd2873814cae751201b227e84fdc8ceaf16642,
          -0x17ea8b19a4256669bc67e26e512c4fa94290c18b8a5a2234b1b46a4eb4835a8d3,
          0x4558e13d25b5e3d457245323ed870ac066e2746d2dfc144775637102ab20e34b,
          0x0226621d73c55caea70007b84b5ca00d86b12bf73729eb30249cdc7f1e5837eb);
    Plus(R, PrimeP(), 2048 * m + 512 * k + 4 * k2, k3,
         0xc3255b52e3bae2fa71066a87094f5ec7189c2b56362f4bd2f58a644ae77c3bfb,
         0x6ebaea82e3190aebae190cedc0cd2873814cae751201b227e84fdc8ceaf16642,
         0x5ecbe4d1a6330a44c8f7ef951d4bf165e6c6b721efada985fb41661bc6e7fd6c,
         0x8734640c4998ff7e374b06ce1a64a2ecd82ab036384fb83d9a79b127a27d5032,
         0x41c6dd21bd24e859532b0b27f97e97aca986f6c398f7d713b6304c99449fdf0e,
         0xb5c20ed77f322d6bf7b6b2675cdfbfbb8375b251d39e84dfef37836e0c2d3c32,
         0x56c0e75683597fc4b891115c4faee04e9d0837c8b7c2001f62505886c70d8dc6,
         -0x19c8aaf707581cfc0a06018b1a22ea56287355eb37560f1bc484c3488709193e,
         0x10e696c602272edec016bf5e1fa2a6e7ae0a22de761a70874cd50cc274d410d5,
         0x03709cc8fc1eb3e50fca7bf0c19f167612c9d71cd7b124980af3c8d2a105e00a);
    Twice(R, PrimeP(), 2048 * m + 512 * k + 4 * k2 + k3,
          0xb5c20ed77f322d6bf7b6b2675cdfbfbb8375b251d39e84dfef37836e0c2d3c32,
          0x56c0e75683597fc4b891115c4faee04e9d0837c8b7c2001f62505886c70d8dc6,
          0x03050f99b1337c62004e120e368b9c0f76b837cba50537ff5e210843b7f72c84,
          0x9ea323138c3021f1d1a58f22375cc3c5651bcb03de5568af3d9919999fa5ec7f,
          0x4c00bea15a3fbbb38dc9392f03868fe2c124140d165e59f90d5d9b7f9e24d270,
          -0x1811800bf56da832b56cc538828fadd1912eafbf04f173aaf8f522c15df97d6e7,
          0x00091e7737249e6db1b7bcf757beeeea60eef9cf100bcba36fa34312118ac0d3,
          0x0045d1c6983f01b3e1d1310597906b64d54e3743933af9f8084afb77530583ea);
    Twice(R, PrimeP(), 4096 * m + 1024 * k + 8 * k2 + 2 * k3,
          0x9ea323138c3021f1d1a58f22375cc3c5651bcb03de5568af3d9919999fa5ec7f,
          0x4c00bea15a3fbbb38dc9392f03868fe2c124140d165e59f90d5d9b7f9e24d270,
          0x359cb63dd575fe116d4334b14409ac9b98abc4fbae71c5208e980e73c5464763,
          0x6c91ca6734a570c2491e92ce87836823dae578f99579baf6347b651c79b06c73,
          0x413ad6b4ece5409ab15f0c9304dcd9153c5ba397655de0707c7111f2723cac56,
          -0x10713f9b98f22e1683216f72ea2221d075b58221534e10992754677b4c9e3ada0,
          0x0b3a436442b540d8456f660279ca86c3609d2a08a4293cff912564343cf03528,
          0x0a7c3d922e8d7677f46b327f16d7ee4415ff8c72d7e47fb9f46bb1770ca5a622);
  }

  lemma Chain22(R: (nat, Point) -> bool, m: nat, k: nat, k2: nat)
    requires Closed(R, PrimeP()) && R(m, C_200) && R(k, T_15) && R(k2, Generator())
    ensures R(16384 * m + 1024 * k + 256 * k2, C_216)
  {
    hide Closed;
    GeneratorNumbers();
    Four(R, PrimeP(), m,
         0x6c91ca6734a570c2491e92ce87836823dae578f99579baf6347b651c79b06c73,
         0x413ad6b4ece5409ab15f0c9304dcd9153c5ba397655de0707c7111f2723cac56,
         0x741d59dd266cf529f4c4d32cb6c774d98385e15d27764acc6c6e572e4e80178c,
         0xae394b3bb634bc3ee13e7aca57fb126522004ec8720e8db5582034b4993918e6,
         0x5ecefe9b5f7c9a3e2deada5a8854cfa1c5f4fdbbc5fb5edfb36325d000a41355,
         -0x4ef5b9b60ee7958818f1be5a72784e6aef139fb6fa3525681c3ea48691203f18,
         0x34aa9cce1b23936e9827c8628c4e5c78518324affa7780d406ab122cae6f7d3c,
         -0x1dc76d65f3cdeffe77cbbfa7408c026531c9af4ec84c6b20a3241babc3629c71,
         0x838c798bacfd36910554a1a9028aa094d8bd9b94695d0ee71ae95cdb81e6d87d,
         0x7857a136ef18fdef797d06c254201cfb97319ee2e511670fcff6e7cdbcf9531e,
         0x5754539d2dc58e4f0760c207a780900888e4698a2bf4e837dbc48770f9281229,
         -0x10245e847aa2b7bab27f76f7011ec3267090e7bc30fe34cef6d875c24d90e8519,
         0x4399117a611ec202e50bb6d9dd8ab1a8211d548c8670491f9a329d013dbc57e1,
         0x1bb00afe977c9cfdc6a21cb3f2518f2f8c6f20ef7fea8047250a40a42617d2d6,
         0xa07bedfc7b9eb7a05dbd8ad413513112744ea93a2df8955faa36e51bedbb579e,
         0x2c46a29ac0c6dbdb68424248031d83cd29104f458b47561eef2e813ba9605a4b,
         0xfed79016280d40fd51041c29d33f0eb78a2aab4534b7f6dece7d17690f1b148f,
         -0x3c38d97c6fd7369562e1150bd0aa1d6debeff89d265a28cd09e024c4a9aae213,
         0x649b257a8cfdcb6e8dd3ffc548bac2d6c4cd7f29f5b11b36936ac02f78823b03,
         0x2faf7202e2d994c73b1a9696c8f42ce91ac24e2bdb707af228a4bfaeda28df7e,
         0x01d467ff2995a6f6e5a2ed712b05270245749299052686a56e16badff8933357,
         0x399a66a46ecf0c348d731defffc7ea683893998f1c24dd013f163be8052e6994,
         0xb7e66aaf514467433fa48c0e3fea1f08d4a1e4348e5074cacc53f66190ca5d16,
         -0x13547ef35aae3432c70249e10f832df68b8853637bdd0e29689e835720887d4a,
         0x0003590c6732b60129258c465b38d8d1c0988172e6d8d4849e13d8b0c7b95699,
         -0x0018628c5e44e90638d336f23b449e3c112a3f5b620df36f8b757a9fa11cd18c);
    Plus(R, PrimeP(), 16 * m, k,
         0x399a66a46ecf0c348d731defffc7ea683893998f1c24dd013f163be8052e6994,
         0xb7e66aaf514467433fa48c0e3fea1f08d4a1e4348e5074cacc53f66190ca5d16,
         0xf0454dc6971abae7adfb378999888265ae03af92de3a0ef163668c63e59b9d5f,
         0xb5b93ee3592e2d1f4e6594e51f9643e62a3b21ce75b5fa3f47e59cde0d034f36,
         0xee8ad5282f286ef901a803e423a9d26f5ab7859bce204f3ffed8bb0348ceb903,
         0x98264d08b10d9868c1f1d37dab999279066354fcfb38c82d70a180d1e4fd7087,
         0xb29bc827ee80893ed7fa5997cfc356b5e27051484829271f6b4b73d0e44f306d,
         0xaa35f31be2bfcb81b0fc7be43b1feb6db9bba801ec730e42e644fd082b29a3bf,
         0xde466fa216c45a57ea0504ca9f08e103f793d55ad245ea431e36a20bd93e2171,
         -0x58195654fdb33b51a27bf08e2225af4c85ceabac9b0411b68344dbee5fe9c2a4);
    Twice(R, PrimeP(), 16 * m + k,
          0x98264d08b10d9868c1f1d37dab999279066354fcfb38c82d70a180d1e4fd7087,
          0xb29bc827ee80893ed7fa5997cfc356b5e27051484829271f6b4b73d0e44f306d,
          0xa062b7b604d46e0eec641b05bea0471db15e82688f5826c1c34637bbd3edec1a,
          0x913b962857a991a62cdbfcb451513315b8685997fc0956ba592c5756e37e63c6,
          0x297994edfd26d9486e66bb24dd0292fae1f11302c737cd4500c5e964d521e1d4,
          -0x2f7c09d02a6a99b81c8e6609cd097f8f32a476041ec0322f67280dbf7c4b9894,
          0x647b8bb515b6843e2fa23ddb24fe2296634cbeffba0e9534f7bb2eaccf955230,
          0x04555d1cf1cfe53b64143a40cabf70a27a7acc1afdccdf4a5b7fdf39911adaa7);
    Twice(R, PrimeP(), 32 * m + 2 * k,
          0x913b962857a991a62cdbfcb451513315b8685997fc0956ba592c5756e37e63c6,
          0x297994edfd26d9486e66bb24dd0292fae1f11302c737cd4500c5e964d521e1d4,
          0x9fabde1ceaeb992e80017b12d617ae37f2035299330091887021ceb827ccbb36,
          0x17447f8b000cb8adb9ef3e03a01e8aea0ff0d1241bb9a660d8d59d9009b65720,
          0x005c9bd4932f6b38101f23c5b85f078c535207e702bda5a81b65fa0952596ef3,
          -0xc370f284b5f3f132dda95faa9a6c0841638c402170ac9c5a400a965966b6c607,
          0x6396f14acabf9b05a71337a0d840f741bf80e86044f7f3574d7a41d875bb2f48,
          0x4c1258ea2d254e192023177124f6d9f03984033b0c478335972cc1bfb7c363c3);
    Plus(R, PrimeP(), 64 * m + 4 * k, k2,
         0x17447f8b000cb8adb9ef3e03a01e8aea0ff0d1241bb9a660d8d59d9009b65720,
         0x005c9bd4932f6b38101f23c5b85f078c535207e702bda5a81b65fa0952596ef3,
         0x6b17d1f2e12c4247f8bce6e563a440f277037d812deb33a0f4a13945d898c296,
         0x4fe342e2fe1a7f9b8ee7eb4a7c0f9e162bce33576b315ececbb6406837bf51f5,
         0x230d7a4a3dcda864775eb4ffe8f319d14834441848fc304ad231797811c1302b,
         0xb6c88e89b8129b7277b414a5648a11f4f2e9d97a40526e22ee25b80bac33406c,
         0x7ccf333f633ccb065d76f4da59c7e0076d7776605ca9dcd853f4a31991655779,
         0x0b7a4e0a732011c3e74cbf4c90e92013fee7c470e12a0eb90499e0e4d741b630,
         0x04ccb025f7a80b84540423ccffdf1c0c8416669e18d4d734794586622e9c32e9,
         -0x15d773f4ddc3f0d6294286c869f0741be15fdebe970f0dbe95dbae57773bc9d0);
    Four(R, PrimeP(), 64 * m + 4 * k + k2,
         0xb6c88e89b8129b7277b414a5648a11f4f2e9d97a40526e22ee25b80bac33406c,
         0x7ccf333f633ccb065d76f4da59c7e0076d7776605ca9dcd853f4a31991655779,
         0x5470a5c84b32e321637d2e208201a340a01ffeca339bd0aa80979c4f1170ec87,
         0xc317254ba84a4bd587ba11b418a59cdfaf2c1f8f11b46f0639fd66ad9245261b,
         0x62a7bfa2474c85a8c9974efe929cd60c4ec8fdd3265498bac720c79090aeda42,
         -0x1352f86cce84b6a25bc9de6b48afed28bdc1ad529513de14f102035af3c4ed0f1,
         0x1bda1e5d07d11d96c0dafca54eb51eb8ec18f8c9dc61d294a9e022392c0277c2,
         -0x040f33d1e3e8d1d6aa7d49d7ce467404326909d433101deb085ee0c6ef2e5afc,
         0x7e0a3376d947900a7a41aa6d2f81b1952d4c5c95a3d6fbf1603466442e7f0620,
         0x37bb41f89568cef5c6cdd2e994cb1bcf272b106132f9e19f52686b3ce0dae342,
         0x85cb39907677067b8d01b78d67511eb1647628882ae01b02da07cc24fc59eb29,
         -0x15cdfd15327c534781b55be1052a255c9bea5af47a77a25e5404fb6018ebf93f8,
         0x3e0e0b114b92083228758a9780be6e3cd331c492e049e8035494925d717fab78,
         0x449cc77e0a12ad6742065d4ef9d5d9f75ca1f6da00c1b0ccc8eb2e18ba88544b,
         0x0e05d1f4553924fe6c8c2d7e3065b67bde5d0c944415fef1de4ee9e5bb461835,
         0x7e6a7cd84f249d763a06b003098ff456b57fa8d78050bf86b6275d452773a44c,
         0x1067c4bc316d219724468f96388fae55921cfd6ad7e94820bf6fce44199772de,
         -0x15bdae4597c4349beded9f9fbd58b2f12e447663b1c9365cbf37bb53d74cb7f1,
         0x00c4a31899d313b9be92f4a2f931a06f4cf315a54510153a8234f05e3be36fd7,
         -0x03df309cec02d0399a22e4042e9d2cf0ba61c01aaf4d8f94f417d888e399bae7,
         0xd6be9e6daef03da7f6225309237433fd6749d3ba48e55744d1086a32681a48b5,
         0xc0c011ea3966c45eea06ad310e7eea14513bd10b558e47cf8d3fbb6c3561ad78,
         0x3cb15e9eeb873f399b8642be3fea6fe85a73e2f6a5432017e0c56612730eb10c,
         -0x9fc1125179e71b49837b57d4c42559fd88d5c11be24265ca9a1245b48cb0ea3f,
         0xb4233ecfa178256e3e62ee8319d950c4d7c150ab29ccec364b6ecd7c9adea617,
         -0x37a4ef2f128a0b8ba90b21cb3c3f10daa57f73dae72b490c85cb1da2d900fffa);
    Four(R, PrimeP(), 1024 * m + 64 * k + 16 * k2,
         0xc0c011ea3966c45eea06ad310e7eea14513bd10b558e47cf8d3fbb6c3561ad78,
         0x3cb15e9eeb873f399b8642be3fea6fe85a73e2f6a5432017e0c56612730eb10c,
         0x232359521f0e0a6d5ebdb8edfec99aa6083f85ee92d280a53cf82f10076328a7,
         0x34cf5cabda4bb9c7e79f11e446f0d4689280c9689422c35a7b9f450df9567e24,
         0xed47cc07b8c5765bc480e99029fd99f289d6dce633e3bfc75c5cc6f810bbe0a2,
         -0x1a2b8be36aecc38ff381caf2b518239c6a91146ab041cda4745fd77887c5484eb,
         0x04d2af4e04ef37ee6def724e4b34031374695959a79e3ccf3505c264ca7b3c23,
         0x13353b83f4d37e837e38d2fc4a305c00eb1607631ba8fa79f91d5450ff9d91e2,
         0x92aa12e4ac71e4699357ef1f0e55c574a6608ced8c4ea4c0682e47cab3e69345,
         0x24a4e168876dba5e0c1f1d8f5d15aaf928f816c883e7655d5f0aa6c10bb8b0e9,
         0x765097b71e7d145abe357ed3f9fa889ba1bb184ddb4980951a0cd80334c94b7b,
         0xef327a444803f39fe31de2b3d3d0756bc197c3cd621beb1fce1374761aad3bd9,
         0x54066e8a41d252d9593ad4383a4224c96fd4059a9c6d8dc30d8040598bb15c98,
         0x0942f7b3b69eda91376abd396904cd625e6af1609a7c36ef4d28a7f8f921fa36,
         0x6f7cfad88c4dc7d942b881e354b9ec0a64eccdc2bac97fcd94dfa9ac38c9a7e8,
         0x1fe49046c2d65f9283c96b6d512e817b4de0daa6e0cc657dd8efd7d82818f880,
         0x7ec62ca3b3d23aaec5a4d0972be28ee9edbf83d357e601700c75c670715bd3cf,
         0x57510cbcbfb0e808f0d16ebf5bb338e66e817a301601a981d6467239c91a5340,
         0x308d9e8bf1cca668be0e6a662eafb3110886a23fea93265b35925d4ba719d812,
         0x0211b4fcc6c49b1113c364df208136fe669c1825b511821803134e9d69a88122,
         0x81a10f28cfe03783a0dabc05e41e344ebd12670d02fbb9d29cb081631ca537ce,
         0xfb3956628924d1dfc7d8c0bb3304c08549592831c3c29b66bf169c3b054cab1c,
         0x790714368426357f909a98d2728b14cf4db0f15d055b566eaac6d4ba4b2c99fa,
         0x7477c83de3058ec484eda6543d9c668b1db041740eaede5e16cc23cc6606ecd9,
         0x41a3b69b755ef57194c7279885a011157cf202ac211a53fcf87af7c149c87258,
         -0x6f0fb521f4692ef3b69a127d5ee25b9aa71db30fee9b10c1ea373791f9f254af);
  }

  lemma Chain23(R: (nat, Point) -> bool, m: nat, k: nat, k2: nat)
    requires Closed(R, PrimeP()) && R(m, C_216) && R(k, T_9) && R(k2, T_7)
    ensures R(4096 * m + 4096 * k + 529 * k2, C_232)
  {
    hide Closed;
    Plus(R, PrimeP(), m, k,
         0xfb3956628924d1dfc7d8c0bb3304c08549592831c3c29b66bf169c3b054cab1c,
         0x790714368426357f909a98d2728b14cf4db0f15d055b566eaac6d4ba4b2c99fa,
         0xea68d7b6fedf0b71878938d51d71f8729e0acb8c2c6df8b3d79e8a4b90949ee0,
         0x2a2744c972c9fce787014a964a8ea0c84d714feaa4de823fe85a224a4dd048fa,
         0x802f452c4a4a0b0c992923ac9f0f96f47d15158d568665350bdd4b6f9adcf499,
         0x310d20cb8f38036af5cc50104330e64da88914750c31b568ee130138fead1de4,
         0xc034bf134f82a1375fb80c46ab0c06a406552ddfed08d74ea2605f3a3303a753,
         -0x086b5a2829e7c38b3f30902becd410e88a6092d92c751ecfd963d7893423d124,
         0x402f4de7036d87d8f3ff156c28b14786e0983e41bb7d5440ee01d0142fe2646f,
         0x653b6f8a9d9fe18d4c6dce8cd0424db325cf028d28a74e4395a252156a1b7ad5);
    Twice(R, PrimeP(), m + k,
          0x310d20cb8f38036af5cc50104330e64da88914750c31b568ee130138fead1de4,
          0xc034bf134f82a1375fb80c46ab0c06a406552ddfed08d74ea2605f3a3303a753,
          0xaa3974036dfdaaf916da0c1878bdbaf4f0c5d807fdef7cbb0941a7906a25ae06,
          0x4989fdbbdccaec15457e1b060d559ff7da31dc4f291e3da443af7e034c8ae136,
          0x7f695f877b3052918c5a8ddbaeb2abd151e59fd056e67acccc072e8c90ee27d7,
          0xe36a3dc9c2126a4b6bde8aa1b2275c45ea84da08321fd3911beca7531751ad49,
          0x71305af9dd5f58bc079a806bb18bfc78ce2246fe3631525e9556ac0c8ddcf4da,
          -0x1048699dbd66259f76f9b8731524ec5ea22fe9b64f36dc5c74a694817f3fe0ea);
    Twice(R, PrimeP(), 2 * m + 2 * k,
          0x4989fdbbdccaec15457e1b060d559ff7da31dc4f291e3da443af7e034c8ae136,
          0x7f695f877b3052918c5a8ddbaeb2abd151e59fd056e67acccc072e8c90ee27d7,
          0x6dc11886394407bdb2ef635e777e9ed8ed91b622c027ea996bfae627142c8aa0,
          0xfabd6301de2bbfea5eb8ae119c15146be000574f647ccc4e7e96f6f7bbd2fc82,
          0xa8eba4bfdf0b026453b36124015ed213d5e075b5d9be10da9c7cf8af39a655c6,
          0x2ddff960dcd833663007017a53686e97a9d39b79b2457e9aeac8556bb67a4d69,
          0x2f0e0088788db8d041626984daf603f952ae64f6f134333f553538d562d7daee,
          -0x4bf88ad82e5eea5e51d03cfd7bf1e18b09b273001cb7af7ff42d48e728937ae3);
    Twice(R, PrimeP(), 4 * m + 4 * k,
          0xfabd6301de2bbfea5eb8ae119c15146be000574f647ccc4e7e96f6f7bbd2fc82,
          0xa8eba4bfdf0b026453b36124015ed213d5e075b5d9be10da9c7cf8af39a655c6,
          0xef2e267948d7d644b102ebbc70b1956d200f527e38572a59cc3d931e9978a42d,
          0x042b5a3fb01f83b616464c5a0af0972a84c4454c06d801e4038cafb45bdb3c80,
          0x85588c232e5b9a70bbfbf038ec0c83822abbc3bfe50551221d0ce3bc1c0a6884,
          -0x1a51e6f5f20d575f3463ed80d9ec83f52c7538ee46fdf1778a9df3b66f8f74193,
          0xdf7734292ed89ee396f38bed6b47ad55e59e6a7c07c11e282a7507ffb607859b,
          0xe65ec97a40bc67fac4c02f47471d8169627d12e080b55b4cfc6077f98d32b5f0);
    Plus(R, PrimeP(), 8 * m + 8 * k, k2,
         0x042b5a3fb01f83b616464c5a0af0972a84c4454c06d801e4038cafb45bdb3c80,
         0x85588c232e5b9a70bbfbf038ec0c83822abbc3bfe50551221d0ce3bc1c0a6884,
         0x8e533b6fa0bf7b4625bb30667c01fb607ef9f8b8a80fef5b300628703187b2a3,
         0x73eb1dbde03318366d069f83a6f5900053c73633cb041b21c55e1a86c1f400b4,
         0xb04c0dfdcefc8907ae2538988af5f906d1be2fba368d71e37d3f415d035f88e9,
         0xe445fe0772a9bb62ec4d4a0e611389ddb7f562d17ba8c64a6d2a49ebca3a150f,
         0xc76b8713907723a30ec55a26d1e0d7f2fc2c3ea91cabbd934a62df73b66fd4a0,
         0x5f2476352e5b3be801ac4b77465cabdf9cb05a167680dec311266c384d327a55,
         0x7968a9d5c57a8ed9a4817f73a2b8fdaa9f2addffa9d8e618bd13f5e9fb76a021,
         -0x9a54e4c219392f5612c73ae6216d8c743afb36341b5205a291b2610b4c15b0b5);
    Four(R, PrimeP(), 8 * m + 8 * k + k2,
         0xe445fe0772a9bb62ec4d4a0e611389ddb7f562d17ba8c64a6d2a49ebca3a150f,
         0xc76b8713907723a30ec55a26d1e0d7f2fc2c3ea91cabbd934a62df73b66fd4a0,
         0xd8833940fe6bd86636ea00d04162f80381a184a21c5014203d4cf7987edfe17b,
         0x726406f3191b90e2067edfa7fbe371dadc5616a1e2251a0e35d60d00ce93c745,
         0x400558df93c1544d142709569d8f610f949549102daf452041500ff38ea2a934,
         -0x1115459b13c389585519b83127ee4ce69d603f9bccd3ddd2e4b20802a28612d20,
         0xb71db3e209c6153981135c9cd57b41267623608db2e969d5a34a5f08b424804a,
         0x6051089334fa4a12f8d23495177b389fa305163b1384f14c1a5dfd3c02d693c6,
         0x34e0318ef4cceb053031caf723efabaa1bc24c69e63a9d8f8719e91cde261341,
         0x308bd24b70ebae7b5497e8509dfd775ed6e5ec9a7f25e58e952bbff61805095d,
         0x05169297ab4db0865457f832c4438bb3f31b7f6f3e297480c00bed89333d5186,
         -0x7ee5699268a0d2b4484eb90713ad72888806ac26511ad86d3d92ddf67e189aa0,
         0x0aebd878e22388192b443b75b30efb4c966456e20d9fc1ac07ff42b1406de166,
         0x0d99949f556e8b9f4294b96c334f0abf2ccdb92e260dc0341262d2f86f198ad2,
         0x3a2cd2afbd4549342122c9254195397712e1af3e5627b560e348ddaa5e7d72fc,
         0x34dcee33140c18e064dfd2d26bfd4dfe770aabb858b527da55020737702f9809,
         0x93bad2d9e56be6a251f6ccbcacd0cbe997f92f90efac031f7732cdeac30f51f8,
         -0x194e2f1ff5b75911fad7afeabd3bd572107a367cc0db5c5596c767b31842d478,
         0x0d385750c8c99777814363baa2861566151a02d8283324f5af955a89127c42b3,
         -0x00fb21d0c747a7599aa6e91535992f9382613a5da7cbd11acf031f937a4a5332,
         0x3a6b2691a24ae678755d189ef36bb58dfdb026e30bd19f13797dfd7179a3b256,
         0x8d77532550c42d38835efed0f744bdef2c5368626eec8e63c671971ee96eac4c,
         0xad5a4a4047936aaf21d58ceef337c6dde30fdb82a7d71387575466d7c53d109a,
         0x22acd3ed9b9ac957ee5c5912dda086839588cf7b41d2a93534a44051fab21e50,
         0x0d54ba534e6be465fb1f2df4604f00bd280b80a465608c28d1ac125fe80e277a,
         -0x143810c079d3e8cb74c3c8888c8901ac15f2effd93b186e70fa954dc4ec338ec);
    Twice(R, PrimeP(), 128 * m + 128 * k + 16 * k2,
          0x8d77532550c42d38835efed0f744bdef2c5368626eec8e63c671971ee96eac4c,
          0xad5a4a4047936aaf21d58ceef337c6dde30fdb82a7d71387575466d7c53d109a,
          0x3558599714db370696ea7bc059f970a5de7e0324f9ea6e80e255bb38278fb845,
          0x4c851380c8d72bf6d4b424c38c518165a337c5218e35cddc7e4f2d97d0e854b2,
          0x7454391454de9c1d5216848fe1c8dc51bd0f8ab26fa202ba5e892d7519d1fa44,
          -0xa246f17a1c0ea1c5b7e37c0e3927eeae642b542b780756302a4ac29efb01af57,
          0x0b1db39650f934bedd70d4a0914f2d075ee8b2903fc83cbc8d2dd4d13c0c6ab1,
          0x0d88912d8a89a3611afc2090cd923418a1e7db88f294f13d7808372f4edcbe5c);
    Plus(R, PrimeP(), 256 * m + 256 * k + 32 * k2, k2,
         0x4c851380c8d72bf6d4b424c38c518165a337c5218e35cddc7e4f2d97d0e854b2,
         0x7454391454de9c1d5216848fe1c8dc51bd0f8ab26fa202ba5e892d7519d1fa44,
         0x8e533b6fa0bf7b4625bb30667c01fb607ef9f8b8a80fef5b300628703187b2a3,
         0x73eb1dbde03318366d069f83a6f5900053c73633cb041b21c55e1a86c1f400b4,
         0x9ea6599f41d1c8a9fccf2d88c3c52ff2e8ea9b922c6b84ffcdc8ec3330df258e,
         0xabc316472f10ae371a5b2f81f586338564833d01af9e2de9bcece8ffd3e38153,
         0xc111e30c43766a9270466483c1f99692f8e424d0a6d1e0e45763e1805f7cb2b9,
         0x28c7ff5d12c17c62285d9d0faccac96f38f556f81ed4b30bc0d893a2023915c2,
         0x6251c2b9517a3151b0b5b03bea7e7d21d1ab0ef84fb87f1561e707dc236d2de4,
         -0x3b06294449bb6eb1ff76c92eecd0a8235008d3d5c028a4a3125ef3ad81ac4cb5);
    Four(R, PrimeP(), 256 * m + 256 * k + 33 * k2,
         0xabc316472f10ae371a5b2f81f586338564833d01af9e2de9bcece8ffd3e38153,
         0xc111e30c43766a9270466483c1f99692f8e424d0a6d1e0e45763e1805f7cb2b9,
         0x6ad3ef0cc2adb4848acee7f765112db3320d3015d9fdd461d525103004f36882,
         0x9803d8ee5ed835c24ed71ca415fc880f0991869b56998d7a30801278180c0dd7,
         0x7f09fec9101891316572dbf6ddd66afb4bc6366169e6d27a127cb07fc965279b,
         -0xb8982135c70672293b0db95cd03dd315207a4a3cfae63cb567cdf781197d912c,
         0x2c94316aac0dc963004de4354b1877ee72f65a964430e2e4d855f1041e5d2e79,
         0x083d8876e4e9a6176f91dd44ac3d6ffc8f63d3a00a935a9c95246a32afdad55c,
         0xb8117ba4cabcbf56c5077417a86c3c354d303a799c2df5fbf25209e098c918e0,
         0x34b37a63c571bdf8cb5010757621d93f90c64beaefae469f440191be05338180,
         0x42508ae1ebcad6b14b1c26715f0df46bfbb16f47d50ec7c3acade5addc47e6a9,
         -0x581dfcb1eb8a0bb489037ef94ddabc91f361fb2f206fae3e78b50056d321bf90,
         0x845922ef0f6327f2720bd882f067dd36d959e9b8650e36ae56a7032c2320d92e,
         0x47688c41b86e2e8027ef6806b2aa0a3b5755b7bd999680f31ad7471f02bb1a24,
         0xacbb7b07fcbff86cdde842b6b037754d56133796b4bc79076d291f552991ff54,
         0x6a9a2e3775c8badf5b9c93ea05bf3fbdff18328ba19a77e7abef3b17136e6a54,
         0x763847eab56f588fb3b45c7d7f622442294e4ef4844b67e0c992bdf3c30f1ffb,
         0x38f125617de833871620b6a12f7366a072d2e05d22d834ee1dd713c45560b315,
         0x748c76a028fa5a07326ce29a485932b4836fd4fa81ba45f6e58061befa04f9c4,
         -0x245e7a3f4167e0ab57141a9e19e01f88dcc2c8c9e250a5af1ba69ced335567cc,
         0x06569738accefdeb7160996e63a592206eaa0a2fa33bd2b561950f524421a906,
         0xb447d1351e89f5bf8dffbe92a932b45abebe6e3ba3870ffce13c611d7e6c53e5,
         0x6e7c5bce55ecff7d9d514466bd443a2408e2450b771ac13718985cb4c47e79e5,
         -0x7f51848b21e0feed1d402ecb9dfabe287d6c12c5998520ad6640c526a697e317,
         0x00282c609ba9e3c27dc40ecdb753b74163bf54439ac1959f429df53b72243c69,
         -0x01d2fdac6fd9b84e4d1f799a2ebff97b0551b40c4d02ca0c4c433857b79d33ba);
    Plus(R, PrimeP(), 4096 * m + 4096 * k + 528 * k2, k2,
         0xb447d1351e89f5bf8dffbe92a932b45abebe6e3ba3870ffce13c611d7e6c53e5,
         0x6e7c5bce55ecff7d9d514466bd443a2408e2450b771ac13718985cb4c47e79e5,
         0x8e533b6fa0bf7b4625bb30667c01fb607ef9f8b8a80fef5b300628703187b2a3,
         0x73eb1dbde03318366d069f83a6f5900053c73633cb041b21c55e1a86c1f400b4,
         0xb3aac044555b8dd72ad6c3061a55e5f3e68cf32383fa3d46833c44f6878a1dce,
         0x51a4486aaa58693d09405b5da85795c94e3683415f79f8d5cb6aaaca0d12a53d,
         0x19dd46dfd341597ddab4efec57de93c3b43a28aeca657b5e98bbe3e4e787079b,
         -0x1aa355a638b1213f097207b60d42521120265bee8e669eac7434834f80b83c15,
         0x7e183ac3f89e32fd8c0f39af0f02af53186a0570fa21b6dceb13867c53765a01,
         0x453a2353a5d5b199cb61778c8789abc5a3939c1fec0e35d771383aba8e81ee50);
  }

  lemma Chain24(R: (nat, Point) -> bool, m: nat, k: nat, k2: nat, k3: nat)
    requires Closed(R, PrimeP()) && R(m, C_232) && R(k, T_7) && R(k2, T_5) && R(k3, T_3)
    ensures R(8192 * m + 256 * k + 8 * k2 + k3, C_248)
  {
    hide Closed;
    Four(R, PrimeP(), m,
         0x51a4486aaa58693d09405b5da85795c94e3683415f79f8d5cb6aaaca0d12a53d,
         0x19dd46dfd341597ddab4efec57de93c3b43a28aeca657b5e98bbe3e4e787079b,
         0x1e24e23be43ebbe98edbe61394c3a6ed01a7f4444ac3d5e4cce9f95f1f1b30db,
         0xce6b18d2c17e439af6fcf8a067f812269b1a0b2de9f09e754890769cbe0a0a7a,
         0x03b40d3a7d1a736b358f84b46b5ea317a19dce734401b04c9ec6d51b5cc34144,
         -0x4804cd322f2482af19e07c5a6b096f03c039058d121544b9be406a9c5ce0119a,
         0x038caa5675d15d07cda3367255501b61fc3cccce7be2f8d1e9bfeaee76aa799b,
         -0x0eb146a645188956ec9d8a49577fefd95e105164a7f9c446927de296e4a7abf2,
         0xaf7b1bedf0c2915b1da8d0b4b2c1a7744f9b9aea67bf3dcd991f35c737a3050b,
         0xe8ae31ddff32121fa277545d8a32d6564b9a4a7b9b806450de387cda1c0191ca,
         0xb0a491693cea43bd90c8c8b874d134fd7e9c748ff1dcaa1c927f961323cf4362,
         -0x1ee3de05b39d4e2f7184c0765b2beba22fcbec5389fd5c11d36829a7c300afd6f,
         0x78498b63a124f7061e4e789416086a1431228e07116de20a050f90ff71fa3845,
         -0x12007f39460a4af113b087393f4b11f57223b983457b2dd773015b7b48361aea,
         0xead75cf07542905a364f01948be976aef4a71f8ffd4aea0c6334a6b6a53b30de,
         0xf3dad445bcb603c3873eca923bf6a87dc0a1fb98e2f59f2e38a580d38bef0090,
         0x9a15044ca1a7ea6aa71d19bf39fa3f2c205b72aeb828c4b8c387a54fda43ce97,
         -0x1365e843d0b708c2b579ddd6ab5b3c1b99eb2372a1c0281ac96691091441a43cf,
         0xd76e6b15ab6ec6ec21156cde7fc4053768308867f02bb29048b7bc32084a23a0,
         -0x0a4032fdcbeecf12ebc1fb246eb3890cdbdbc6efee559c4f8436946f479fbe53,
         0x978cb8e07dd87c56cc89fe8d74bcc0fa1a1f46c755cda9d4569a19a28ff87862,
         0x17109359766b062541007b485ce14bb009fe2c2b329f8d06b36eabd4ca4ef883,
         0x57c35146a1a4e5b4bb84e2cee2995ea163a1616914e0fa26ea0f1a6b650a43b4,
         -0x2026d4d864695278fdd85766201643d7b1187711556c3f5f1c54201b05d86c89f,
         0x59b74f73e939d0ad9f3080de2269f8adb0c1c5ed823cb5e767dea5ccefb0f41f,
         0x82b4aa5a5d8d6fcf4a37fb5303fe2ce538b586f62ad57057f7ed76b10cace551);
    Twice(R, PrimeP(), 16 * m,
          0x17109359766b062541007b485ce14bb009fe2c2b329f8d06b36eabd4ca4ef883,
          0x57c35146a1a4e5b4bb84e2cee2995ea163a1616914e0fa26ea0f1a6b650a43b4,
          0x01c9935001242e2ad61b239ed72dc2d076f2fa950d1f28b2213af8e2be74bb31,
          0xa88e70b7b351052687c1b42d606de49b2e8cb7cf369b6d0a7dd9619f96f7da3b,
          0x5b0062844596f5a213d9094cc105d935286fb43c7ae5be82ec799a74617e9ca9,
          -0x0502364d267489c967d80f4ebcda9165c67850f799fa0f8284ce1fcce0c0a9d0,
          0x000331df486c3f5c60fcd4849b975ef4c8596d1dc95867f57207cbae424d2be0,
          -0x01040d68ec571c35b38124123223547173b7960899ceede17103c352d8e2836b);
    Plus(R, PrimeP(), 32 * m, k,
         0xa88e70b7b351052687c1b42d606de49b2e8cb7cf369b6d0a7dd9619f96f7da3b,
         0x5b0062844596f5a213d9094cc105d935286fb43c7ae5be82ec799a74617e9ca9,
         0x8e533b6fa0bf7b4625bb30667c01fb607ef9f8b8a80fef5b300628703187b2a3,
         0x73eb1dbde03318366d069f83a6f5900053c73633cb041b21c55e1a86c1f400b4,
         0x83a30d9650f6258d14eb617429dcf3df59a5c928376aa4424d673ad1d1f967e8,
         0x431dddbe570449d1058ecfea6167426f8962f097056454199c2b610ac035ef13,
         0x30f4414edd73140f985b14d04985d969dce47aaf6350f7842899fd547f0b1b2a,
         -0x0d7d015b4492e824d4e8a9a3c3a0525a933661534ea7822a73129da7f7209235,
         0x43b047c268afe82053f04371b17b33bbfdfe58e5bb8a1e8e94d0f3a66d38f9b1,
         0x34293745aaabbec5cf0d4ed2628c6d916d9c62d3f3d571f9905def3cd9478393);
    Four(R, PrimeP(), 32 * m + k,
         0x431dddbe570449d1058ecfea6167426f8962f097056454199c2b610ac035ef13,
         0x30f4414edd73140f985b14d04985d969dce47aaf6350f7842899fd547f0b1b2a,
         0xf99a98c677df5fa909f310e9c1e4d2e4d7661c86650dd382f74d78255dbb4d17,
         0x1e76d8e54486984edfd37b8e38573d6d672861491a6a5e836a8fdb7dd8b84e77,
         0x8e58390b3841a2f022fc8d72bfc6b16c7a7716d89ee4a5016ef9fabfbcf03263,
         0x2aac56af415961db58b99acba28937d86c9b7102f06f8b73d280d0aa61b54cac,
         0xf35e1a8f3283239b1321fb85f09d3582bf9857559dd1f2980e5525e0ec53548c,
         0x23bc960fc68638a33f8f11ae62ed2767bed87b3cc43e4f24720c8421a86ef389,
         0x1f7bfca8004798e8724c6e51d327af0c8b9dcfced075624ea910059c69819217,
         0xe3bfc7dbbe3725bed6c62e067258481af657c81974217ea2c81a46d55ae99036,
         0x35ee06c5a15d51eb79304aff9eb59bfc8b3e77328e7b29f7ffc220e0f979023f,
         0x18230988ef68584e746861f28ff57d4e29417684180e7596f9b4cde92eee3826,
         0x03df433d76bc0de000eb88ef07ba23e0dd57d8650a27dae12b3f805d9fcdef13,
         -0x184361b004bad93ecdad93037d904b9a9d1f893e54599589bde0bd15076bf535,
         0x0fbe3f876cad27ea18b7ed7d9a18e7277f5ece4c2b3a80b2926ec17398dbd740,
         0xa2267936161d8c81c934696572792fe648a67c8521ea364d778c5a453cf4e56f,
         0x23e95370a3e4dc0e125fefe652b31ce50afba8ad5dbc9992feeff1a67601e895,
         -0x25936f773889151f3501453b44f0cfa323463ef901fa39748535a2cc743768f57,
         0x00f7d8d43c7d63a9f04fa98c08abfcd2d2b87476ec543f72e1693809f64b75db,
         0x0408bbab85e14862237a05c0be65ffa96da2f9401a214778ef4c413e36a61814,
         0xea3bd5815214ac62bdd641c3c5ee11d4ff41787f86b8dcc7c880b123e93da3de,
         0x7fe52bb28d3a8526e753e9d1566618fe10188d20d123a4cbb11fad3209c98bc9,
         0x1121b8dae100cb2672afb7d25ae9406f015028c8b2986f5a452ecdb876c7547e,
         -0xf266cf9600267c152f5be66666ee87d09b80b42e0a82e4ef7164210896d7ce0c,
         0xd651704d5c0b84e2b84c911612d34ffe17856db1d37183030a4353e6e702e223,
         0x1f57b278db29f2b0a65b2e567e7db1d768c9a496a2d14bdecd9ec185808ecd1f);
    Twice(R, PrimeP(), 512 * m + 16 * k,
          0x7fe52bb28d3a8526e753e9d1566618fe10188d20d123a4cbb11fad3209c98bc9,
          0x1121b8dae100cb2672afb7d25ae9406f015028c8b2986f5a452ecdb876c7547e,
          0x9f3a8f3f362a9495837039eaab7f0190e4339bd6662d086ff4ef8a06a53792fd,
          0x2b504dbbc709031aa41586b2e6f2bf7f12d797f9941537397ea25c9213a9988a,
          0xe1606d04d83e3f772c45dec815757e51496ae81a4c10a1b5c55ba02ca981e91a,
          -0xaa5fd173f868090f64e7ad2e3e6f8985d525f01dcff7a82ea71aa3800c9f0d9c,
          0x6309cb56211ee95211843cf9ec732acce0c1bd508043a12810c75f8f88212213,
          0x349bceeace2266ae0a9580a6f605a42193cb842a9c1afe7b1f056351cc72ea55);
    Plus(R, PrimeP(), 1024 * m + 32 * k, k2,
         0x2b504dbbc709031aa41586b2e6f2bf7f12d797f9941537397ea25c9213a9988a,
         0xe1606d04d83e3f772c45dec815757e51496ae81a4c10a1b5c55ba02ca981e91a,
         0x51590b7a515140d2d784c85608668fdfef8c82fd1f5be52421554a0dc3d033ed,
         0xe0c17da8904a727d8ae1bf36bf8a79260d012f00d4d80888d1d0bb44fda16da4,
         0x9ecc36b24158c0aee2bfea02460f53789e1443c6404892c3417afa8dbdee388c,
         0x83d7f747ab111aacd283859f95ff7c9500a071a1b0a16877be9a622617ccbee6,
         0xf9488c0d47131fbe65d78dd31476e8467fa5713291f345cd39fba645cea646e5,
         0x1797bc3338960b528751b5bcc980248cea6195256ad171d4eb6da4c7fffae266,
         0x6280b66ba2f219669873952cd99e9452feefc9acc5238a58555cb1620678fecd,
         -0x36ea59a9ebd19757ff6a14cbd8a86f10f06bc7697246c39e0e798707feb2b5b1);
    Twice(R, PrimeP(), 1024 * m + 32 * k + k2,
          0x83d7f747ab111aacd283859f95ff7c9500a071a1b0a16877be9a622617ccbee6,
          0xf9488c0d47131fbe65d78dd31476e8467fa5713291f345cd39fba645cea646e5,
          0x97a3ec5a23b71974a2f8008a754e8ad427b671bcafeb52e4ae600b263a1ee532,
          0x7bbd0f608c7928bf0fcaefc40349a491bbbfa62ad9fea7d1fb69bc2b83913f96,
          0xa52d30ebb0712bf2e77166efd35a552873e6142c9a9f41ff242bd9ddae0c5863,
          0x5b9e9c19c6386745cf0d43cec4be9d96db795191fa0adc8f2aa33ef3cd494075,
          0x59d2c9c984f49691e6926ba38b8a542f2bce05056f6f4a41a50e260a86403f9e,
          0x04cd0f66a8613b0c71a970e7c833d82540050600478748dad3edbee844d131a8);
    Twice(R, PrimeP(), 2048 * m + 64 * k + 2 * k2,
          0x7bbd0f608c7928bf0fcaefc40349a491bbbfa62ad9fea7d1fb69bc2b83913f96,
          0xa52d30ebb0712bf2e77166efd35a552873e6142c9a9f41ff242bd9ddae0c5863,
          0xb069de89a4981947b55927be9b4aecceec0662f6fb4fe3ed1955d75938caf41e,
          0x51d2cf0b19a59a252034813faf40539d58554064e0e2feb0c21876dbe37d0dc5,
          0xc14d62ee741f87cd8c0b0b162f945ff4e525fcfd4b63f3046d926c413fa1ad6a,
          0x3039184eee5fda087f897426febf1acbde8584b9df657faaa2317ce8b3881475,
          0x7991bdc60a3ee8c647512cd18f5076c3222ce5c6de28c3d7513e62a3a27e596d,
          0x1ce261beebf96c4c980fa6b11cf1917e59e74c0140ea2e04b80eaeb8e4eafb4f);
    Twice(R, PrimeP(), 4096 * m + 128 * k + 4 * k2,
          0x51d2cf0b19a59a252034813faf40539d58554064e0e2feb0c21876dbe37d0dc5,
          0xc14d62ee741f87cd8c0b0b162f945ff4e525fcfd4b63f3046d926c413fa1ad6a,
          0x1e8b253cfaf950f1825d9a1be4a3c1e12311491ebcb87a7e1f467f3b00a286ea,
          0x427c9b74af5cb30863416908d2da0b27a65ce6c64aebff45af0d891f0d16c4fd,
          0xcd2dd4c8c99f184bf9c089e4c3f966e0c8606412d5c1ec26100113df92159d94,
          -0x2054f8626bf3fe8c1095e27e5332bb47df20fc332ca16ec080e94db19be53100,
          0x03a4e85bc41a9124ed96d05779cf7807d97e26a7c616d886327fb3cbcccf12a3,
          0x01d47014c1a6a36f863c20651c709efd09b8560ffe16b04ea547ae793f90142e);
    Plus(R, PrimeP(), 8192 * m + 256 * k + 8 * k2, k3,
         0x427c9b74af5cb30863416908d2da0b27a65ce6c64aebff45af0d891f0d16c4fd,
         0xcd2dd4c8c99f184bf9c089e4c3f966e0c8606412d5c1ec26100113df92159d94,
         0x5ecbe4d1a6330a44c8f7ef951d4bf165e6c6b721efada985fb41661bc6e7fd6c,
         0x8734640c4998ff7e374b06ce1a64a2ecd82ab036384fb83d9a79b127a27d5032,
         0x457437d699bd0319386f311d3466d83f747b228fccebb41271859bccc11c6347,
         0xbeb48221be1c41c5322bebf2c6928f2a950d160aa591eb3f325e65b92e5dc213,
         0x5f93f59d4eba656a9b1211971e3cb0305fafaddf25571b636628dc4af4028f7d,
         0x07ae38e018606dfab4659fa04c99250bb5ce48fbc7c9423495565b72c36a1ed5,
         0x12d7dadc6860fbc75879b3d50a8c25ddc84c9b735c2a794e4fc550f5165486cb,
         -0x21b3759970fae857fc8668e9ee0540b2e7972ebb706eb535d2eb1e1e86f01fd5);
  }

  lemma Chain25(R: (nat, Point) -> bool, m: nat, k: nat, k2: nat)
    requires Closed(R, PrimeP()) && R(m, C_248) && R(k, T_11) && R(k2, T_15)
    ensures R(16384 * m + 64 * k + 4 * k2, C_264)
  {
    hide Closed;
    Four(R, PrimeP(), m,
         0xbeb48221be1c41c5322bebf2c6928f2a950d160aa591eb3f325e65b92e5dc213,
         0x5f93f59d4eba656a9b1211971e3cb0305fafaddf25571b636628dc4af4028f7d,
         0xd179f413ae3bfd5ab16b4fa72c59c7cff3de907e09f0fe2e6784aa84fdd8df5b,
         0xf17bf6f5500b620c23e94fba5feecafc8442c2dfabe40c92515648b46bf4e66c,
         0x497d40eee3b88406b2f350ed2c97c119d8ebd34b9ca56fe9faa2be137623a1f8,
         -0x10dc6aa2b4da45c5b7a821fc98bbca08153724a19382fabc162c00e9ae9f160a6,
         0xab685aa1713688aa09ad35a9cc65bc0938e905c5e23fd8c05a39811b3e40c039,
         -0x298d07111e6804ddb6fa670b4631a34824e032ae4084cfb4318dad55685e5be8,
         0xf3651f1948b6da881c2419f75d7cf4b68afc8df485801ac4b19c7755233c6f0c,
         0xc36ee91ed515d43ab989458074f83c4f91e3167749b3b858f28e6386ebb672b6,
         0xeb42b1f6eafb4bce7b4aef5df403dd994af5b51f8338c8b7ef51de2e4aee45ed,
         -0x21fa2110fe0e84c454e3fdd5e2bf147200d55920bed98032c3dbbafa0b6398693,
         0xe76920fc752ec63df3e365f7d89f02158448c257804690d50c627a563dd4d6fe,
         0x2bc894e1592610b169f537df6bb2e0587b445b6d89d03489e79685a1a950915d,
         0xbe23251d063af957b0c233d8caaad3245a71d35cee8041a4da77eb003fc49840,
         0xb7683bb7439a44eec834adcc611fc91901a661c6acd117df993aeb88c3787051,
         0xd17ee89fae871fec983a3d29587df306d5ba8ecfcd14fb14419916f2ca4a5496,
         -0x621edcf8fe02ec090809ae83b5d9b9edc987af5eadf6473fc34537e9cc889a57,
         0x8d382feacdc8d5400e81e7a174b35e8572c1e9a6b875656bf36fd8ad9e5945bd,
         0x08ee9b5af02dbda6868f5bb389acd861ee501a585b14aa7ad72a44a183f80943,
         0xd6773521eb6e218ad74d5d85cc0a9a6f3f123dbe6a34ec9433b8a7639848538d,
         0x489896a1a073a10592fd7ccfa50b56234877908cef8eaef03490f1f1951a76cd,
         0x52224b5cf59820e1e009d42b38c0ad2d16fc29c8bec8f9ec135c00bdc44bd1f8,
         -0x2b2f47949f062edbe5c420cb883362b6e6e3232c1c3c46463d65a5661375845c,
         0xb3ab8457d9d794c89a0116a0ad5897df6d13b2316af17af79ece3c4e91769bc6,
         0x5cd52d85dc205c5a5492b2dc691fa830f9486ea5058e2e3bf2612ac2ffcdecda);
    Four(R, PrimeP(), 16 * m,
         0x489896a1a073a10592fd7ccfa50b56234877908cef8eaef03490f1f1951a76cd,
         0x52224b5cf59820e1e009d42b38c0ad2d16fc29c8bec8f9ec135c00bdc44bd1f8,
         0x0c226bfbf1244da56d3dea59525961a1c5d7418bd2bf0657a343a360c1befd5f,
         0x5eaa82cbb038bd4d76d695ff41ebf27f7d1f3d66b9d4e8afa6ada65080001ed2,
         0x2af0b52404a10f51388fd1d652663bc4af3262ad8a903167065a90a8b18b6d0a,
         -0x35f941938dba8d00dac4e587981bdba79bdd4688a8cd6fba728c34f639192598,
         0x00933ec07ba74733b680c5eb395e30de24d7e30ee1dca0135d8f006d586c232b,
         -0x010bcec28d7146a2fb784bd5842eee0f26e519d5acabdea0496e063cef2c7623,
         0xea30a681eb3db7191830e6b024dfecb258084f4748962ce8872c056b725175ba,
         0x12bb43b9ab7cc2dfee8ed0cd3e46225b83f05b2a9d3d8c89bc894971480ef009,
         0xd2c24bc33d0ece46032a8c16751bf2aa5292cc492ee2f0743a5df3abafd2e2a2,
         -0x1a749f99405a3473053382a6bfbcdd33fb551813a3fc0f0079554ae94d77e9bf,
         0xd63cf9a5354ec285de85b0a3d2773e0549b05e521733770e743641d0ea37a289,
         0x45771de63d67386a5b6b22cdc93e3262809b862763d5a6c3990c706c322774a2,
         0x1fa23c12f7f489104fd28394d71dfd3e52e79c226f047a8e036050030f87100c,
         0xe0fb4948ace127702c81721947299854b41a1372c900c73857f386e94a5390fa,
         0xe204ae528426dd3a51cf63a53a7f95de00439f9380215d6ed14ccd0febd64a55,
         0x2ff993a54d1dd06242682b08a9728aaf3eeb560c6bbd933e00f550a9bb3121c0,
         0x03e8b15cb210a1ae88eea8675d22ab742cf526a2f84fe991b7e31e6084c7f07c,
         -0x197c759638b9307c88939e460328d337756109ae6ef6d92bee9e730e00f937bd,
         0x3e65babdf742db1543fd1d74953b20323e296a4e9382d73bc6727da54e17d646,
         0x41bb3ac398b6a41cad96690e8c8c9af556ab0376d68cf61b058b6dd55f4d0ace,
         0x45a6e44848ff1314294565b2f55c6fb97446e338b244ff312bcffccbfb271fb0,
         -0x1e2fc3eda091f6ac44e384ef1c02c9b79ab8c05220ebe0c3d53b46ddad01a2613,
         0x0f356ee0f51784043f7ccd8beedd76372348201a82dee6978d4d60a11807119e,
         0x26d0cbf4d2dbda3ea7432554dd09e0d9ec226478cdaa144faaf9371eb917f1fd);
    Plus(R, PrimeP(), 256 * m, k,
         0x41bb3ac398b6a41cad96690e8c8c9af556ab0376d68cf61b058b6dd55f4d0ace,
         0x45a6e44848ff1314294565b2f55c6fb97446e338b244ff312bcffccbfb271fb0,
         0x3ed113b7883b4c590638379db0c21cda16742ed0255048bf433391d374bc21d1,
         0x9099209accc4c8a224c843afa4f4c68a090d04da5e9889dae2f8eefce82a3740,
         0x1312cac5f28b33e2985bc82b0b56e1a5aa162421c2600013b3fd0ab46de86a69,
         0xb138c5f3c8ced28773b1429aafe90f14ef0e441cb8f809fa0267d9a71ce7bf32,
         0x4bf010b48f0084f59ae5a04adcf69bb737c4b153926c0d87e4f14d54c5dca36c,
         -0x003797aba80c67c93088fc99b317aa672ec4110bfa31a0863f120b7afecc96ab,
         0x016bcb7a87df8c9452d9bab1747fb75ab2ac2e9bf6cea34c3b4744097c65ccc0,
         -0x084e8077aa551cfbbc03779bbac598b1b01beaf87661842061bc33045d36d7e0);
    Four(R, PrimeP(), 256 * m + k,
         0xb138c5f3c8ced28773b1429aafe90f14ef0e441cb8f809fa0267d9a71ce7bf32,
         0x4bf010b48f0084f59ae5a04adcf69bb737c4b153926c0d87e4f14d54c5dca36c,
         0x5a9f1ba5969ef050801ccb05b8cac7546bca3397533e42c3a50b5fb7d02df229,
         0x6a79213e0b742ce14414bc694efbbcc9e120e09ea05f87d40712ce9b38d5053d,
         0x3a89743e1023a857bb2beba9c1e5a15fe969d05f427e59087cc22a501821ef99,
         -0x13a4b7a9d93531b87a2ba5f4d787721b4d26c22b0dca7bb69a8ddc038d885974f,
         0x20144253e8a9759beed9fce350427ca8f1e57aff09a67eb8fda72b89cb28f910,
         0x190b589344025d6c23a4861df97b4e01e54c4d1799a1628d3f514d9ee32430c8,
         0xcdc19dc82eb10b2155835c8235fe531821923f97c8fc43a964ba8609194a54ae,
         0xac7368779f65324e4a6f343357dd2360ab3aaf63cb70a8a538850563efad0fe3,
         0x2d5e74bb15dfb99f0457e7eb90602dd9d6d8927aa5da49d548563f25fe76f07b,
         -0x26c0eaf2cdfba0ccafdf52cb61b7332a8d5043758a34fcc3b98877a442f9ca64,
         0xa55fa922893cc1b633e0cc36cd7a5d5202e570f102007d99af72ec3f54bc7419,
         -0x35075163182669dc9cc8a3a2e537e4920d43e211232f44e19da546cb75156b18,
         0xb033ce6598ab83a88dc9760121a06e42dd68ee9f47134a9901dae0f2177874eb,
         0xdc987e1b9e7b5dbcf01f9f64d7a8ff32423ce48416711a5d2d6c36e5fb4a3c11,
         0xc1f28fe87a275f30491551f38d85c1a902937947282632d3f26582f5ca065d0f,
         -0x11e0d9beca3cceb05ab39ee2ac170d5bbf147b7b940383aa745e8f4f18a3dcffa,
         0x794746480e1599aba7311a5b95ef04961b060aec80b556ad79bb17b1ceee8c1e,
         -0x21233d1522f013b4b6874b6d5eef9ef670fbe6996e0d671400324a1f7ea64c3c,
         0xd42903aaed3848ef172b085c3f14709f205f0971bdef7ddb72664202390a4dab,
         0xe4663d5e08628b954f39a7253254d7cb728276141a8293d53296c18ff48ae9a9,
         0xb35b62caecbd25bf61f42c9ad05064c906736eb284a76a7e49b88296f0a2b830,
         -0xf8cb77278efa71f5c0c168cf1b7ce9703e4401f3a8dbb2a9fe1cc0e151e36caa,
         0xafd3f4a5f5869d27dcef15a3d30ef830c6ccaaa87709212d1c4035af9c331192,
         -0x0677a27346e805144a0e5fd09206c4bf82bcce60d759bbb9c7cc8c93b2fc3e39);
    Plus(R, PrimeP(), 4096 * m + 16 * k, k2,
         0xe4663d5e08628b954f39a7253254d7cb728276141a8293d53296c18ff48ae9a9,
         0xb35b62caecbd25bf61f42c9ad05064c906736eb284a76a7e49b88296f0a2b830,
         0xf0454dc6971abae7adfb378999888265ae03af92de3a0ef163668c63e59b9d5f,
         0xb5b93ee3592e2d1f4e6594e51f9643e62a3b21ce75b5fa3f47e59cde0d034f36,
         0xb7ab0f2a35236db144b494c2faadd556301529c2d38bce2d3c87178e1c359116,
         0x5e05ef125fc5f7bf984f64c26ed21f5629355a5038ecf67cc1b0a68265931e04,
         0x98a5a96d6a7ac9e943cb907aeba641317c1214144c690a5d2eb682d50fe9b3da,
         0x0884636ec36706c983e00611cb7b4f667be9f9cdd9448d5749cddb74d2790f62,
         0x83c601fc1f079f5337d007cee0437b4dc650bec0c82b7b1113df491c0a63b728,
         0x6068a2428ec200c5f672f8f0f5d9eb1eb31d9a1999af08f0b922882e27bf76dc);
    Twice(R, PrimeP(), 4096 * m + 16 * k + k2,
          0x5e05ef125fc5f7bf984f64c26ed21f5629355a5038ecf67cc1b0a68265931e04,
          0x98a5a96d6a7ac9e943cb907aeba641317c1214144c690a5d2eb682d50fe9b3da,
          0x00e04398830685690df5e208459a98defd8832b5196e2be0b8df82c16c77f7f5,
          0x8e28605c6c1bcebff5c6b01155d9c0cc20d5c9e43471bb573bb66197cbe30dad,
          0x1c1fe69fcae7f266731eeb4d3c55b4414c8f701b0a8f8f1a82e62906208fe9bb,
          -0x668da0996c5acf3e84316177c1aa6eba67f1d6150cf98278d1b6df5ea6b61b17,
          0x0000c4765cbf3f511939ffe99dfdedde9f8c41be7ad0fbcfff9389c36918993c,
          -0x002a2ad8d1b17503edbdf541bf0b0d8b27b1ac257cad7e450b1ada46113af6ae);
    Twice(R, PrimeP(), 8192 * m + 32 * k + 2 * k2,
          0x8e28605c6c1bcebff5c6b01155d9c0cc20d5c9e43471bb573bb66197cbe30dad,
          0x1c1fe69fcae7f266731eeb4d3c55b4414c8f701b0a8f8f1a82e62906208fe9bb,
          0xfcd96ffebeb7a47ee4590684b7c9a2e0b8fa03beabd83654d7d76cdbbcd60335,
          0xf49a46909cc3c3ae5f0e0e4175f697b4a1329f91ef877055bd355de11d80cd19,
          0x8dbbca34791cf88ce183167846fd2483d0e1a00d08a2297ec22a39c9f20f6e1a,
          -0xb543df13daf38efff63913922455903c3dd391c10939e25aca1f47ad691a14b6,
          0xf9bccd2d9014933d8a2bbb8d974d2bfa1fde8ebacc9da36e9772e4c380a09f7a,
          -0x652f21f93b76c46d482ec2cc890ff780cfedaa2737e3f1eddb0e2237da31c2cf);
  }

  lemma Chain26(R: (nat, Point) -> bool, m: nat, k: nat)
    requires Closed(R, PrimeP()) && R(m, C_264) && R(k, T_3)
    ensures R(16384 * m + 2112 * k, C_280)
  {
    hide Closed;
    Twice(R, PrimeP(), m,
          0xf49a46909cc3c3ae5f0e0e4175f697b4a1329f91ef877055bd355de11d80cd19,
          0x8dbbca34791cf88ce183167846fd2483d0e1a00d08a2297ec22a39c9f20f6e1a,
          0xa740a7573695f572d3c174ed4560cbd69eee3a8e77be3734bca252c05a6933a0,
          0x5b7ae21390e06e5b56426232ef256ed7a045afced3129cbc97b48e5218d6851c,
          0x6af7384ce28c73a8fb684e06a357b16f357d446649625cb70ce4ac07fe23c695,
          -0x203f0c176cc9acb3955cb7f1dfdb3cd6e5985bd9c1db2e6608eb88e4d1c88d730,
          0x6d456aa84f7b42cc37b25f2257be39cf472d0d2406b908fc98d1368c702efb4e,
          0x640a267ebaed7684c4666bf162bffc21be41670b4dffa372e707df9aa0a9cf8f);
    Twice(R, PrimeP(), 2 * m,
          0x5b7ae21390e06e5b56426232ef256ed7a045afced3129cbc97b48e5218d6851c,
          0x6af7384ce28c73a8fb684e06a357b16f357d446649625cb70ce4ac07fe23c695,
          0x4c10a29d61779fcc20538fe766b7ba167322dbfe669dcbe6fed8df39242193b6,
          0x8759d217f6435f047ae53c5b69064e5625ab65aef1dfe53297e1d06bdc6293a7,
          0x1a4f9f8d6d125f3e68636f6197f317d835ad3472d85a3b5b1f30917c4cec7130,
          -0x228116e98c56489852431d99f1ab1b630111960d6522cbcb76f19aaf5b4528af,
          0x1699e1a24370a79371a0a61c9cbddf7ac2237d125f6cdc29c0c69c1173e9187b,
          -0x0d09090e67b8b28014d4b9e69b82f64e43bd74e04f73573ed7d4bfd4d718a069);
    Twice(R, PrimeP(), 4 * m,
          0x8759d217f6435f047ae53c5b69064e5625ab65aef1dfe53297e1d06bdc6293a7,
          0x1a4f9f8d6d125f3e68636f6197f317d835ad3472d85a3b5b1f30917c4cec7130,
          0x600f9edbd10d66828a7b5b61845900b2176abcaf2446c42ae814cd26313db489,
          0xd8cdc77ea95ab2291b51badd5fa6219c7f248a94631a055fdf7a7ed7c2cd0617,
          0xc87cf8e268c5a7f38979faab9a686971e558789e47e329a04e879d8b567128be,
          -0xc2f0a3a59ad893c0ab3bb38022972e40b3f0da613a2fd75eab5f0575ea0d0090,
          0x240bb819012c5758aa76c69b6e412f147660bcbe739f11650ee86f0780f73c14,
          -0x1e90745d84e9f226a712bd935c1e5f6415e1e0ba6e3ff9bfcdeda75280846822);
    Plus(R, PrimeP(), 8 * m, k,
         0xd8cdc77ea95ab2291b51badd5fa6219c7f248a94631a055fdf7a7ed7c2cd0617,
         0xc87cf8e268c5a7f38979faab9a686971e558789e47e329a04e879d8b567128be,
         0x5ecbe4d1a6330a44c8f7ef951d4bf165e6c6b721efada985fb41661bc6e7fd6c,
         0x8734640c4998ff7e374b06ce1a64a2ecd82ab036384fb83d9a79b127a27d5032,
         0x4d7c500039a977386ff5124974d9441977a535400d027d3d012aa0043ae909d0,
         0x515a5c2b5c8be7dd4cbd739261d6551620e1d6b8b12b1e32bc2a7f2b16a8d329,
         0xb73a18f19aae7e9a27c8b0783d5702c6dadd9bbc232c0138374a81b86d86a19f,
         -0x24edd038acff8572dbf47e4755557497042a0341daf6d706fd940db45aebca9c,
         0x1774047dd35bf66b256e019626d851e1f4d3479328308fb88d8ba909835d8dac,
         0x28ff7d84637f49b38d09cf28c11b2a9644d2d64d7756d70e983ae4b65a260afd);
    Four(R, PrimeP(), 8 * m + k,
         0x515a5c2b5c8be7dd4cbd739261d6551620e1d6b8b12b1e32bc2a7f2b16a8d329,
         0xb73a18f19aae7e9a27c8b0783d5702c6dadd9bbc232c0138374a81b86d86a19f,
         0x9c82adc5593be14823416d07f9f833db891a9f58ca31315a0dca08778edd591c,
         0x6fa0471754ef6e621119de5772c488c48a4b0d83f2cf1d66526fd06568bf77d4,
         0x8145b5a6507bae52b1f9061e581e48ad0b0cf420d1b4b0b6636acdc60fe84454,
         0x927af37e40875ba35edc89dcba261d5d017f52d853952f96fa6ff0239d9bece8,
         0x5faf867dd6d3749b931e62c4a71d83d624f17460573658fa5b7fe8758cb4a316,
         -0x12820f35bfcf799773eb4b62af39bdeacb0c588a356b2843e7fd3736a738a459,
         0xff5fa2b8eaa15963bcf8f4d08ad28483801b21e4ab054838b84b2c1b7eec2911,
         0xf68849425560ec635f6a997addf82e863b6ef2571c9b9270b636ebfb60179f22,
         0x89bd903d03f97e4d9a173a09490b3e7640efd324e922d1bb29fbb671f0cb7a30,
         0x6fe44ff80b0d3145135f7c80f25130c89566b468d583b88648e182e9a5b05b85,
         0xfebfa9e78ed9cc41eeb6727e270c3ee483d643c2ecfaf5cfa844b8e7b7a81ba9,
         -0x869380026dbf94d2fd7c556070eda7d87f47bd015ad50749e010ac5ed43e274e,
         0x32057cfec2c8b40d8810f0fd0f1bc108f4d4bf6fbc21b9a5e7e521a26d065898,
         0x5686115eae4ef47d7aab8ccc1d212187fd9f23d1fd328b227531f0d869eda59c,
         0x810ebd4885a8653d3c2339e30a8e6692ab6d97760d344905c41231c32b9b2a0c,
         -0x2926aabcd87921abbcf4d0b714af7b011c3d4875694aa5b47acf5fa95fecc5777,
         0x09c624f1acd7f1577da6f01ad5ad19d4435293d2173c03ad446210d5745409a0,
         0x1f43dd15fc5c7c47461588aedaaee3e95caac7b72b610df7888af5ce9e906cac,
         0xab2d3277a3919fb090c5b011b0174c465bd9e87f95553f4ad7734df531758636,
         0x400a1425e0a163db3f99bfa5fe9264af4fe47167a50a7b479a32d4e5ad7fa51f,
         0x929355a79f1298075e0e3370207fbb9abbd8c4c20e0d71e644833ea4e75af6a6,
         0x54dc354abd3e58d94f508844e666b5c2e1bb3784ebef47eacf5c0c40357d181d,
         0x727569670efc69bcfe4831f2694ff54bf69bc52b387824b6d4d523e5e1a25cf3,
         0x0f08ca5f3cdd6b8d96194ecdd68a761fbb3223e0374c383e73903f93995f9854);
    Twice(R, PrimeP(), 128 * m + 16 * k,
          0x400a1425e0a163db3f99bfa5fe9264af4fe47167a50a7b479a32d4e5ad7fa51f,
          0x929355a79f1298075e0e3370207fbb9abbd8c4c20e0d71e644833ea4e75af6a6,
          0xd299815f73c67c9dbe0d852cc95c113c9bdec24feee4972ab046c6be0409c1a5,
          0xb55a21a1e03a2f0a9b070978a7b655ae43fbaeb52a76ce53a44cea8555ac2958,
          0x01466078abd02d5c45bdd45490e7a9b1300082a56ba1afaf7bbfad9e91af65c2,
          0xc11a6160601ca396a7cf409032c7dc87169aaff94c4c6e142cd22ae984f4af44,
          0xad40344d2cab92456b0a1d164fed95312ba41f88553d79dcfc5f98f858973f3d,
          -0x608203313bd784132d2a53cde296733e91ea4c7dcde310ca3a7df21c089471db);
    Plus(R, PrimeP(), 256 * m + 32 * k, k,
         0xb55a21a1e03a2f0a9b070978a7b655ae43fbaeb52a76ce53a44cea8555ac2958,
         0x01466078abd02d5c45bdd45490e7a9b1300082a56ba1afaf7bbfad9e91af65c2,
         0x5ecbe4d1a6330a44c8f7ef951d4bf165e6c6b721efada985fb41661bc6e7fd6c,
         0x8734640c4998ff7e374b06ce1a64a2ecd82ab036384fb83d9a79b127a27d5032,
         0xafb2a11bb61caaa91c68b19924a6f77a22545c4a917c2e50e853864410fabfda,
         0xb17e6bfed71f7f05e67541467d5e204f4b7661f3bd38ef80bbd444e18580c3a4,
         0xbd586b987422eb9d9a8d2cbb5b0c59d45181fdc306289cf22ae9bbb57a11b0c9,
         -0x3b67a0f1aead0aff2e35e2a002bd1f4c4695fb75f0afc1bdb50d980d5ae79a98,
         0x7895b4e8cb7e0428d52c6eec4b61dc92805ab307992e54e74cd8241c1c85e4c4,
         0x02a5e25c5961c7e5e9596157f325080a082478ea58d2f072913be6f7d4232f43);
    Four(R, PrimeP(), 256 * m + 33 * k,
         0xb17e6bfed71f7f05e67541467d5e204f4b7661f3bd38ef80bbd444e18580c3a4,
         0xbd586b987422eb9d9a8d2cbb5b0c59d45181fdc306289cf22ae9bbb57a11b0c9,
         0x4439830783f364ff8326337036fd5b26868085c15009f456a82a1b0880ff7d67,
         0x39ab958349697ab9f282dc26f0393ac0d35dc8fcfb59cf2e51bd8abd7446cc97,
         0x8695cea513ae14ba940a4a4c21ed6ba5abd6f553af0bb38b0977265386e375ad,
         -0x10c4422f32e366e2767f35946585af452e16d2c141592340f78c660d6ccc4c891,
         0x122e9a87acb15bd5e6a77a9d69058d17bee89ba786e4a1113e2e07ae6ea8946e,
         0x1feeec3f1b5db9f7e64bd2fd304c77db924ffcbba68c28df42ce25712f0e673b,
         0x2f41d190d91e77680712007969891e3ca1deeeaa9415496a1d4e302a4df1e551,
         0x2ff9fd617c484d71768ef596387a74946231ded854ce0c17fa9f136403a53afb,
         0xa0df35776489c430d028bcbf4df46e55894056910c81d6f03eb8c7e9fd19b663,
         0x0ab6a38bddcb2b56e860c4690a45eb78b05b99b5d08b70ae961965da2c0d09b6,
         0x08b93bdf4f8e81a8d5a453bc41949796146dc8a98a9d5fcc25a521c6a246d088,
         0x01ca18f5505a22778e5426c1ebe62abee0adabc94bfae7cb655e64b259c18db4,
         0xe60a0cb18c966612d38cc039609f7ff3a2de07efeaf428b0a465c13b23621739,
         0x547afdf3299ed7a0ac6898a1328e9cb4a8fadd5eb0e8316d1f958d1cd1ad2f22,
         0x679d3ace3732e0d3b712c53df0cfd443a95160889165ef5d6d21e7c2909ca7eb,
         0x1062477fdc44bb68e9149f895bd83d31b7ed7ad75b9df59824182a77edb691432,
         0xceb60f34d5d46aafa3778dbf048956fc56050132c3e0b9127ebb15af79385a67,
         -0x20cd555c657e123111d77ffe1b4b46a73121fd7d9902b5244d20fa410fa6c403,
         0x35ca18cd2cf4b17e8e2936c8dacad42209864d0c3605453612e1750a4cb88ecb,
         0xec0d6cefef709ae43068258c12487ac86a5598abf65826f0b9f7deac5e7248b8,
         0x144d9c22819e44660850c4f05a108c0bb7e743114cac03f3d84dc641697a8f2c,
         -0x281822ae378e4d79b114ac6c356587d341041de8ef282e8cd7e439954aa68129,
         0x0b4d4dd0261cae558675d07cbd5f35533c8c6038e0fda31ca45e2933e656d203,
         -0x1fd8f9353d8a1cd8a67a8406cb4aa6ee259f3edebbf60331eb29c5f3259c4af7);
    Twice(R, PrimeP(), 4096 * m + 528 * k,
          0xec0d6cefef709ae43068258c12487ac86a5598abf65826f0b9f7deac5e7248b8,
          0x144d9c22819e44660850c4f05a108c0bb7e743114cac03f3d84dc641697a8f2c,
          0xe02c83a19b5d26d223a51e3ca9c74e4b934c8fa28e0aeeafe54504ffee2bbac7,
          0xfc7b4e12ac8e26fdd07cca8b1315dc1686117e2e736713a467ecf7e274d7f67e,
          0x6d7c2d96eeb265a1fa203bc1903d956666465dd2cc3ce7600fe4cd87d70f4180,
          -0x2696b63e32b3f2ddf55b9e0ac36a2d0c27316b0529a0f06a8d2aa4afe13c679ab,
          0xc44dee19176d251388ec405a83d346869ffa59f9834e626b700d0e06e69cc13d,
          -0x0e630053bf1d3b55dd7114a166d16e44c8696fe54ca8a1926ab00c0931e83e6a);
    Twice(R, PrimeP(), 8192 * m + 1056 * k,
          0xfc7b4e12ac8e26fdd07cca8b1315dc1686117e2e736713a467ecf7e274d7f67e,
          0x6d7c2d96eeb265a1fa203bc1903d956666465dd2cc3ce7600fe4cd87d70f4180,
          0xa1d3525f61eb1730002a03eb42fe6da8a75ffa55e7920e5f18fd5b1018aaf33f,
          0x1ee8e5e21cfc342869edbddf827cf330449d82cd7e2a4f6de9c6ff038ac0f977,
          0x4ac99efb3e7c8a80cd4d759cd43158fff0561d5d24163a5e93e8cea86dfd1e3d,
          -0x2609e04cce2df9f35df7e79c12384f4de4aef114143098de47d325f8f5eec0af7,
          0x664b7c0d4331d703e3056e57fdf37954cfb5add81acbc7e77e6d3d24ada43cf2,
          0x8c0ffa7e69d54474fe089c4809321ee4b806fd6d84a936dcddf3dcb428907604);
  }

  lemma Chain27(R: (nat, Point) -> bool, m: nat, k: nat, k2: nat, k3: nat)
    requires Closed(R, PrimeP()) && R(m, C_280) && R(k, T_9) && R(k2, T_5) && R(k3, Generator())
    ensures R(1024 * m + 1024 * k + 64 * k2 + 16 * k3, C_293)
  {
    hide Closed;
    GeneratorNumbers();
    Plus(R, PrimeP(), m, k,
         0x1ee8e5e21cfc342869edbddf827cf330449d82cd7e2a4f6de9c6ff038ac0f977,
         0x4ac99efb3e7c8a80cd4d759cd43158fff0561d5d24163a5e93e8cea86dfd1e3d,
         0xea68d7b6fedf0b71878938d51d71f8729e0acb8c2c6df8b3d79e8a4b90949ee0,
         0x2a2744c972c9fce787014a964a8ea0c84d714feaa4de823fe85a224a4dd048fa,
         0x10863973a1a3a9a3d9bf6fc09aacc296f575c42b33b6dee10c95ffa0c0e71e05,
         0x100cc5db446f83f8b506e69c7ccf1023d624d9b01cce5d610bd6ae6d0b11e615,
         0x39652210041b0ed6ff8c4e944c72adef086e8e3a90cc3d91d9b98e6c63f9200a,
         0x0d22b1c1587eb5471b20d9ce7ce741d490babb130363f7a5126533e1f38fa1b0,
         0x01110d8ea7376c4e398ae54f1400fcd1ab68cf1b897f57a1435b3dcd75dc5253,
         0x00f58c8eeb798aa63fb5daa71ef6118b10dfacea9240e9344529e669d1d7615d);
    Four(R, PrimeP(), m + k,
         0x100cc5db446f83f8b506e69c7ccf1023d624d9b01cce5d610bd6ae6d0b11e615,
         0x39652210041b0ed6ff8c4e944c72adef086e8e3a90cc3d91d9b98e6c63f9200a,
         0x3d46e9ef5aed4aa9fea6810de4d5e822316732bcbdfbff222b7ea641d0f4c236,
         0x897b2e8a15224a834ed3055d1fb73dc1456b55e4c81f6a272a221932e30a3c69,
         0xc672d5fa0f1c427c70590789afcfc04bea0e0ad7264f681fa4d59bd0f2ee7793,
         0x187532541cb1f002c8a320449c0a57fb264ff31de7c3334c3bac0d6f6e028cf0,
         0x0eaadf20e4ab41c987998e9f42faf012d1f69e2622f7a47abdf029066ee8252f,
         -0x1d10f2196b14d2e118514d02e4679280ef1040b87e4cd2c2fb326032613a8aab,
         0x2d45701fda7e3d7f4ecb15fd4fefebe30788a1a6861a4f6ca1431cd8c329e135,
         0x6fedd00ca92b1fee729065e07e3045956e800dbe44934b24dda8d83d29752b79,
         0xa3d3d10efa2d60ae0dc4345115bdad6fe27826ff3d7592fa19175f5d99edfb18,
         -0x974f324a1ab7f76ab1f7eac50ecb1c51864ea5375c4c50aba5bf127b0ea3bfae,
         0x08017c40dd198911d84974ca168db17fa188569f53886d4f9176954248716f52,
         0x0484c7e78f91a09d19a1ee0974484e95c847e4b551f5b7f78092c0ec96ad00fb,
         0xf1deca311239017a17be9a516e9bd72380eea972043730d8b8d551ea4553ba94,
         0x1c5f6bb0c98662883c81ae2904ff0036698bfd2576a73852d162de5080092deb,
         0xb554f9781a1c60c24ce383ec5f8f194bd8875736a212c27768967a35e5e766aa,
         0xa2c1afc4ee6dd7775d76f9695d76aa34e4c0d21a5c4a8c27d5025633045a69d0,
         0xe4853a9495a1a4641305c60d2b1887bba678cf79a33da5118683924487001f4d,
         0x4ef1c3f4338c1d695e4a8e1cb956720ab2b7f2b94a148734b128ae829c239faa,
         0x25e292e0b60e5d1807335b8e243d630ec2dedbb7fbf1d12d5e899d0edac66e4c,
         0x3e599168c43c46ae2fed5767f7f0e58bbeebb50af8123d58c8828a047f5f8ae1,
         0x085bd5619539817343eab45b8e13e0ca8377d37d9299204d679ec11bf0149cd0,
         0x2c3c80d94b38dd41118aa6ca01601270732802c0bbef955f3984026613b05438,
         0x059b46fca341f4296af2fbc12e2963fb27729f2ee582b4b081fc70ad425c8027,
         -0x050739c7653c85254d9313652e4b937ae9042eb76790a4882093781dde2aaf7e);
    Plus(R, PrimeP(), 16 * m + 16 * k, k2,
         0x3e599168c43c46ae2fed5767f7f0e58bbeebb50af8123d58c8828a047f5f8ae1,
         0x085bd5619539817343eab45b8e13e0ca8377d37d9299204d679ec11bf0149cd0,
         0x51590b7a515140d2d784c85608668fdfef8c82fd1f5be52421554a0dc3d033ed,
         0xe0c17da8904a727d8ae1bf36bf8a79260d012f00d4d80888d1d0bb44fda16da4,
         0xabc3f2e03f292c35379e52c49d99daeb242d7440e356cb59fa759ea05008b452,
         0x3b79f0190d30ec507df4c9433006dc3f98108e8c840eecac60f2ee72576300c2,
         0x7800cb8410e7425b27cb4ae12d2f1ce2dd35fb7758ad99e0729f0c20d9250146,
         0x0cbf3129e6f9ff30e171d429400dc7ca191ca1912200384498c18b38e23a3afc,
         0x733f5c73efad52145d05780f3b066e80fa55f2fd173932d16d5ab305966f554c,
         0x01ed93d20bca969fd6ee45ee396a3ed9eea728e9cb629dedea8a93e0683f9428);
    Twice(R, PrimeP(), 16 * m + 16 * k + k2,
          0x3b79f0190d30ec507df4c9433006dc3f98108e8c840eecac60f2ee72576300c2,
          0x7800cb8410e7425b27cb4ae12d2f1ce2dd35fb7758ad99e0729f0c20d9250146,
          0x13e1aace41718a701cfc777d12d8d44229a07d9deb4b28c637ee82e18b6b8866,
          0xf005c5f391b8839d71d237050b742310632c4471bc90684abaddde575f701f04,
          0x0646f5eebabd61aa6f1f83cb7af67cc889746019ba17f47c4c9793666ec5ac01,
          -0x16d09c838010ca659ac17457cd7487b19cfd70f24076e0b6face19811935aabf,
          0x018b46484fc7bf827aef74572b604bb67ec9a7fbc7c21afe75a06ca5fc4597e4,
          -0x0e05883c8d9ada2433e79226cd6151cb8e8107faaec7c031f16186050f32346d);
    Twice(R, PrimeP(), 32 * m + 32 * k + 2 * k2,
          0xf005c5f391b8839d71d237050b742310632c4471bc90684abaddde575f701f04,
          0x0646f5eebabd61aa6f1f83cb7af67cc889746019ba17f47c4c9793666ec5ac01,
          0x56436ab347a1162845d4c6b9cbe939adea2c4f90c169d40a97e58c7fbaec7a9b,
          0x0ad7046b18a9ad4d5338ffdb2a83922a5d7e2583283f65fd27f1c88acb211236,
          0x0f11ca539cfd85528e7b9c0f7b0574b11224ad4b45954da3481ef046e33b5fc6,
          -0x29ee57e44017aea42bb5bd0437799035cefb0034a9db321ab5c74147ac3615509,
          0x1d115d7197820b84c81946c51e473cf928f7446bba8c9292c527dad405813665,
          0x4d3a0fc6a890bd1ec98e7cf436c4fca9458b7252208fd6bf9c89a7c260221f0d);
    Plus(R, PrimeP(), 64 * m + 64 * k + 4 * k2, k3,
         0x0ad7046b18a9ad4d5338ffdb2a83922a5d7e2583283f65fd27f1c88acb211236,
         0x0f11ca539cfd85528e7b9c0f7b0574b11224ad4b45954da3481ef046e33b5fc6,
         0x6b17d1f2e12c4247f8bce6e563a440f277037d812deb33a0f4a13945d898c296,
         0x4fe342e2fe1a7f9b8ee7eb4a7c0f9e162bce33576b315ececbb6406837bf51f5,
         0x9b77ec69617f51069699bec6f62797e61fda164d9ad2f53842780fb17e45fa62,
         0xb59926323f5188ed4aa844765881b0aa43de7963f0ce306a3b3b2d0bcc94e208,
         0x6713a14ad58a39aebd2f04422c3243f82dc3ca46a7b6ba0103e8e1b7303bb397,
         0x3a74537457af7e62235da5431038d1a26de861ab5c57561ca13560ed8094ad6f,
         0x5e6a70759ec5b8146bcfcf5e964351afbbfbb8f829daec97058981bf0a972950,
         -0x67b38862f17a0fdc1e6659e85768bf00cd81afffa47f9d6fb78d5681e5a64a3f);
    Four(R, PrimeP(), 64 * m + 64 * k + 4 * k2 + k3,
         0xb59926323f5188ed4aa844765881b0aa43de7963f0ce306a3b3b2d0bcc94e208,
         0x6713a14ad58a39aebd2f04422c3243f82dc3ca46a7b6ba0103e8e1b7303bb397,
         0x510d851c47baf8984835e68c845e2bb545d52977fc75a523d9580f6237793779,
         0x55998956742784829dca12de6a988ea385db1548366a5131359ae2fd09295726,
         0x6f76653e8f904d66c1c95c432ece5aa6f2187c07620a71bd27e88e8fc6457cd6,
         -0x1413073a58ab29be59cd2187f296aa48cce7934b22dd3aac2ed48f49343e24601,
         0x19a98ef2c9238ee857f14c1e58ed71692e4704d7a847415fad8d473527ebe405,
         0x1e64f287082fe91798a4609443301a1b56e644ac3b801d377a3062214b03fd9b,
         0xb9fded35e510eaf5658921bfe5042746076d1426453aa249dcb6bd3495e18ec8,
         0x07469a88fab79ae982fa880b0b940b96c6108eaec0473e2f530a861fa608f682,
         0xb6bf06c0f458180962cb09c94552fecea039e0575b739e4213c698318a66f8f1,
         0x4c18490e66beba27efb785cfd753ed3b1a8afaf94f91dacd48ff7abbac481689,
         0x8720fcb724870937ac33dd69c736570930c1afedc2ebd846b1aaa3e89d29288e,
         0x38e79f1bfb0f892b9f753a899d395f61ba3d8509750411eeff991fcb85a1fda7,
         0x755d14d98ff4cbf80f733a8570b5b20dd2d2e8c0fecc7ebe2d31bba5e4b33192,
         0x2afa386b3f2bdcdb83f4d83f8fa3874d7b74dcb454bd644fdd6bf3d1f2da8db6,
         0x72184be1caa8563462b536f10852d665ae8a64fdf1eb8d4c946ad589796f729c,
         0xa6f0b0f74b3087ad0a8da97bb463061dd2d4f8a14592878b2ef3bee216b41925,
         0x35ce36e73b294897938991cf9d7bd9b8d3d5d1918c5e4051cfe42022d3274376,
         -0x105e125134840dabb576b2610d69195b4e43b31fd1fb054094ab1026055464cb,
         0x83362c631c75685e3615425a3bf2d24ad3517a0496f1d94b79cc3fdabf3fe22a,
         0x6b17d1f2e12c4247f8bce6e563a440f277037d812deb33a0f4a13945d898c296,
         0xb01cbd1c01e58065711814b583f061e9d431cca994cea1313449bf97c840ae0a,
         0x5f4ffa39de556b7d35a3a2e07c845687b919d30429e2dd18c16fa9f57188ecf9,
         0x43407ce473e2df640593f58238dbfebcc1c1dfadd21facfccf8ae1f5f9d3af1e,
         -0x20dcb6ecd4556aa9ef2fb2c4e5310c084ee6566051a4c05e5bd31b06ff4d729a);
  }

  lemma OrderLiteral()
    ensures OrderN() == 0xffffffff00000000ffffffffffffffffbce6faada7179e84f3b9cac2fc632550 + 1
  {
  }

  /** Any relation closed under the steps that has 1 and G has n - 1 and -G. */
  lemma ChainFromG(R: (nat, Point) -> bool)
    requires Closed(R, PrimeP()) && R(1, Generator())
    ensures R(OrderN() - 1, C_293)
  {
    hide *;
    OrderLiteral();
    Chain0(R, 0x1);
    Chain1(R, 0x2, 0x1);
    Chain2(R, 0x3, 0x2);
    Chain3(R, 0x5, 0x2);
    Chain4(R, 0x7, 0x2);
    Chain5(R, 0x9, 0x2);
    Chain6(R, 0xb, 0x2);
    Chain7(R, 0xd, 0x2);
    Chain8(R, 0xf, 0xf);
    Chain9(R, 0xff, 0xff);
    Chain10(R, 0xffff);
    Chain11(R, 0xffff0000, 0xffff);
    Chain12(R, 0xffffffff);
    Chain13(R, 0xffffffff0000);
    Chain14(R, 0xffffffff00000000);
    Chain15(R, 0xffffffff000000000000);
    Chain16(R, 0xffffffff0000000000000000, 0xffffffff);
    Chain17(R, 0x7fffffff800000007fffffff8000);
    Chain18(R, 0x7fffffff800000007fffffff80000000, 0xffffffff, 0xb, 0x3, 0x7);
    Chain19(R, 0x7fffffff800000007fffffffffffffffde7, 0xd, 0xf);
    Chain20(R, 0x1fffffffe00000001ffffffffffffffff79cdf0, 0x5, 0xb, 0xd);
    Chain21(R, 0x3fffffffc00000003fffffffffffffffef39beab68, 0x7, 0xb, 0x3);
    Chain22(R, 0x7fffffff800000007fffffffffffffffde737d56d38bc, 0xf, 0x1);
    Chain23(R, 0x1fffffffe00000001ffffffffffffffff79cdf55b4e2f3d00, 0x9, 0x7);
    Chain24(R, 0x1fffffffe00000001ffffffffffffffff79cdf55b4e2f3d09e77, 0x7, 0x5, 0x3);
    Chain25(R, 0x3fffffffc00000003fffffffffffffffef39beab69c5e7a13cee72b, 0xb, 0xf);
    Chain26(R, 0xffffffff00000000ffffffffffffffffbce6faada7179e84f3b9cac2fc, 0x3);
    Chain27(R, 0x3fffffffc00000003fffffffffffffffef39beab69c5e7a13cee72b0bf18c0, 0x9, 0x5, 0x1);
  }

  // ------------------------------------------------------------------ the order

  lemma GeneratorOnCurve()
    ensures OnCurve(Secp(), Generator())
  {
    hide *;
    GeneratorIs();
    SecpIs();
    CurveConstants();
    OnCurveFrom(Secp(), GX(), GY());
  }

  lemma OnCurveFrom(e: Elliptic, x: nat, y: nat)
    requires e.p > 0 && x < e.p && y < e.p && (y * y) % e.p == (x * x * x - 3 * x + e.b) % e.p
    ensures OnCurve(e, Affine(x, y))
  {
  }

  lemma LastIsOpposite()
    ensures Secp().p > 3 && C_293 == Neg(Secp(), Generator())
  {
  }

  lemma OppositeFirst(e: Elliptic, P: Point)
    requires IsField(e) && OnCurve(e, P)
    ensures Add(e, Neg(e, P), P) == Infinity
  {
    hide *;
    FieldFacts(e);
    AddNeg(e, P);
    NegOnCurve(e, P);
    AddCommutes(e, Neg(e, P), P);
  }

  /** n * G is the point at infinity, on no other assumption than that p is prime and the law associative. */
  lemma OrderKillsG()
    requires IsGroup(Secp())
    ensures Secp().p > 3 && Times(Secp(), OrderN(), Generator()) == Infinity
  {
    hide *;
    var e, g, m := Secp(), Generator(), OrderN() - 1;
    GeneratorOnCurve();
    GroupIsField(e);
    SecpIs();
    OrderLiteral();
    MultiplesAreClosed(e, g);
    ChainFromG(MultiplesOf(e, g));
    MultiplesAre(e, g, m, C_293);
    LastIsOpposite();
    TimesStep(e, m, g);
    OppositeFirst(e, g);
  }
}
