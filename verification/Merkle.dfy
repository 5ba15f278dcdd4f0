/**
 compute_merkle_root: leaves are hashed and then paired level by level in place, by swapping hash
 buffers with one spare buffer.
 */
module Merkle {
  import opened Sha256

  /** The hash of a pair of digests. */
  function PairHash(a: seq<bv8>, b: seq<bv8>): (h: seq<bv8>)
    ensures |h| == 32
  {
    Sha256Of(a + b)
  }

  /** One level up: neighbours are paired, an odd last one is paired with itself. */
  function Level(s: seq<seq<bv8>>): (t: seq<seq<bv8>>)
    ensures |t| == (|s| + 1) / 2
  {
    if |s| == 0 then []
    else if |s| == 1 then [PairHash(s[0], s[0])]
    else [PairHash(s[0], s[1])] + Level(s[2..])
  }

  /** The root of a tree over at least one leaf. */
  function Root(s: seq<seq<bv8>>): (r: seq<bv8>)
    requires |s| >= 1
    decreases |s|
  {
    if |s| == 1 then s[0] else Root(Level(s))
  }

  lemma {:induction false} LevelAt(s: seq<seq<bv8>>, k: nat)
    requires 2 * k < |s|
    ensures Level(s)[k] == PairHash(s[2 * k], if 2 * k + 1 < |s| then s[2 * k + 1] else s[2 * k])
    ensures Level(s)[k] == Sha256Of(s[2 * k] + if 2 * k + 1 < |s| then s[2 * k + 1] else s[2 * k])
  {
    hide Sha256Of;
    if k > 0 {
      LevelAt(s[2..], k - 1);
    }
  }

  // --------------------------------------------------------- what a root says

  /** All strings are digests. */
  predicate Digests(s: seq<seq<bv8>>)
  {
    forall i :: 0 <= i < |s| ==> |s[i]| == 32
  }

  /** Two different pairs of digests with the same pair hash. */
  predicate Collision(a: seq<bv8>, b: seq<bv8>, c: seq<bv8>, d: seq<bv8>)
  {
    |a| == |b| == |c| == |d| == 32 && (a, b) != (c, d) && PairHash(a, b) == PairHash(c, d)
  }

  /** The right-hand partner of digest 2k: digest 2k + 1, or 2k itself when there is none. */
  function Partner(s: seq<seq<bv8>>, k: nat): (d: seq<bv8>)
    requires 2 * k < |s|
    ensures d in s
  {
    if 2 * k + 1 < |s| then s[2 * k + 1] else s[2 * k]
  }

  /** The tree over s hashes the pair (a, b), at its lowest level or above it. */
  ghost predicate HashedIn(s: seq<seq<bv8>>, a: seq<bv8>, b: seq<bv8>)
    decreases |s|
  {
    |s| > 1 && ((exists k {:trigger Partner(s, k)} :: 0 <= 2 * k < |s| && a == s[2 * k] && b == Partner(s, k))
                || HashedIn(Level(s), a, b))
  }

  /** A pair hashed in the tree over s collides with a pair hashed in the tree over t. */
  ghost predicate PairsCollide(s: seq<seq<bv8>>, t: seq<seq<bv8>>)
  {
    exists a, b, c, d :: HashedIn(s, a, b) && HashedIn(t, c, d) && Collision(a, b, c, d)
  }

  lemma HashedBelow(s: seq<seq<bv8>>, k: nat)
    requires |s| > 1 && 2 * k < |s|
    ensures HashedIn(s, s[2 * k], Partner(s, k))
  {
    hide Level;
  }

  lemma HashedAbove(s: seq<seq<bv8>>, a: seq<bv8>, b: seq<bv8>)
    requires |s| > 1 && HashedIn(Level(s), a, b)
    ensures HashedIn(s, a, b)
  {
    hide Level;
  }

  /** A collision one level up is one of the whole trees. */
  lemma CollideAbove(s: seq<seq<bv8>>, t: seq<seq<bv8>>)
    requires |s| > 1 && |t| > 1 && PairsCollide(Level(s), Level(t))
    ensures PairsCollide(s, t)
  {
    hide Level, HashedIn, Collision;
    var a, b, c, d :| HashedIn(Level(s), a, b) && HashedIn(Level(t), c, d) && Collision(a, b, c, d);
    HashedAbove(s, a, b);
    HashedAbove(t, c, d);
  }

  lemma {:induction false} LevelDigests(s: seq<seq<bv8>>)
    ensures Digests(Level(s))
  {
    hide PairHash;
    if |s| > 1 {
      LevelDigests(s[2..]);
    }
  }

  /** Equal digests one level up come from equal pairs, or the two pairs collide. */
  lemma PairBelow(s: seq<seq<bv8>>, t: seq<seq<bv8>>, j: nat, k: nat)
    requires |s| > 1 && |t| > 1 && Digests(s) && Digests(t) && 2 * j < |s| && 2 * k < |t|
    requires Level(s)[j] == Level(t)[k]
    ensures (s[2 * j] == t[2 * k] && Partner(s, j) == Partner(t, k)) || PairsCollide(s, t)
  {
    LevelAt(s, j);
    LevelAt(t, k);
    HashedBelow(s, j);
    HashedBelow(t, k);
    hide PairHash, HashedIn, Level;
    var a, b, c, d := s[2 * j], Partner(s, j), t[2 * k], Partner(t, k);
    assert (a, b) == (c, d) || Collision(a, b, c, d);
  }

  /** Equally many leaves with the same root are the same leaves, unless two pairs the trees hash collide. */
  lemma {:induction false} RootInjective(s: seq<seq<bv8>>, t: seq<seq<bv8>>)
    requires |s| == |t| >= 1 && Digests(s) && Digests(t) && Root(s) == Root(t)
    ensures s == t || PairsCollide(s, t)
    decreases |s|
  {
    LevelSize(s);
    LevelSize(t);
    hide Level, PairsCollide;
    if |s| == 1 {
      assert s == [s[0]] && t == [t[0]];
    } else {
      LevelDigests(s);
      LevelDigests(t);
      RootInjective(Level(s), Level(t));
      if Level(s) == Level(t) && !PairsCollide(s, t) {
        forall i | 0 <= i < |s|
          ensures s[i] == t[i]
        {
          PairBelow(s, t, i / 2, i / 2);
        }
      } else if PairsCollide(Level(s), Level(t)) {
        CollideAbove(s, t);
      }
    }
  }

  // ------------------------------------------------ trees of different widths

  /** How many levels lie above n leaves. */
  function Height(n: nat): (h: nat)
    requires n >= 1
    decreases n
  {
    if n == 1 then 0 else 1 + Height((n + 1) / 2)
  }

  /**
   The leaf that the path with the bits of i leads to in a tree of height h over n leaves: from node j one
   goes left to 2j, or right to 2j + 1 if that exists and to 2j otherwise.
   */
  function Leaf(n: nat, h: nat, i: nat): (k: nat)
    requires n >= 1 && h == Height(n)
    ensures k < n
    decreases h
  {
    if h == 0 then 0
    else
      var j := Leaf((n + 1) / 2, h - 1, i / 2);
      if i % 2 == 1 && 2 * j + 1 < n then 2 * j + 1 else 2 * j
  }

  /** Along every path the two trees end in the same leaf: their expansions to full trees agree. */
  ghost predicate SameExpansion(s: seq<seq<bv8>>, t: seq<seq<bv8>>)
    requires |s| >= 1 && |t| >= 1 && Height(|s|) == Height(|t|)
  {
    forall i: nat :: s[Leaf(|s|, Height(|s|), i)] == t[Leaf(|t|, Height(|t|), i)]
  }

  /** The leaf of path i is the left or the right partner below the node of path i / 2. */
  lemma LeafBelow(s: seq<seq<bv8>>, i: nat)
    requires |s| > 1
    ensures Height(|s|) == Height((|s| + 1) / 2) + 1
    ensures var j := Leaf((|s| + 1) / 2, Height((|s| + 1) / 2), i / 2);
      2 * j < |s| && s[Leaf(|s|, Height(|s|), i)] == if i % 2 == 0 then s[2 * j] else Partner(s, j)
  {
  }

  /** Trees of one height whose expansions agree have the same root. */
  lemma {:induction false} ExpansionDecides(s: seq<seq<bv8>>, t: seq<seq<bv8>>)
    requires |s| >= 1 && |t| >= 1 && Height(|s|) == Height(|t|) && SameExpansion(s, t)
    ensures Root(s) == Root(t)
    decreases |s|
  {
    LevelSize(s);
    LevelSize(t);
    hide Level, Leaf, PairHash;
    if |s| == 1 {
      assert s[Leaf(|s|, 0, 0)] == t[Leaf(|t|, 0, 0)];
    } else {
      LeafBelow(s, 0);
      LeafBelow(t, 0);
      forall i: nat
        ensures Level(s)[Leaf(|Level(s)|, Height(|Level(s)|), i)] == Level(t)[Leaf(|Level(t)|, Height(|Level(t)|), i)]
      {
        NodesAgree(s, t, i);
      }
      ExpansionDecides(Level(s), Level(t));
    }
  }

  lemma NodesAgree(s: seq<seq<bv8>>, t: seq<seq<bv8>>, i: nat)
    requires |s| > 1 && |t| > 1 && Height(|s|) == Height(|t|) && SameExpansion(s, t)
    ensures |Level(s)| == (|s| + 1) / 2 && |Level(t)| == (|t| + 1) / 2
    ensures Level(s)[Leaf(|Level(s)|, Height(|Level(s)|), i)] == Level(t)[Leaf(|Level(t)|, Height(|Level(t)|), i)]
  {
    hide *;
    LevelSize(s);
    LevelSize(t);
    SameAtPath(s, t, 2 * i);
    SameAtPath(s, t, 2 * i + 1);
    LeafBelow(s, 2 * i);
    LeafBelow(s, 2 * i + 1);
    LeafBelow(t, 2 * i);
    LeafBelow(t, 2 * i + 1);
    assert 2 * i / 2 == i && (2 * i + 1) / 2 == i && 2 * i % 2 == 0 && (2 * i + 1) % 2 == 1;
    NodeHash(s, Leaf(|Level(s)|, Height(|Level(s)|), i));
    NodeHash(t, Leaf(|Level(t)|, Height(|Level(t)|), i));
  }

  lemma SameAtPath(s: seq<seq<bv8>>, t: seq<seq<bv8>>, i: nat)
    requires |s| >= 1 && |t| >= 1 && Height(|s|) == Height(|t|) && SameExpansion(s, t)
    ensures s[Leaf(|s|, Height(|s|), i)] == t[Leaf(|t|, Height(|t|), i)]
  {
    hide Leaf, Height;
  }

  lemma NodeHash(s: seq<seq<bv8>>, k: nat)
    requires 2 * k < |s|
    ensures k < |Level(s)| && Level(s)[k] == PairHash(s[2 * k], Partner(s, k))
  {
    LevelSize(s);
    LevelAt(s, k);
    hide PairHash, Level;
  }

  /** Trees of one height with the same root have the same expansion, unless two pairs they hash collide. */
  lemma {:induction false} RootDecides(s: seq<seq<bv8>>, t: seq<seq<bv8>>)
    requires |s| >= 1 && |t| >= 1 && Height(|s|) == Height(|t|) && Digests(s) && Digests(t) && Root(s) == Root(t)
    ensures SameExpansion(s, t) || PairsCollide(s, t)
    decreases |s|
  {
    LevelSize(s);
    LevelSize(t);
    hide Level, Leaf, PairHash, PairsCollide;
    if |s| == 1 {
    } else {
      LeafBelow(s, 0);
      LeafBelow(t, 0);
      LevelDigests(s);
      LevelDigests(t);
      RootDecides(Level(s), Level(t));
      if PairsCollide(Level(s), Level(t)) {
        CollideAbove(s, t);
      } else if !PairsCollide(s, t) {
        forall i: nat
          ensures s[Leaf(|s|, Height(|s|), i)] == t[Leaf(|t|, Height(|t|), i)]
        {
          LeafBelow(s, i);
          LeafBelow(t, i);
          PairBelow(s, t, Leaf(|Level(s)|, Height(|Level(s)|), i / 2), Leaf(|Level(t)|, Height(|Level(t)|), i / 2));
        }
      }
    }
  }

  /** Without colliding pairs, two trees of one height have the same root exactly when their expansions agree. */
  lemma EqualRoots(s: seq<seq<bv8>>, t: seq<seq<bv8>>)
    requires |s| >= 1 && |t| >= 1 && Height(|s|) == Height(|t|) && Digests(s) && Digests(t) && !PairsCollide(s, t)
    ensures Root(s) == Root(t) <==> SameExpansion(s, t)
  {
    hide Root, SameExpansion, PairsCollide, Height;
    if Root(s) == Root(t) {
      RootDecides(s, t);
    }
    if SameExpansion(s, t) {
      ExpansionDecides(s, t);
    }
  }

  /** The nodes k levels above the leaves. */
  function Above(s: seq<seq<bv8>>, k: nat): (t: seq<seq<bv8>>)
    decreases k
  {
    if k == 0 then s else Above(Level(s), k - 1)
  }

  /** A level of a tree is the leaves of a lower tree with the same root. */
  lemma {:induction false} LevelsAbove(s: seq<seq<bv8>>, k: nat)
    requires |s| >= 1 && k <= Height(|s|) && Digests(s)
    ensures |Above(s, k)| >= 1 && Height(|Above(s, k)|) == Height(|s|) - k
    ensures Root(Above(s, k)) == Root(s) && Digests(Above(s, k))
    decreases k
  {
    hide Level, Digests, PairHash;
    if k > 0 {
      LevelSize(s);
      LevelDigests(s);
      LevelsAbove(Level(s), k - 1);
    }
  }

  /** Pairs hashed above a level are hashed in the whole tree. */
  lemma {:induction false} CollideFromAbove(s: seq<seq<bv8>>, t: seq<seq<bv8>>, k: nat)
    requires |s| >= 1 && k <= Height(|s|) && PairsCollide(Above(s, k), t)
    ensures PairsCollide(s, t)
    decreases k
  {
    hide *;
    AboveIs(s, k);
    if k > 0 {
      HeightIs(s);
      CollideFromAbove(Level(s), t, k - 1);
      CollideBelow(s, t);
    }
  }

  lemma AboveIs(s: seq<seq<bv8>>, k: nat)
    ensures Above(s, k) == if k == 0 then s else Above(Level(s), k - 1)
  {
    hide Level;
  }

  lemma HeightIs(s: seq<seq<bv8>>)
    requires |s| >= 1
    ensures |s| > 1 <==> Height(|s|) > 0
    ensures |s| > 1 ==> |Level(s)| >= 1 && Height(|s|) == Height(|Level(s)|) + 1
  {
    LevelSize(s);
    hide Level;
  }

  lemma CollideBelow(s: seq<seq<bv8>>, t: seq<seq<bv8>>)
    requires |s| > 1 && PairsCollide(Level(s), t)
    ensures PairsCollide(s, t)
  {
    hide Level, HashedIn, Collision;
    var a, b, c, d :| HashedIn(Level(s), a, b) && HashedIn(t, c, d) && Collision(a, b, c, d);
    HashedAbove(s, a, b);
  }

  /**
   Trees of any two heights, without colliding pairs: the roots are equal exactly when the nodes of the higher
   tree at the height of the lower one have the same expansion as its leaves.
   */
  lemma EqualRootsAnyHeight(s: seq<seq<bv8>>, t: seq<seq<bv8>>)
    requires |s| >= 1 && |t| >= 1 && Height(|s|) >= Height(|t|) && Digests(s) && Digests(t) && !PairsCollide(s, t)
    ensures var u := Above(s, Height(|s|) - Height(|t|));
      |u| >= 1 && Height(|u|) == Height(|t|) && (Root(s) == Root(t) <==> SameExpansion(u, t))
  {
    hide *;
    var k := Height(|s|) - Height(|t|);
    LevelsAbove(s, k);
    if PairsCollide(Above(s, k), t) {
      CollideFromAbove(s, t, k);
    }
    EqualRoots(Above(s, k), t);
  }

  lemma {:induction false} LevelOfDoubledLast(s: seq<seq<bv8>>)
    requires |s| % 2 == 1
    ensures Level(s + [s[|s| - 1]]) == Level(s)
  {
    hide PairHash;
    var t := s + [s[|s| - 1]];
    if |s| == 1 {
      assert t[2..] == [];
    } else {
      LevelOfDoubledLast(s[2..]);
      assert t[2..] == s[2..] + [s[|s| - 1]];
    }
  }

  /** The length matters: an odd list of three or more leaves has the root of the list with its last leaf doubled. */
  lemma DoubledLastLeaf(s: seq<seq<bv8>>)
    requires |s| % 2 == 1 && |s| >= 3
    ensures Root(s + [s[|s| - 1]]) == Root(s)
  {
    LevelOfDoubledLast(s);
    hide Level;
  }

  // -------------------------------------------------------------- the buffers

  const MAX_TX_SIZE: nat := 1048576

  /** The pointers of the tree and the spare buffer: 32-byte buffers, pairwise distinct, all from the pool. */
  ghost predicate Buffers(tree: seq<array<bv8>>, buffer: array<bv8>, pool: set<object>)
  {
    && (forall i :: 0 <= i < |tree| ==> tree[i] in pool && tree[i].Length == 32 && tree[i] != buffer)
    && (forall i, j :: 0 <= i < j < |tree| ==> tree[i] != tree[j])
    && buffer in pool && buffer.Length == 32
  }

  /** Exchanging a tree pointer with the spare buffer keeps the pointers distinct and loses none. */
  lemma SwapKeepsBuffers(tree: seq<array<bv8>>, buffer: array<bv8>, pool: set<object>, k: nat)
    requires k < |tree| && Buffers(tree, buffer, pool)
    ensures Buffers(tree[k := buffer], tree[k], pool)
    ensures multiset(tree[k := buffer]) + multiset{tree[k]} == multiset(tree) + multiset{buffer}
  {
  }

  /** The hash context and the pointer array are apart from the buffers. */
  ghost predicate Scratch(ctx: Context, tree: object, pool: set<object>)
  {
    && ctx.data.Length == 64 && ctx.state.Length == 8
    && ctx !in pool && ctx.data !in pool && ctx.state !in pool && tree !in pool
    && tree != ctx && tree != ctx.data && tree != ctx.state
  }

  /** sha256 of one whole message. */
  method HashOne(ctx: Context, message: array<bv8>, len: nat, out: array<bv8>)
    requires ctx.data.Length == 64 && ctx.state.Length == 8 && out.Length == 32
    requires len <= message.Length && len < 0x1_0000_0000
    requires ctx.data != message && ctx.data != out && message != out
    modifies ctx, ctx.data, ctx.state, out
    ensures out[..] == Sha256Of(message[..len])
  {
    hide *;
    ctx.Init();
    ctx.Update(message, len);
    assert [] + message[..len] == message[..len];
    ctx.Final(out);
    assert out[..32] == out[..];
  }

  /** sha256 of two digests, fed in two updates. */
  method HashPair(ctx: Context, left: array<bv8>, right: array<bv8>, out: array<bv8>)
    requires ctx.data.Length == 64 && ctx.state.Length == 8
    requires left.Length == right.Length == out.Length == 32
    requires ctx.data != left && ctx.data != right && ctx.data != out && out != left && out != right
    modifies ctx, ctx.data, ctx.state, out
    ensures out[..] == PairHash(left[..], right[..])
  {
    hide *;
    ctx.Init();
    ctx.Update(left, 32);
    ctx.Update(right, 32);
    assert left[..32] == left[..] && right[..32] == right[..];
    assert [] + left[..] + right[..] == left[..] + right[..];
    ctx.Final(out);
    assert out[..32] == out[..];
    PairHashIs(left[..], right[..]);
  }

  lemma PairHashIs(a: seq<bv8>, b: seq<bv8>)
    ensures PairHash(a, b) == Sha256Of(a + b)
  {
    hide Sha256Of;
  }

  /** The buffers hold these strings. */
  ghost predicate Shows(tree: seq<array<bv8>>, contents: seq<seq<bv8>>)
    reads set a | a in tree
  {
    |contents| == |tree| && forall m :: 0 <= m < |tree| ==> tree[m][..] == contents[m]
  }

  /** Hashes tree[i] and tree[j] into the spare buffer and exchanges it with tree[k]. */
  method HashInto(ctx: Context, tree: array<array<bv8>>, i: nat, j: nat, k: nat, buffer: array<bv8>,
                  ghost contents: seq<seq<bv8>>, ghost pool: set<object>) returns (spare: array<bv8>)
    requires Buffers(tree[..], buffer, pool) && Scratch(ctx, tree, pool) && Shows(tree[..], contents)
    requires i < tree.Length && j < tree.Length && k < tree.Length
    modifies ctx, ctx.data, ctx.state, buffer, tree
    ensures tree.Length == |contents|
    ensures Shows(tree[..], contents[k := PairHash(contents[i], contents[j])])
    ensures Buffers(tree[..], spare, pool) && Scratch(ctx, tree, pool)
    ensures multiset(tree[..]) + multiset{spare} == old(multiset(tree[..])) + multiset{buffer}
  {
    hide PairHash;
    ghost var before := tree[..];
    SwapKeepsBuffers(before, buffer, pool, k);
    HashPair(ctx, tree[i], tree[j], buffer);
    assert tree[..] == before;
    // The old buffer of position k is the next spare one.
    spare := tree[k];
    tree[k] := buffer;
  }

  /** The first k digests of the next level, then from i on those of s that are not yet read. */
  predicate Between(contents: seq<seq<bv8>>, s: seq<seq<bv8>>, k: nat, i: nat)
  {
    k <= |Level(s)| && k <= i <= |s| <= |contents|
    && contents[..k] == Level(s)[..k] && contents[i..|s|] == s[i..]
  }

  /** One pair on: positions i and j are read before position k <= i is overwritten. */
  lemma Advance(contents: seq<seq<bv8>>, s: seq<seq<bv8>>, k: nat, i: nat, j: nat)
    requires Between(contents, s, k, i) && i == 2 * k < |s| && j == if i + 1 < |s| then i + 1 else i
    ensures j < |contents|
    ensures Between(contents[k := PairHash(contents[i], contents[j])], s, k + 1, j + 1)
  {
    LevelAt(s, k);
    LevelSize(s);
    hide PairHash, Level;
    SameAt(contents, s, i, i);
    SameAt(contents, s, i, j);
    GrowPrefix(contents, Level(s), k, PairHash(contents[i], contents[j]));
    KeepSuffix(contents, s, i, j + 1, k, PairHash(contents[i], contents[j]));
  }

  lemma SameAt(c: seq<seq<bv8>>, s: seq<seq<bv8>>, i: nat, j: nat)
    requires i <= j < |s| <= |c| && c[i..|s|] == s[i..]
    ensures c[j] == s[j]
  {
    assert c[j] == c[i..|s|][j - i];
  }

  lemma GrowPrefix(c: seq<seq<bv8>>, l: seq<seq<bv8>>, k: nat, x: seq<bv8>)
    requires k < |c| && k < |l| && c[..k] == l[..k] && l[k] == x
    ensures c[k := x][..k + 1] == l[..k + 1]
  {
    assert c[k := x][..k + 1] == c[..k] + [x];
    assert l[..k + 1] == l[..k] + [l[k]];
  }

  lemma KeepSuffix(c: seq<seq<bv8>>, s: seq<seq<bv8>>, i: nat, m: nat, k: nat, x: seq<bv8>)
    requires k < m && i <= m <= |s| <= |c| && c[i..|s|] == s[i..]
    ensures c[k := x][m..|s|] == s[m..]
  {
    assert c[k := x][m..|s|] == c[m..|s|];
    assert c[m..|s|] == c[i..|s|][m - i..];
  }

  lemma LevelSize(s: seq<seq<bv8>>)
    ensures |Level(s)| == (|s| + 1) / 2
  {
    hide PairHash;
  }

  lemma BetweenStart(contents: seq<seq<bv8>>, s: seq<seq<bv8>>)
    requires |s| <= |contents| && contents[..|s|] == s
    ensures Between(contents, s, 0, 0)
  {
    hide Level;
  }

  lemma BetweenEnd(contents: seq<seq<bv8>>, s: seq<seq<bv8>>, k: nat)
    requires Between(contents, s, k, |s|) && k == |Level(s)|
    ensures k <= |contents| && contents[..k] == Level(s)
  {
    hide Level;
  }

  /** One round of the while loop: leaf_count digests become (leaf_count + 1) / 2. */
  method ReduceLevel(ctx: Context, tree: array<array<bv8>>, buffer: array<bv8>, leafCount: nat,
                     ghost s: seq<seq<bv8>>, ghost before: seq<seq<bv8>>, ghost pool: set<object>)
    returns (k: nat, spare: array<bv8>, ghost contents: seq<seq<bv8>>)
    requires Buffers(tree[..], buffer, pool) && Scratch(ctx, tree, pool) && Shows(tree[..], before)
    requires 1 < leafCount == |s| <= tree.Length == |before| && before[..leafCount] == s
    modifies ctx, ctx.data, ctx.state, tree, pool
    ensures Buffers(tree[..], spare, pool) && Scratch(ctx, tree, pool) && Shows(tree[..], contents)
    ensures k == |Level(s)| < leafCount && |contents| == tree.Length && contents[..k] == Level(s)
    ensures multiset(tree[..]) + multiset{spare} == old(multiset(tree[..])) + multiset{buffer}
  {
    hide *;
    var remainder := leafCount % 2;
    var pairCount := (leafCount - remainder) / 2;
    spare := buffer;
    contents := before;
    k := 0;
    var i := 0;
    LevelSize(s);
    BetweenStart(contents, s);
    while k < pairCount
      invariant 0 <= k <= pairCount && i == 2 * k && |contents| == tree.Length
      invariant Buffers(tree[..], spare, pool) && Scratch(ctx, tree, pool)
      invariant Shows(tree[..], contents) && Between(contents, s, k, i)
      invariant multiset(tree[..]) + multiset{spare} == old(multiset(tree[..])) + multiset{buffer}
    {
      InPool(tree[..], spare, pool);
      Advance(contents, s, k, i, i + 1);
      spare := HashInto(ctx, tree, i, i + 1, k, spare, contents, pool);
      contents := contents[k := PairHash(contents[i], contents[i + 1])];
      k, i := k + 1, i + 2;
    }
    if remainder != 0 {
      InPool(tree[..], spare, pool);
      Advance(contents, s, k, leafCount - 1, leafCount - 1);
      spare := HashInto(ctx, tree, leafCount - 1, leafCount - 1, k, spare, contents, pool);
      contents := contents[k := PairHash(contents[leafCount - 1], contents[leafCount - 1])];
      k := k + 1;
    }
    BetweenEnd(contents, s, k);
  }

  lemma AllInPool(tree: seq<array<bv8>>, buffer: array<bv8>, pool: set<object>)
    requires Buffers(tree, buffer, pool)
    ensures buffer in pool && forall i :: 0 <= i < |tree| ==> tree[i] in pool && tree[i].Length == 32
  {
  }

  lemma InPool(tree: seq<array<bv8>>, buffer: array<bv8>, pool: set<object>)
    requires Buffers(tree, buffer, pool)
    ensures buffer in pool
  {
  }

  // ------------------------------------------------------------- the method

  /** The hash buffers, all acquired here and pairwise distinct. */
  method AllocateBuffers(n: nat) returns (tree: array<array<bv8>>, buffer: array<bv8>, ghost pool: set<object>)
    ensures tree.Length == n && Buffers(tree[..], buffer, pool)
    ensures fresh(tree) && fresh(pool) && tree !in pool
  {
    buffer := new bv8[32];
    tree := new array<bv8>[n](_ => buffer);
    pool := {buffer};
    var i := 0;
    while i < n
      invariant 0 <= i <= n && fresh(pool) && fresh(tree) && tree !in pool && buffer in pool && buffer.Length == 32
      invariant forall j :: 0 <= j < i ==> tree[j] in pool && tree[j].Length == 32 && tree[j] != buffer
      invariant forall j, l :: 0 <= j < l < i ==> tree[j] != tree[l]
    {
      var leaf := new bv8[32];
      tree[i] := leaf;
      pool := pool + {leaf};
      i := i + 1;
    }
  }

  /** The digests of the serialised transactions. */
  function Leaves(txs: seq<seq<bv8>>): (s: seq<seq<bv8>>)
    ensures |s| == |txs|
  {
    if |txs| == 0 then [] else Leaves(txs[..|txs| - 1]) + [Sha256Of(txs[|txs| - 1])]
  }

  lemma {:induction false} LeavesAt(txs: seq<seq<bv8>>, i: nat)
    requires i < |txs|
    ensures Leaves(txs)[i] == Sha256Of(txs[i])
  {
    hide Sha256Of;
    if i < |txs| - 1 {
      LeavesAt(txs[..|txs| - 1], i);
    }
  }

  /** The first n buffers hold the first n strings. */
  ghost predicate Holds(tree: seq<array<bv8>>, n: nat, s: seq<seq<bv8>>)
    requires n <= |tree| && n <= |s|
    reads set a | a in tree
  {
    forall j :: 0 <= j < n ==> tree[j][..] == s[j]
  }

  /** What tx_serialize leaves in the first bytes of the serialisation buffer. */
  method Serialize(tx: seq<bv8>, txBuffer: array<bv8>)
    requires |tx| <= txBuffer.Length
    modifies txBuffer
    ensures txBuffer[..|tx|] == tx
  {
    var i := 0;
    while i < |tx|
      invariant 0 <= i <= |tx| && txBuffer[..i] == tx[..i]
    {
      txBuffer[i] := tx[i];
      i := i + 1;
    }
  }

  /** The leaves: every transaction is serialised into one buffer and hashed into its place in the tree. */
  method HashLeaves(ctx: Context, txs: seq<seq<bv8>>, tree: array<array<bv8>>, txBuffer: array<bv8>,
                    ghost buffer: array<bv8>, ghost pool: set<object>)
    requires Buffers(tree[..], buffer, pool) && Scratch(ctx, tree, pool) && tree.Length == |txs|
    requires txBuffer.Length == MAX_TX_SIZE && txBuffer !in pool && txBuffer != ctx.data && txBuffer as object != tree
    requires forall i :: 0 <= i < |txs| ==> |txs[i]| <= MAX_TX_SIZE
    modifies ctx, ctx.data, ctx.state, pool, txBuffer
    ensures Shows(tree[..], Leaves(txs))
  {
    hide Sha256Of, Leaves;
    ghost var leaves := Leaves(txs);
    var i := 0;
    while i < tree.Length
      invariant 0 <= i <= tree.Length && tree[..] == old(tree[..])
      invariant Holds(tree[..], i, leaves)
    {
      LeavesAt(txs, i);
      HashLeaf(ctx, txs[i], tree, i, txBuffer, buffer, leaves, pool);
      i := i + 1;
    }
  }

  method HashLeaf(ctx: Context, tx: seq<bv8>, tree: array<array<bv8>>, i: nat, txBuffer: array<bv8>,
                  ghost buffer: array<bv8>, ghost s: seq<seq<bv8>>, ghost pool: set<object>)
    requires Buffers(tree[..], buffer, pool) && Scratch(ctx, tree, pool) && i < tree.Length == |s|
    requires txBuffer.Length == MAX_TX_SIZE && txBuffer !in pool && txBuffer != ctx.data && txBuffer as object != tree
    requires |tx| <= MAX_TX_SIZE && s[i] == Sha256Of(tx) && Holds(tree[..], i, s)
    modifies ctx, ctx.data, ctx.state, tree[i], txBuffer
    ensures Holds(tree[..], i + 1, s)
  {
    hide Sha256Of;
    ghost var before := tree[..];
    Serialize(tx, txBuffer);
    HashOne(ctx, txBuffer, |tx|, tree[i]);
    assert tree[..] == before;
  }

  lemma RootStep(s: seq<seq<bv8>>)
    requires |s| > 1
    ensures Root(s) == Root(Level(s))
  {
    hide Level;
  }

  lemma RootOne(s: seq<seq<bv8>>)
    requires |s| == 1
    ensures Root(s) == s[0]
  {
  }

  /** The smallest trees, written out. */
  lemma SmallTrees(a: seq<bv8>, b: seq<bv8>, c: seq<bv8>)
    ensures Root(Leaves([a])) == Sha256Of(a)
    ensures Root(Leaves([a, b])) == Sha256Of(Sha256Of(a) + Sha256Of(b))
    ensures Root(Leaves([a, b, c]))
         == Sha256Of(Sha256Of(Sha256Of(a) + Sha256Of(b)) + Sha256Of(Sha256Of(c) + Sha256Of(c)))
  {
    hide Sha256Of, Root, Level, Leaves;
    FirstLeaves(a, b, c);
    var one, two, three := Leaves([a]), Leaves([a, b]), Leaves([a, b, c]);
    RootOne(one);
    TwoLeaves(two);
    RootStep(three);
    LevelAt(three, 0);
    LevelAt(three, 1);
    TwoLeaves(Level(three));
  }

  lemma FirstLeaves(a: seq<bv8>, b: seq<bv8>, c: seq<bv8>)
    ensures Leaves([a]) == [Sha256Of(a)] && Leaves([a, b]) == [Sha256Of(a), Sha256Of(b)]
    ensures Leaves([a, b, c]) == [Sha256Of(a), Sha256Of(b), Sha256Of(c)]
  {
    hide Sha256Of, Leaves;
    LeavesAt([a], 0);
    LeavesAt([a, b], 0);
    LeavesAt([a, b], 1);
    LeavesAt([a, b, c], 0);
    LeavesAt([a, b, c], 1);
    LeavesAt([a, b, c], 2);
  }

  lemma TwoLeaves(s: seq<seq<bv8>>)
    requires |s| == 2
    ensures Root(s) == Sha256Of(s[0] + s[1])
  {
    hide Sha256Of, Root, Level;
    RootStep(s);
    LevelAt(s, 0);
    RootOne(Level(s));
  }

  /** The while loop over the levels; the root ends up in the first buffer. */
  method Reduce(ctx: Context, tree: array<array<bv8>>, buffer: array<bv8>, ghost leaves: seq<seq<bv8>>,
                ghost pool: set<object>) returns (spare: array<bv8>)
    requires Buffers(tree[..], buffer, pool) && Scratch(ctx, tree, pool)
    requires 1 <= |leaves| == tree.Length && Shows(tree[..], leaves)
    modifies ctx, ctx.data, ctx.state, tree, pool
    ensures Buffers(tree[..], spare, pool) && tree[0][..] == Root(leaves)
    ensures multiset(tree[..]) + multiset{spare} == old(multiset(tree[..])) + multiset{buffer}
  {
    hide *;
    var leafCount := tree.Length;
    spare := buffer;
    ghost var s, contents := leaves, leaves;
    assert contents[..leafCount] == s;
    while leafCount > 1
      invariant 1 <= leafCount == |s| <= tree.Length == |contents| && Root(s) == Root(leaves)
      invariant Buffers(tree[..], spare, pool) && Scratch(ctx, tree, pool)
      invariant Shows(tree[..], contents) && contents[..leafCount] == s
      invariant multiset(tree[..]) + multiset{spare} == old(multiset(tree[..])) + multiset{buffer}
    {
      RootStep(s);
      LevelSize(s);
      leafCount, spare, contents := ReduceLevel(ctx, tree, spare, leafCount, s, contents, pool);
      s := Level(s);
    }
    RootOne(s);
    ShownFirst(tree[..], contents);
    assert contents[0] == contents[..leafCount][0];
  }

  lemma ShownFirst(tree: seq<array<bv8>>, contents: seq<seq<bv8>>)
    requires Shows(tree, contents) && |tree| >= 1
    ensures |contents| >= 1 && tree[0][..] == contents[0]
  {
  }

  /** memcpy of the root */
  method CopyRoot(src: array<bv8>, out: array<bv8>)
    requires src.Length == out.Length
    modifies out
    ensures out[..] == old(src[..])
  {
    var i := 0;
    while i < src.Length
      invariant 0 <= i <= src.Length && out[..i] == old(src[..i]) && src[..] == old(src[..])
    {
      out[i] := src[i];
      i := i + 1;
    }
  }

  /** No object is listed twice. */
  predicate Distinct(s: seq<object>)
  {
    forall i, j :: 0 <= i < j < |s| ==> s[i] != s[j]
  }

  lemma LeavesLength(txs: seq<seq<bv8>>)
    ensures |Leaves(txs)| == |txs|
  {
    hide Leaves;
  }

  lemma ScratchIs(ctx: Context, tree: object, pool: set<object>)
    ensures Scratch(ctx, tree, pool)
       <==> ctx.data.Length == 64 && ctx.state.Length == 8
            && ctx !in pool && ctx.data !in pool && ctx.state !in pool && tree !in pool
            && tree != ctx && tree != ctx.data && tree != ctx.state
  {
  }

  lemma MultisetParts(a: seq<object>, b: seq<object>, c: seq<object>)
    ensures multiset(a + b + c) == multiset(a) + multiset(b) + multiset(c)
  {
  }

  lemma Exchanged(s: multiset<object>, l: multiset<object>, f: multiset<object>, c: multiset<object>,
                  after: multiset<object>, before: multiset<object>)
    requires after + l == before + f
    ensures s + (l + c) + after == (f + c) + before + s
  {
    assert s + (l + c) + after == (s + c) + (after + l);
    assert (f + c) + before + s == (s + c) + (before + f);
  }

  /** What is freed is what was acquired: the pointers moved between the tree and the spare buffer only. */
  lemma AllFreed(before: seq<object>, after: seq<object>, first: object, last: object, ctx: object, scratch: object)
    requires multiset(after) + multiset{last} == multiset(before) + multiset{first}
    ensures multiset([scratch] + [last, ctx] + after) == multiset([first, ctx] + before + [scratch])
  {
    MultisetParts([scratch], [last, ctx], after);
    MultisetParts([first, ctx], before, [scratch]);
    assert multiset([last, ctx]) == multiset{last} + multiset{ctx};
    assert multiset([first, ctx]) == multiset{first} + multiset{ctx};
    assert multiset([scratch]) == multiset{scratch};
    Exchanged(multiset{scratch}, multiset{last}, multiset{first}, multiset{ctx}, multiset(after), multiset(before));
  }

  lemma FreedOnce(tree: seq<array<bv8>>, buffer: array<bv8>, pool: set<object>, ctx: object, scratch: object)
    requires Buffers(tree, buffer, pool) && ctx !in pool && scratch !in pool && ctx != scratch
    ensures Distinct([scratch] + [buffer, ctx] + tree)
  {
  }

  /** From the transactions to the root, on the buffers acquired. */
  method BuildRoot(ctx: Context, txs: seq<seq<bv8>>, tree: array<array<bv8>>, txBuffer: array<bv8>,
                   buffer: array<bv8>, out: array<bv8>, ghost pool: set<object>) returns (spare: array<bv8>)
    requires Buffers(tree[..], buffer, pool) && Scratch(ctx, tree, pool) && tree.Length == |txs| >= 1
    requires txBuffer.Length == MAX_TX_SIZE && txBuffer !in pool && txBuffer != ctx.data && txBuffer as object != tree
    requires forall i :: 0 <= i < |txs| ==> |txs[i]| <= MAX_TX_SIZE
    requires out.Length == 32 && out as object != tree
    modifies ctx, ctx.data, ctx.state, tree, pool, txBuffer, out
    ensures out[..] == Root(Leaves(txs)) && Buffers(tree[..], spare, pool)
    ensures multiset(tree[..]) + multiset{spare} == old(multiset(tree[..])) + multiset{buffer}
  {
    hide *;
    ScratchIs(ctx, tree, pool);
    HashLeaves(ctx, txs, tree, txBuffer, buffer, pool);
    LeavesLength(txs);
    spare := Reduce(ctx, tree, buffer, Leaves(txs), pool);
    AllInPool(tree[..], spare, pool);
    ghost var pointers := tree[..];
    CopyRoot(tree[0], out);
    assert tree[..] == pointers;
  }

  /**
   compute_merkle_root, given what tx_serialize makes of each transaction. Everything acquired, scratch space
   included, is freed exactly once.
   */
  method ComputeMerkleRoot(txs: seq<seq<bv8>>, out: array<bv8>)
    returns (ghost acquired: seq<object>, ghost freed: seq<object>)
    requires |txs| >= 1 && out.Length == 32
    requires forall i :: 0 <= i < |txs| ==> |txs[i]| <= MAX_TX_SIZE
    modifies out
    ensures out[..] == Root(Leaves(txs))
    ensures |acquired| == |txs| + 3 && fresh(acquired) && multiset(freed) == multiset(acquired) && Distinct(freed)
  {
    hide *;
    var ctx := new Context();
    var tree, buffer;
    ghost var pool;
    tree, buffer, pool := AllocateBuffers(|txs|);
    AllInPool(tree[..], buffer, pool);
    var txBuffer := new bv8[MAX_TX_SIZE];
    acquired := [buffer, ctx] + tree[..] + [txBuffer];
    ghost var first := tree[..];
    ScratchIs(ctx, tree, pool);
    var spare := BuildRoot(ctx, txs, tree, txBuffer, buffer, out, pool);
    freed := [txBuffer] + [spare, ctx] + tree[..];
    AllFreed(first, tree[..], buffer, spare, ctx, txBuffer);
    FreedOnce(tree[..], spare, pool, ctx, txBuffer);
  }
}
