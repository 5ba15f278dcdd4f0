/**
 chain_clean: walking every head back through prev_hash and deleting the heads met on the way, and the
 same walk in enchain_block that asks whether a block is already enchained.
 */
module Chain {
  import opened Sets

  type Hash = seq<bv8>

  datatype Header = Header(height: nat, prevHash: Hash)

  /** Along prev_hash the height falls by one, from one stored block to the next. */
  predicate WellFormed(blocks: map<Hash, Header>)
  {
    forall h :: h in blocks && blocks[h].height > 0 && blocks[h].prevHash in blocks ==>
      blocks[blocks[h].prevHash].height == blocks[h].height - 1
  }

  /** How many steps a walk from h can take at most. */
  function Steps(blocks: map<Hash, Header>, h: Hash): (r: nat)
  {
    if h in blocks then blocks[h].height + 1 else 0
  }

  /** The hashes a walk from h visits: h, its parent, and so on while the blocks are stored. */
  function Walk(blocks: map<Hash, Header>, h: Hash): (r: seq<Hash>)
    requires WellFormed(blocks)
    decreases Steps(blocks, h)
  {
    if h !in blocks then []
    else if blocks[h].height == 0 then [h]
    else [h] + Walk(blocks, blocks[h].prevHash)
  }

  /** The walk from h comes past g. */
  predicate Passes(blocks: map<Hash, Header>, h: Hash, g: Hash)
    requires WellFormed(blocks)
  {
    g in Walk(blocks, h)
  }

  lemma WalkStep(blocks: map<Hash, Header>, h: Hash, g: Hash)
    requires WellFormed(blocks)
    ensures h !in blocks ==> !Passes(blocks, h, g)
    ensures h in blocks && blocks[h].height == 0 ==> (Passes(blocks, h, g) <==> g == h)
    ensures h in blocks && blocks[h].height > 0 ==>
              (Passes(blocks, h, g) <==> g == h || Passes(blocks, blocks[h].prevHash, g))
  {
  }

  /** A walk visits stored blocks only, each one lower than the last. */
  lemma {:induction false} WalkDescends(blocks: map<Hash, Header>, h: Hash, g: Hash)
    requires WellFormed(blocks) && Passes(blocks, h, g)
    ensures h in blocks && g in blocks && (g == h || blocks[g].height < blocks[h].height)
    decreases Steps(blocks, h)
  {
    WalkStep(blocks, h, g);
    hide Passes;
    if g != h {
      WalkDescends(blocks, blocks[h].prevHash, g);
    }
  }

  lemma {:induction false} PassesTransitive(blocks: map<Hash, Header>, h: Hash, g: Hash, f: Hash)
    requires WellFormed(blocks) && Passes(blocks, h, g) && Passes(blocks, g, f)
    ensures Passes(blocks, h, f)
    decreases Steps(blocks, h)
  {
    WalkStep(blocks, h, g);
    WalkStep(blocks, h, f);
    hide Passes;
    if g != h {
      PassesTransitive(blocks, blocks[h].prevHash, g, f);
    }
  }

  // ------------------------------------------------------------- the store

  /** Head k is met on the walk of another head i: chain_clean deletes it. */
  predicate MeetsOther(blocks: map<Hash, Header>, heads: seq<Hash>, i: nat, k: nat)
    requires WellFormed(blocks) && i < |heads| && k < |heads|
  {
    i != k && Passes(blocks, heads[i], heads[k])
  }

  /** The hash is that of a head met on the walk of another head. */
  predicate Dead(blocks: map<Hash, Header>, heads: seq<Hash>, g: Hash)
    requires WellFormed(blocks)
  {
    exists i, k :: 0 <= i < |heads| && 0 <= k < |heads| && heads[k] == g && MeetsOther(blocks, heads, i, k)
  }

  /** The files of the node: stored block headers and the set of heads. */
  class Store {
    const blocks: map<Hash, Header>
    var heads: set<Hash>

    constructor (blocks: map<Hash, Header>, heads: set<Hash>)
      ensures this.blocks == blocks && this.heads == heads
    {
      this.blocks, this.heads := blocks, heads;
    }

    /** io_head_delete */
    method HeadDelete(hash: Hash)
      modifies this
      ensures heads == old(heads) - {hash}
    {
      heads := heads - {hash};
    }

    /** The loop over k for one visited hash. */
    method DeleteOthers(hash: Hash, list: seq<Hash>, i: nat)
      requires i < |list|
      modifies this
      ensures heads == if exists k :: 0 <= k < |list| && k != i && list[k] == hash then old(heads) - {hash}
                       else old(heads)
    {
      var k := 0;
      while k < |list|
        invariant 0 <= k <= |list|
        invariant heads == if exists l :: 0 <= l < k && l != i && list[l] == hash then old(heads) - {hash}
                           else old(heads)
      {
        if k != i && hash == list[k] {
          HeadDelete(hash);
        }
        k := k + 1;
      }
    }

    /** The walk from head i: every other head it meets is deleted. */
    method CleanFrom(list: seq<Hash>, i: nat)
      requires WellFormed(blocks) && i < |list|
      modifies this
      ensures forall g :: g in heads <==>
                g in old(heads) && !exists k :: 0 <= k < |list| && list[k] == g && MeetsOther(blocks, list, i, k)
    {
      var hash := list[i];
      ghost var start := list[i];
      while true
        invariant forall g :: Passes(blocks, hash, g) ==> Passes(blocks, start, g)
        invariant forall g :: g in heads ==> g in old(heads)
        invariant forall g :: g in old(heads) && g !in heads ==>
                    exists k :: 0 <= k < |list| && list[k] == g && MeetsOther(blocks, list, i, k)
        invariant forall k :: 0 <= k < |list| && MeetsOther(blocks, list, i, k) && list[k] in heads ==>
                    Passes(blocks, hash, list[k])
        decreases Steps(blocks, hash)
      {
        if hash !in blocks {
          break;
        }
        DeleteOthers(hash, list, i);
        if blocks[hash].height == 0 {
          break;
        }
        hash := blocks[hash].prevHash;
      }
    }

    /** chain_clean, over the heads io_head_load_all returned. */
    method Clean(list: seq<Hash>)
      requires WellFormed(blocks) && forall g :: g in heads <==> g in list
      modifies this
      ensures forall g :: g in heads <==> g in list && !Dead(blocks, list, g)
    {
      var i := 0;
      while i < |list|
        invariant 0 <= i <= |list|
        invariant forall g :: g in heads ==> g in list
        invariant forall g :: g in list && g !in heads ==> Dead(blocks, list, g)
        invariant forall j, k :: 0 <= j < i && 0 <= k < |list| && MeetsOther(blocks, list, j, k) ==> list[k] !in heads
      {
        CleanFrom(list, i);
        i := i + 1;
      }
    }

    /** The test of enchain_block: is the block on the walk of a head? */
    method IsEnchained(list: seq<Hash>, blockHash: Hash) returns (found: bool)
      requires WellFormed(blocks)
      ensures found <==> exists i :: 0 <= i < |list| && Passes(blocks, list[i], blockHash)
    {
      var i := 0;
      while i < |list|
        invariant 0 <= i <= |list|
        invariant forall j :: 0 <= j < i ==> !Passes(blocks, list[j], blockHash)
      {
        var hash := list[i];
        while true
          invariant Passes(blocks, list[i], blockHash) <==> Passes(blocks, hash, blockHash)
          decreases Steps(blocks, hash)
        {
          if hash !in blocks {
            break;
          }
          if hash == blockHash {
            return true;
          }
          if blocks[hash].height == 0 {
            break;
          }
          hash := blocks[hash].prevHash;
        }
        i := i + 1;
      }
      found := false;
    }
  }

  // -------------------------------------------------------- what is deleted

  predicate Distinct(list: seq<Hash>)
  {
    forall i, j :: 0 <= i < j < |list| ==> list[i] != list[j]
  }

  /** g is a proper ancestor of another head. */
  predicate BelowAnother(blocks: map<Hash, Header>, list: seq<Hash>, g: Hash)
    requires WellFormed(blocks)
  {
    exists h :: h in list && h != g && Passes(blocks, h, g)
  }

  /** With distinct heads exactly the proper ancestors of other heads are deleted. */
  lemma DeadIsBelowAnother(blocks: map<Hash, Header>, list: seq<Hash>, g: Hash)
    requires WellFormed(blocks) && Distinct(list) && g in list
    ensures Dead(blocks, list, g) <==> BelowAnother(blocks, list, g)
  {
    hide Passes;
    if BelowAnother(blocks, list, g) {
      var h :| h in list && h != g && Passes(blocks, h, g);
      var i :| 0 <= i < |list| && list[i] == h;
      var k :| 0 <= k < |list| && list[k] == g;
      assert MeetsOther(blocks, list, i, k);
    }
  }

  /** The heads that chain_clean leaves. */
  ghost predicate Survives(blocks: map<Hash, Header>, list: seq<Hash>, g: Hash)
    requires WellFormed(blocks)
  {
    g in list && !Dead(blocks, list, g)
  }

  /** No surviving head lies on the walk of another surviving head. */
  lemma Antichain(blocks: map<Hash, Header>, list: seq<Hash>, g: Hash, h: Hash)
    requires WellFormed(blocks) && Survives(blocks, list, g) && Survives(blocks, list, h) && g != h
    ensures !Passes(blocks, h, g)
  {
    var i :| 0 <= i < |list| && list[i] == h;
    var k :| 0 <= k < |list| && list[k] == g;
    hide Passes;
    assert MeetsOther(blocks, list, i, k) <==> Passes(blocks, h, g);
  }

  // ------------------------------------------------------ what stays reachable

  ghost predicate ReachableBefore(blocks: map<Hash, Header>, list: seq<Hash>, b: Hash)
    requires WellFormed(blocks)
  {
    exists h :: h in list && Passes(blocks, h, b)
  }

  ghost predicate ReachableAfter(blocks: map<Hash, Header>, list: seq<Hash>, b: Hash)
    requires WellFormed(blocks)
  {
    exists h :: Survives(blocks, list, h) && Passes(blocks, h, b)
  }

  /** A stored hash listed twice, which no other head's walk covers. */
  ghost predicate DoubledTip(blocks: map<Hash, Header>, list: seq<Hash>, g: Hash)
    requires WellFormed(blocks)
  {
    g in blocks && !BelowAnother(blocks, list, g)
    && exists i, j :: 0 <= i < j < |list| && list[i] == g && list[j] == g
  }

  function Higher(blocks: map<Hash, Header>, list: seq<Hash>, g: Hash): (r: set<Hash>)
    requires g in blocks
  {
    set h | h in list && h in blocks && blocks[h].height > blocks[g].height
  }

  lemma StrictSubset(s: set<Hash>, t: set<Hash>, x: Hash)
    requires s <= t && x in t && x !in s
    ensures |s| < |t|
  {
    SubsetSize(s, t - {x});
  }

  /** A dead head that is not a doubled tip has another head above it. */
  lemma DeadHasHigher(blocks: map<Hash, Header>, list: seq<Hash>, g: Hash) returns (h: Hash)
    requires WellFormed(blocks) && g in list && Dead(blocks, list, g) && !DoubledTip(blocks, list, g)
    ensures h in list && h != g && Passes(blocks, h, g)
  {
    hide Passes;
    var i, k :| 0 <= i < |list| && 0 <= k < |list| && list[k] == g && MeetsOther(blocks, list, i, k);
    h := list[i];
    if h == g {
      WalkDescends(blocks, g, g);
      assert BelowAnother(blocks, list, g) by {
        if i < k {
          assert list[i] == g && list[k] == g;
        } else {
          assert list[k] == g && list[i] == g;
        }
      }
      h :| h in list && h != g && Passes(blocks, h, g);
    }
  }

  /** Above every head some head survives. */
  lemma {:induction false} Survivor(blocks: map<Hash, Header>, list: seq<Hash>, g: Hash) returns (h: Hash)
    requires WellFormed(blocks) && g in list && g in blocks
    requires forall x :: x in list ==> !DoubledTip(blocks, list, x)
    ensures Survives(blocks, list, h) && Passes(blocks, h, g)
    decreases |Higher(blocks, list, g)|
  {
    WalkStep(blocks, g, g);
    hide Passes, Dead, DoubledTip;
    h := g;
    if Dead(blocks, list, g) {
      var above := DeadHasHigher(blocks, list, g);
      WalkDescends(blocks, above, g);
      StrictSubset(Higher(blocks, list, above), Higher(blocks, list, g), above);
      h := Survivor(blocks, list, above);
      PassesTransitive(blocks, h, above, g);
    }
  }

  /**
   Every block reachable from a head stays reachable exactly when no stored hash is listed twice without
   another head above it; in particular when the heads are distinct.
   */
  lemma ReachabilityKept(blocks: map<Hash, Header>, list: seq<Hash>)
    requires WellFormed(blocks)
    ensures (forall b :: ReachableBefore(blocks, list, b) ==> ReachableAfter(blocks, list, b))
       <==> forall g :: g in list ==> !DoubledTip(blocks, list, g)
    ensures Distinct(list) ==> forall g :: g in list ==> !DoubledTip(blocks, list, g)
  {
    hide Passes, Dead;
    if forall g :: g in list ==> !DoubledTip(blocks, list, g) {
      hide DoubledTip;
      forall b | ReachableBefore(blocks, list, b)
        ensures ReachableAfter(blocks, list, b)
      {
        var g :| g in list && Passes(blocks, g, b);
        WalkDescends(blocks, g, b);
        var h := Survivor(blocks, list, g);
        PassesTransitive(blocks, h, g, b);
      }
    } else {
      var g :| g in list && DoubledTip(blocks, list, g);
      TipIsLost(blocks, list, g);
    }
  }

  lemma AnotherAbove(blocks: map<Hash, Header>, list: seq<Hash>, g: Hash, h: Hash)
    requires WellFormed(blocks) && h in list && h != g
    ensures Passes(blocks, h, g) ==> BelowAnother(blocks, list, g)
  {
    hide Passes;
  }

  /** A doubled tip deletes itself. */
  lemma TipIsLost(blocks: map<Hash, Header>, list: seq<Hash>, g: Hash)
    requires WellFormed(blocks) && DoubledTip(blocks, list, g)
    ensures ReachableBefore(blocks, list, g) && !ReachableAfter(blocks, list, g)
  {
    var i, j :| 0 <= i < j < |list| && list[i] == g && list[j] == g;
    WalkStep(blocks, g, g);
    hide Passes;
    assert MeetsOther(blocks, list, i, j);
    assert Dead(blocks, list, g);
    forall h | Survives(blocks, list, h)
      ensures !Passes(blocks, h, g)
    {
      AnotherAbove(blocks, list, g, h);
    }
  }

  /** What was not reachable before is not reachable after: survivors are old heads. */
  lemma NothingGained(blocks: map<Hash, Header>, list: seq<Hash>, b: Hash)
    requires WellFormed(blocks) && ReachableAfter(blocks, list, b)
    ensures ReachableBefore(blocks, list, b)
  {
    hide Passes, Dead;
  }
}
