/** The fork tree as a value: an index of blocks by id whose oldest blocks share one parent. */
module ForkTree {

  /** A block id; its leading bytes carry the block number. */
  datatype BlockId = BlockId(num: nat, hash: nat)

  datatype Block = Block(
    id: BlockId,
    prev: BlockId,
    num: nat,
    dposIrreversible: nat,
    bftIrreversible: nat,
    inCurrentChain: bool,
    validated: bool,
    producers: set<nat>,
    confirmations: set<nat>)

  type Index = map<BlockId, Block>

  /** Every block of the index stands above the block `root`, which has left the index (or never
      was in it): the blocks numbered `base` are the children of `root`, and the parent of every
      higher block is indexed under the preceding number. */
  predicate Tree(ix: Index, root: BlockId, base: nat) {
    forall id {:trigger Placed(ix, id, root, base)} :: id in ix ==> Placed(ix, id, root, base)
  }

  predicate Placed(ix: Index, id: BlockId, root: BlockId, base: nat)
    requires id in ix
  {
    var b := ix[id];
    && b.id == id && b.num == id.num && b.num == b.prev.num + 1 && b.num >= base
    && b.dposIrreversible <= b.num
    && (b.num == base ==> b.prev == root)
    && (b.num > base ==> b.prev in ix)
  }

  /** Numbers grow by one along every link, whether or not the parent is indexed. */
  predicate Numbered(ix: Index) {
    forall b :: b in ix ==> b.num == ix[b].num == ix[b].prev.num + 1
  }

  lemma TreeIsNumbered(ix: Index, root: BlockId, base: nat)
    requires Tree(ix, root, base)
    ensures Numbered(ix)
  {
    forall b | b in ix ensures b.num == ix[b].num == ix[b].prev.num + 1 { assert Placed(ix, b, root, base); }
  }

  /** The common parent of the oldest blocks is not indexed. */
  lemma RootOutside(ix: Index, root: BlockId, base: nat)
    requires Tree(ix, root, base) && base == root.num + 1
    ensures root !in ix
  {
    forall b | b in ix ensures b.num >= base { assert Placed(ix, b, root, base); }
  }

  /** `b` is `a` or is reached from `a` by following children in the index. */
  predicate Descends(ix: Index, b: BlockId, a: BlockId)
    decreases b.num
  {
    b == a || (b in ix && ix[b].prev.num < b.num && Descends(ix, ix[b].prev, a))
  }

  function Children(ix: Index, id: BlockId): set<BlockId> {
    set b | b in ix && ix[b].prev == id
  }

  lemma {:induction false} DescendsNum(ix: Index, b: BlockId, a: BlockId)
    requires Descends(ix, b, a)
    ensures a.num <= b.num
    ensures a.num == b.num ==> a == b
    decreases b.num
  {
    if b != a { DescendsNum(ix, ix[b].prev, a); }
  }

  lemma {:induction false} DescendsTransitive(ix: Index, c: BlockId, b: BlockId, a: BlockId)
    requires Descends(ix, c, b) && Descends(ix, b, a)
    ensures Descends(ix, c, a)
    decreases c.num
  {
    if c != b { DescendsTransitive(ix, ix[c].prev, b, a); }
  }

  /** The ancestors of a block are linearly ordered. */
  lemma {:induction false} AncestorsOrdered(ix: Index, c: BlockId, a: BlockId, b: BlockId)
    requires Descends(ix, c, a) && Descends(ix, c, b) && a.num <= b.num
    ensures Descends(ix, b, a)
    decreases c.num
  {
    if c == b {
    } else if c == a {
      DescendsNum(ix, a, b);
    } else {
      AncestorsOrdered(ix, ix[c].prev, a, b);
    }
  }

  /** Every indexed block descends from exactly one block of each number between `base` and its own. */
  lemma {:induction false} AncestorAt(ix: Index, root: BlockId, base: nat, b: BlockId, n: nat) returns (a: BlockId)
    requires Tree(ix, root, base) && b in ix && base <= n <= b.num
    ensures a in ix && a.num == n && Descends(ix, b, a)
    decreases b.num
  {
    if b.num == n {
      a := b;
    } else {
      assert Placed(ix, b, root, base);
      a := AncestorAt(ix, root, base, ix[b].prev, n);
    }
  }

  // ------------------------------------------------------------------
  // Taking a subtree out
  // ------------------------------------------------------------------

  function Without(ix: Index, a: BlockId): (r: Index) {
    map b | b in ix && !Descends(ix, b, a) :: ix[b]
  }

  /** Removing a whole subtree keeps every survivor's parent. */
  lemma WithoutKeepsTree(ix: Index, root: BlockId, base: nat, a: BlockId)
    requires Tree(ix, root, base) && a.num >= base
    ensures Tree(Without(ix, a), root, base)
  {
    var r := Without(ix, a);
    forall b | b in r ensures Placed(r, b, root, base) {
      assert Placed(ix, b, root, base);
    }
  }

  /** Descent between survivors is what it was, so removing two subtrees is order-independent. */
  lemma {:induction false} WithoutDescends(ix: Index, root: BlockId, base: nat, a: BlockId, b: BlockId, c: BlockId)
    requires Tree(ix, root, base) && a.num >= base
    requires b in Without(ix, a)
    ensures Descends(Without(ix, a), b, c) <==> Descends(ix, b, c)
    decreases b.num
  {
    assert Placed(ix, b, root, base);
    var p := ix[b].prev;
    if b != c && p in ix {
      WithoutDescends(ix, root, base, a, p, c);
    }
  }

  /** What is left of the tree once block `a` of the lowest number is erased and its siblings are
      removed with their descendants: exactly the proper descendants of `a`. */
  function Above(ix: Index, a: BlockId): Index {
    map b | b in ix && b != a && Descends(ix, b, a) :: ix[b]
  }

  lemma AboveIsTree(ix: Index, root: BlockId, base: nat, a: BlockId)
    requires Tree(ix, root, base) && a in ix && a.num == base
    ensures Tree(Above(ix, a), a, base + 1)
  {
    var r := Above(ix, a);
    forall b | b in r ensures Placed(r, b, a, base + 1) {
      assert Placed(ix, b, root, base);
      assert Descends(ix, ix[b].prev, a);
      DescendsNum(ix, ix[b].prev, a);
      DescendsNum(ix, b, a);
    }
  }

  lemma {:induction false} AboveDescends(ix: Index, root: BlockId, base: nat, a: BlockId, b: BlockId, c: BlockId)
    requires Tree(ix, root, base) && a in ix
    requires b in Above(ix, a) && c in Above(ix, a)
    ensures Descends(Above(ix, a), b, c) <==> Descends(ix, b, c)
    decreases b.num
  {
    assert Placed(ix, b, root, base);
    var p := ix[b].prev;
    if b != c {
      if p == a {
        DescendsNum(ix, c, a);
        if Descends(ix, a, c) { DescendsNum(ix, a, c); }
      } else {
        AboveDescends(ix, root, base, a, p, c);
      }
    }
  }

  /** Settling a child after its parent leaves what settling the child alone would. */
  lemma AboveAbove(ix: Index, root: BlockId, base: nat, a: BlockId, b: BlockId)
    requires Tree(ix, root, base) && a in ix && b in Above(ix, a)
    ensures Above(Above(ix, a), b) == Above(ix, b)
  {
    forall c | c in ix ensures c in Above(Above(ix, a), b) <==> c in Above(ix, b) {
      if c in Above(ix, a) {
        AboveDescends(ix, root, base, a, c, b);
      } else if Descends(ix, c, b) && c != b {
        DescendsTransitive(ix, c, b, a);
        DescendsNum(ix, c, b);
        DescendsNum(ix, b, a);
      }
    }
  }

  /** While block `a` of the lowest number is being pruned: `a` is gone, and so is everything that
      stands on the siblings in `gone`. */
  ghost function Pruning(ix: Index, a: BlockId, gone: set<BlockId>): Index {
    map b | b in ix && b != a && !StandsOn(ix, b, gone) :: ix[b]
  }

  ghost predicate StandsOn(ix: Index, b: BlockId, gone: set<BlockId>) {
    exists s :: s in gone && Descends(ix, b, s)
  }

  /** Descent from a remaining sibling is still the descent of the whole tree. */
  lemma {:induction false} PruningDescends(ix: Index, root: BlockId, base: nat, a: BlockId, gone: set<BlockId>,
                                           b: BlockId, s: BlockId)
    requires Tree(ix, root, base) && a in ix && a.num == base && s.num == base && s != a
    requires b in Pruning(ix, a, gone)
    ensures Descends(Pruning(ix, a, gone), b, s) <==> Descends(ix, b, s)
    decreases b.num
  {
    assert Placed(ix, b, root, base);
    var r, p := Pruning(ix, a, gone), ix[b].prev;
    if b != s {
      if b.num == base {
        if Descends(ix, b, s) { DescendsNum(ix, b, s); }
        if Descends(r, b, s) { DescendsNum(r, b, s); }
      } else if p == a {
        if Descends(ix, a, s) { DescendsNum(ix, a, s); }
      } else {
        assert p in r;
        PruningDescends(ix, root, base, a, gone, p, s);
      }
    }
  }

  /** Removing one more sibling. */
  lemma PruningStep(ix: Index, root: BlockId, base: nat, a: BlockId, gone: set<BlockId>, s: BlockId)
    requires Tree(ix, root, base) && a in ix && a.num == base && s.num == base && s != a
    ensures Without(Pruning(ix, a, gone), s) == Pruning(ix, a, gone + {s})
  {
    var r := Pruning(ix, a, gone);
    forall b | b in ix ensures b in Without(r, s) <==> b in Pruning(ix, a, gone + {s}) {
      if b in r { PruningDescends(ix, root, base, a, gone, b, s); }
      if StandsOn(ix, b, gone) {
        var g :| g in gone && Descends(ix, b, g);
        assert g in gone + {s};
      }
    }
  }

  /** With no block of the lowest number left, exactly the proper descendants of `a` remain. */
  lemma PruningDone(ix: Index, root: BlockId, base: nat, a: BlockId, gone: set<BlockId>)
    requires Tree(ix, root, base) && a in ix && a.num == base
    requires forall s :: s in gone ==> s.num == base && s != a
    requires forall b :: b in Pruning(ix, a, gone) ==> b.num != base
    ensures Pruning(ix, a, gone) == Above(ix, a)
  {
    forall b | b in ix ensures b in Pruning(ix, a, gone) <==> b in Above(ix, a) {
      assert Placed(ix, b, root, base);
      var r := AncestorAt(ix, root, base, b, base);
      if r == a {
        if StandsOn(ix, b, gone) {
          var g :| g in gone && Descends(ix, b, g);
          AncestorsOrdered(ix, b, a, g);
          DescendsNum(ix, g, a);
        }
      } else {
        assert StandsOn(ix, r, gone);
        var g :| g in gone && Descends(ix, r, g);
        DescendsTransitive(ix, b, r, g);
        assert StandsOn(ix, b, gone);
        if Descends(ix, b, a) {
          AncestorsOrdered(ix, b, a, r);
          DescendsNum(ix, r, a);
        }
      }
    }
  }

  // ------------------------------------------------------------------
  // The two orders of the index
  // ------------------------------------------------------------------

  /** The head order: dpos irreversible number, then bft irreversible number, then block number. */
  predicate Better(a: Block, b: Block) {
    || a.dposIrreversible > b.dposIrreversible
    || (a.dposIrreversible == b.dposIrreversible &&
        (a.bftIrreversible > b.bftIrreversible ||
         (a.bftIrreversible == b.bftIrreversible && a.num > b.num)))
  }

  predicate Best(ix: Index, id: BlockId) {
    id in ix && forall b :: b in ix ==> !Better(ix[b], ix[id])
  }

  /** No block carries a greater dpos irreversible number than a best one; none with the same dpos number carries a greater
      bft irreversible number; and none with both the same has a greater block number. */
  lemma BestMeans(ix: Index, id: BlockId)
    ensures Best(ix, id) <==>
            id in ix && forall b :: b in ix ==>
              && ix[b].dposIrreversible <= ix[id].dposIrreversible
              && (ix[b].dposIrreversible == ix[id].dposIrreversible ==> ix[b].bftIrreversible <= ix[id].bftIrreversible)
              && (ix[b].dposIrreversible == ix[id].dposIrreversible && ix[b].bftIrreversible == ix[id].bftIrreversible ==>
                    ix[b].num <= ix[id].num)
  {
  }

  /** A child of a best block that carries at least its irreversible numbers is better than every other block. */
  lemma ChildIsBetter(ix: Index, parent: BlockId, b: Block, other: BlockId)
    requires Best(ix, parent) && other in ix && b.num > ix[parent].num
    requires b.dposIrreversible >= ix[parent].dposIrreversible && b.bftIrreversible >= ix[parent].bftIrreversible
    ensures Better(b, ix[other]) && !Better(ix[other], b)
  {
    assert !Better(ix[other], ix[parent]);
  }

  /** Irreversible numbers never decrease from parent to child. */
  ghost predicate Growing(ix: Index) {
    forall b :: b in ix && ix[b].prev in ix ==>
      ix[ix[b].prev].dposIrreversible <= ix[b].dposIrreversible && ix[ix[b].prev].bftIrreversible <= ix[b].bftIrreversible
  }

  lemma {:induction false} GrowsAlong(ix: Index, b: BlockId, a: BlockId)
    requires Growing(ix) && b in ix && a in ix && Descends(ix, b, a)
    ensures ix[a].dposIrreversible <= ix[b].dposIrreversible && ix[a].bftIrreversible <= ix[b].bftIrreversible
    decreases b.num
  {
    if b != a { GrowsAlong(ix, ix[b].prev, a); }
  }

  /** Where there is a single branch and irreversible numbers never decrease along it, its last block is the best. */
  lemma SingleBranchBest(ix: Index, root: BlockId, base: nat, head: BlockId)
    requires Tree(ix, root, base) && head in ix && Growing(ix) && forall b :: b in ix ==> Descends(ix, head, b)
    ensures Best(ix, head)
  {
    forall b | b in ix ensures !Better(ix[b], ix[head]) {
      assert Placed(ix, b, root, base) && Placed(ix, head, root, base);
      GrowsAlong(ix, head, b);
      DescendsNum(ix, head, b);
    }
  }

  /** Some block carries a dpos irreversible number above `num`. */
  ghost predicate Passed(ix: Index, num: nat) {
    exists b :: b in ix && ix[b].dposIrreversible > num
  }

  /** The best block carries the greatest dpos irreversible number. */
  lemma BestPasses(ix: Index, id: BlockId, num: nat)
    requires Best(ix, id)
    ensures ix[id].dposIrreversible > num <==> Passed(ix, num)
  {
    if b :| b in ix && ix[b].dposIrreversible > num { assert !Better(ix[b], ix[id]); }
  }

  /** The age order: block number, then blocks of the current chain first. */
  predicate Older(a: Block, b: Block) {
    a.num < b.num || (a.num == b.num && a.inCurrentChain && !b.inCurrentChain)
  }

  predicate Oldest(ix: Index, id: BlockId) {
    id in ix && forall b :: b in ix ==> !Older(ix[b], ix[id])
  }

  /** The lowest number counts; among equals, being in the current chain. */
  lemma OldestMeans(ix: Index, id: BlockId)
    ensures Oldest(ix, id) <==>
            id in ix && forall c :: c in ix ==>
              && ix[id].num <= ix[c].num
              && (ix[id].num == ix[c].num && ix[c].inCurrentChain ==> ix[id].inCurrentChain)
  {
    if Oldest(ix, id) {
      forall c | c in ix
        ensures ix[id].num <= ix[c].num && (ix[id].num == ix[c].num && ix[c].inCurrentChain ==> ix[id].inCurrentChain)
      {
        assert !Older(ix[c], ix[id]);
      }
    }
  }

  /** An oldest block has the lowest number of the tree. */
  lemma OldestIsLowest(ix: Index, root: BlockId, base: nat, id: BlockId)
    requires Tree(ix, root, base) && Oldest(ix, id)
    ensures id.num == base
  {
    assert Placed(ix, id, root, base);
    var a := AncestorAt(ix, root, base, id, base);
    assert Placed(ix, a, root, base);
  }

  /** A tree has a block below number `n` exactly when it is not empty and its lowest number is below `n`. */
  lemma LowestBelow(ix: Index, root: BlockId, base: nat, n: nat)
    requires Tree(ix, root, base)
    ensures (exists b :: b in ix && b.num < n) <==> ix != map[] && base < n
  {
    if b :| b in ix && b.num < n {
      assert Placed(ix, b, root, base);
    } else if ix != map[] {
      var b :| b in ix;
      assert Placed(ix, b, root, base);
      var a := AncestorAt(ix, root, base, b, base);
    }
  }

  /** A tree without a block of the lowest number is empty. */
  lemma NoRootNoTree(ix: Index, root: BlockId, base: nat)
    requires Tree(ix, root, base) && forall b :: b in ix ==> b.num != base
    ensures ix == map[]
  {
    if ix != map[] {
      var b :| b in ix;
      assert Placed(ix, b, root, base);
      var a := AncestorAt(ix, root, base, b, base);
    }
  }

  // ------------------------------------------------------------------
  // Parent-linked paths
  // ------------------------------------------------------------------

  /** `p` walks from `p[0]` towards the root, parent by parent, inside the index. */
  ghost predicate Path(ix: Index, p: seq<BlockId>) {
    && (forall i :: 0 <= i < |p| ==> p[i] in ix)
    && (forall i, j :: 0 <= i < j < |p| && j == i + 1 ==> ix[p[i]].prev == p[j])
  }

  lemma {:induction false} PathDescends(ix: Index, root: BlockId, base: nat, p: seq<BlockId>, i: nat, j: nat)
    requires Tree(ix, root, base) && Path(ix, p) && i <= j < |p|
    ensures Descends(ix, p[i], p[j])
    ensures p[j].num == p[i].num - (j - i)
    decreases j - i
  {
    if i < j {
      assert Placed(ix, p[i], root, base);
      PathDescends(ix, root, base, p, i + 1, j);
    }
  }

  /** Blocks emitted one after another, each the child of the one before, above `root`. */
  ghost predicate Linked(bs: seq<Block>, root: BlockId) {
    && (forall i :: 0 <= i < |bs| ==> bs[i].num == bs[i].id.num == root.num + 1 + i)
    && (bs != [] ==> bs[0].prev == root)
    && (forall i, j :: 0 <= i < j < |bs| && j == i + 1 ==> bs[j].prev == bs[i].id)
  }
}
