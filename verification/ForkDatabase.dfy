/** The fork database: the index of all blocks that may still become part of the chain, updated in
    place as blocks arrive, are confirmed, become irreversible or turn out invalid. */
module ForkDb {
  import opened ForkTree

  /** Along every branch the bft irreversible number never decreases. */
  ghost predicate BftMonotone(ix: Index) {
    forall b {:trigger BftInherited(ix, b)} :: b in ix ==> BftInherited(ix, b)
  }

  predicate BftInherited(ix: Index, b: BlockId)
    requires b in ix
  {
    ix[b].prev in ix ==> ix[ix[b].prev].bftIrreversible <= ix[b].bftIrreversible
  }

  lemma {:induction false} BftGrows(ix: Index, b: BlockId, a: BlockId)
    requires BftMonotone(ix) && b in ix && a in ix && Descends(ix, b, a)
    ensures ix[a].bftIrreversible <= ix[b].bftIrreversible
    decreases b.num
  {
    if b != a {
      assert BftInherited(ix, b);
      BftGrows(ix, ix[b].prev, a);
    }
  }

  /** How a call that adds to the fork database ends. `NoHeadLeft` stands for the crash of taking the
      first block of an emptied index. */
  datatype Outcome = Done | Duplicate | Unlinkable | NotFound | Rejected | NoHeadLeft

  /** A new block as the header state of its parent makes it: one number higher, inheriting the
      parent's bft irreversible number. */
  predicate Extends(ix: Index, b: Block) {
    && b.prev in ix && b.num == b.id.num == b.prev.num + 1
    && b.dposIrreversible <= b.num
    && b.bftIrreversible == ix[b.prev].bftIrreversible
  }

  /** The state of a received block on top of its parent, not yet applied, validated or confirmed. */
  function NewState(ix: Index, id: BlockId, prev: BlockId, dpos: nat, producers: set<nat>): Block
    requires prev in ix
  {
    Block(id, prev, ix[prev].num + 1, dpos, ix[prev].bftIrreversible, false, false, producers, {})
  }

  lemma ExtendKeepsTree(ix: Index, root: BlockId, base: nat, b: Block)
    requires Tree(ix, root, base) && BftMonotone(ix) && Extends(ix, b) && b.id !in ix
    ensures Tree(ix[b.id := b], root, base) && BftMonotone(ix[b.id := b])
  {
    var ix' := ix[b.id := b];
    assert Placed(ix, b.prev, root, base);
    forall c | c in ix' ensures Placed(ix', c, root, base) && BftInherited(ix', c) {
      if c != b.id {
        assert Placed(ix, c, root, base);
        assert BftInherited(ix, c);
        if c.num > base { assert Placed(ix, ix[c].prev, root, base); }
      }
    }
  }

  ghost predicate Distinct(q: seq<BlockId>) {
    forall i, j :: 0 <= i < j < |q| ==> q[i] != q[j]
  }

  lemma DistinctJoin(q: seq<BlockId>, r: seq<BlockId>)
    requires Distinct(q) && Distinct(r) && forall x :: x in r ==> x !in q
    ensures Distinct(q + r)
  {
    forall i, j | 0 <= i < j < |q + r| ensures (q + r)[i] != (q + r)[j] {
      if i < |q| <= j { assert (q + r)[j] in r && (q + r)[i] in q; }
    }
  }

  /** A set closed under children holds the whole subtree of each of its members. */
  lemma {:induction false} ClosedHoldsSubtree(ix: Index, closed: set<BlockId>, b: BlockId, a: BlockId)
    requires a in closed && forall c :: c in ix && ix[c].prev in closed ==> c in closed
    requires Descends(ix, b, a)
    ensures b in closed
    decreases b.num
  {
    if b != a { ClosedHoldsSubtree(ix, closed, ix[b].prev, a); }
  }

  ghost function Members(q: seq<BlockId>): set<BlockId> {
    set x | x in q
  }

  /** The removal queue: its first `i` entries (the set `done`) are erased, their children are
      queued, and nothing is queued twice. */
  ghost predicate QueueInv(ix: Index, id: BlockId, queue: seq<BlockId>, i: nat, done: set<BlockId>) {
    && i <= |queue| && Distinct(queue) && id in queue
    && done == Members(queue[..i])
    && (forall x :: x in queue ==> Descends(ix, x, id))
    && (forall x :: x in queue && x != id ==> x in ix && ix[x].prev in done)
    && (forall x :: x in ix && ix[x].prev in done ==> x in queue)
  }

  /** No child of the entry being processed was queued before, so the index still holds them all. */
  lemma QueueChildren(ix: Index, id: BlockId, queue: seq<BlockId>, i: nat,
                      done: set<BlockId>, index: Index, cs: seq<BlockId>)
    requires Numbered(ix) && QueueInv(ix, id, queue, i, done) && i < |queue|
    requires index == map b | b in ix && b !in done && b != queue[i] :: ix[b]
    requires forall b :: b in cs <==> b in Children(index, queue[i])
    ensures queue[i] !in done
    ensures forall c :: c in cs ==> c !in queue
    ensures forall c :: c in cs <==> c in ix && ix[c].prev == queue[i]
    ensures forall c :: c in cs ==> ix[c].prev.num < c.num
  {
    var q := queue[i];
    assert q !in queue[..i];
    forall c | c in ix && ix[c].prev == q ensures c !in queue && ix[c].prev.num < c.num {
      if c == id { DescendsNum(ix, q, id); }
    }
    forall c | c in ix && ix[c].prev == q ensures c in cs {
      assert c !in done && c != q;
      assert c in index;
    }
  }

  lemma QueueStep(ix: Index, id: BlockId, queue: seq<BlockId>, i: nat, done: set<BlockId>, cs: seq<BlockId>)
    requires QueueInv(ix, id, queue, i, done) && i < |queue| && queue[i] !in done
    requires Distinct(cs) && forall c :: c in cs <==> c in ix && ix[c].prev == queue[i]
    requires forall c :: c in cs ==> c !in queue
    requires forall c :: c in cs ==> ix[c].prev.num < c.num
    ensures QueueInv(ix, id, queue + cs, i + 1, done + {queue[i]})
    ensures cs != [] ==> ix.Keys - Members(queue + cs) < ix.Keys - Members(queue)
    ensures cs == [] ==> Members(queue + cs) == Members(queue)
  {
    assert (queue + cs)[..i + 1] == queue[..i] + [queue[i]];
    DistinctJoin(queue, cs);
    if cs != [] {
      var c := cs[0];
      assert c in cs && c in ix;
      assert c in Members(queue + cs) && c !in Members(queue);
      assert c in ix.Keys - Members(queue) && c !in ix.Keys - Members(queue + cs);
      assert Members(queue) <= Members(queue + cs);
    } else {
      assert queue + cs == queue;
    }
  }

  /** One turn of the removal queue. */
  lemma QueueTurn(ix: Index, id: BlockId, queue: seq<BlockId>, i: nat,
                  index: Index, cs: seq<BlockId>)
    requires Numbered(ix) && i < |queue| && QueueInv(ix, id, queue, i, Members(queue[..i]))
    requires index == Erased(ix, queue[..i]) - {queue[i]}
    requires Distinct(cs) && forall b :: b in cs <==> b in Children(index, queue[i])
    ensures QueueInv(ix, id, queue + cs, i + 1, Members((queue + cs)[..i + 1]))
    ensures index == Erased(ix, (queue + cs)[..i + 1])
    ensures cs != [] ==> ix.Keys - Members(queue + cs) < ix.Keys - Members(queue)
    ensures cs == [] ==> queue + cs == queue
  {
    var done := Members(queue[..i]);
    ErasedNext(ix, queue, i, cs);
    QueueChildren(ix, id, queue, i, done, index, cs);
    QueueStep(ix, id, queue, i, done, cs);
    if cs == [] { assert queue + cs == queue; }
  }

  ghost function Erased(ix: Index, q: seq<BlockId>): Index {
    map b | b in ix && b !in q :: ix[b]
  }

  lemma ErasedNext(ix: Index, queue: seq<BlockId>, i: nat, cs: seq<BlockId>)
    requires i < |queue|
    ensures Members((queue + cs)[..i + 1]) == Members(queue[..i]) + {queue[i]}
    ensures Erased(ix, queue[..i]) - {queue[i]} == Erased(ix, (queue + cs)[..i + 1])
    ensures Erased(ix, queue[..i]) - {queue[i]} == map b | b in ix && b !in Members(queue[..i]) && b != queue[i] :: ix[b]
  {
    assert (queue + cs)[..i + 1] == queue[..i] + [queue[i]];
  }

  lemma QueueDone(ix: Index, id: BlockId, queue: seq<BlockId>)
    requires QueueInv(ix, id, queue, |queue|, Members(queue[..|queue|]))
    ensures Erased(ix, queue[..|queue|]) == Without(ix, id)
  {
    assert queue[..|queue|] == queue;
    var done := Members(queue);
    forall b | b in ix ensures b in done <==> Descends(ix, b, id) {
      if Descends(ix, b, id) { ClosedHoldsSubtree(ix, done, b, id); }
    }
  }

  /** The same blocks, up to the bookkeeping of their states. */
  predicate SameBlocks(a: seq<Block>, b: seq<Block>) {
    |a| == |b| && forall i :: 0 <= i < |a| ==> a[i].id == b[i].id && a[i].prev == b[i].prev
  }

  /** At most one indexed block has the lowest number. */
  predicate SoleRoot(ix: Index, base: nat, id: BlockId) {
    id.num == base && forall b :: b in ix && b.num == base ==> b == id
  }

  lemma BftSubmap(ix: Index, ix': Index)
    requires BftMonotone(ix) && forall b :: b in ix' ==> b in ix && ix'[b] == ix[b]
    ensures BftMonotone(ix')
  {
    forall b | b in ix' ensures BftInherited(ix', b) {
      assert BftInherited(ix, b);
    }
  }

  /** The best of all blocks, if it is among the blocks that remain, is best among them. */
  lemma BestOfRest(ix: Index, best: BlockId, a: BlockId, rest: Index)
    requires Best(ix, best) && rest == Above(ix, a) && best != a
    ensures best in rest <==> Descends(ix, best, a)
    ensures best in rest ==> Best(rest, best)
  {
  }

  // ------------------------------------------------------------------
  // Spreading a bft irreversible number over a subtree
  // ------------------------------------------------------------------

  function Max(a: nat, b: nat): nat {
    if a < b then b else a
  }

  /** Every block of the subtree of `id` has at least the number of `id` as its bft irreversible
      number; every other block is as before. */
  function BftSpread(ix: Index, id: BlockId): Index {
    map b | b in ix ::
      if Descends(ix, b, id) then ix[b].(bftIrreversible := Max(ix[b].bftIrreversible, id.num)) else ix[b]
  }

  /** The walk in progress: blocks of the subtree were raised to the number of `id` where they were
      lower, and below every raised block that is not open any more, no child is lower. */
  ghost predicate BftWalk(ix: Index, id: BlockId, cur: Index, open: set<BlockId>) {
    && id in ix && cur.Keys == ix.Keys && cur[id].bftIrreversible == id.num
    && (forall b {:trigger WalkedAt(ix, id, cur, open, b)} :: b in ix ==> WalkedAt(ix, id, cur, open, b))
  }

  ghost predicate WalkedAt(ix: Index, id: BlockId, cur: Index, open: set<BlockId>, b: BlockId)
    requires b in ix && cur.Keys == ix.Keys
  {
    && (cur[b] == ix[b] || Raised(ix, id, cur, b))
    && (Raised(ix, id, cur, b) && b !in open ==> ChildrenReach(ix, cur, b, id.num))
  }

  ghost predicate ChildrenReach(ix: Index, cur: Index, b: BlockId, num: nat)
    requires cur.Keys == ix.Keys
  {
    forall c :: c in ix && ix[c].prev == b ==> cur[c].bftIrreversible >= num
  }

  predicate Raised(ix: Index, id: BlockId, cur: Index, b: BlockId)
    requires b in ix && b in cur
  {
    && cur[b] == ix[b].(bftIrreversible := id.num) && Descends(ix, b, id)
    && (ix[b].bftIrreversible < id.num || b == id)
  }

  /** The open blocks are those of the queue, all in the subtree. */
  ghost predicate OpenAre(ix: Index, id: BlockId, queue: seq<BlockId>, open: set<BlockId>) {
    && (forall q :: q in open ==> q in queue)
    && (forall q :: q in queue ==> q in ix && Descends(ix, q, id))
  }

  lemma OpenNext(ix: Index, id: BlockId, level: seq<BlockId>, j: nat, updated: seq<BlockId>, more: seq<BlockId>,
                 open: set<BlockId>)
    requires j < |level|
    requires forall q :: q in level[j..] + updated ==> q in ix && Descends(ix, q, id)
    requires forall q :: q in more ==> q in ix && Descends(ix, q, id)
    requires forall q :: q in open ==> q in level[j..] + updated + more && q != level[j]
    ensures OpenAre(ix, id, level[j + 1..] + (updated + more), open)
  {
    assert level[j..] == [level[j]] + level[j + 1..];
  }

  ghost predicate Reached(cur: Index, cs: seq<BlockId>, num: nat) {
    forall c :: c in cs ==> c in cur && cur[c].bftIrreversible >= num
  }

  lemma ReachedNext(cur: Index, cur': Index, cs: seq<BlockId>, k: nat, num: nat, raised: bool)
    requires k < |cs| && Reached(cur, cs[..k], num) && cs[k] in cur && (raised <==> cur[cs[k]].bftIrreversible < num)
    requires cur' == if raised then cur[cs[k] := cur[cs[k]].(bftIrreversible := num)] else cur
    ensures Reached(cur', cs[..k + 1], num)
  {
    assert cs[..k + 1] == cs[..k] + [cs[k]];
  }

  function Low(cur: Index, num: nat): set<BlockId> {
    set b | b in cur && cur[b].bftIrreversible < num
  }

  /** Raising a low child of an open block opens the child. */
  lemma BftRaise(ix: Index, id: BlockId, cur: Index, open: set<BlockId>, q: BlockId, c: BlockId)
    requires BftWalk(ix, id, cur, open) && Numbered(ix)
    requires q in ix && Descends(ix, q, id) && c in ix && ix[c].prev == q && cur[c].bftIrreversible < id.num
    ensures BftWalk(ix, id, cur[c := cur[c].(bftIrreversible := id.num)], open + {c})
    ensures Descends(ix, c, id)
    ensures Low(cur[c := cur[c].(bftIrreversible := id.num)], id.num) < Low(cur, id.num)
  {
    var cur' := cur[c := cur[c].(bftIrreversible := id.num)];
    assert c.num == ix[c].num == q.num + 1;
    forall b | b in ix ensures WalkedAt(ix, id, cur', open + {c}, b) {
      BftRaiseAt(ix, id, cur, open, c, b);
    }
    LowShrinks(cur, id.num, c);
  }

  lemma BftRaiseAt(ix: Index, id: BlockId, cur: Index, open: set<BlockId>, c: BlockId, b: BlockId)
    requires BftWalk(ix, id, cur, open) && c in ix && b in ix
    requires Descends(ix, c, id) && cur[c].bftIrreversible < id.num
    ensures WalkedAt(ix, id, cur[c := cur[c].(bftIrreversible := id.num)], open + {c}, b)
  {
    assert WalkedAt(ix, id, cur, open, c);
    assert WalkedAt(ix, id, cur, open, b);
    assert ChildrenReach(ix, cur, b, id.num) ==>
        ChildrenReach(ix, cur[c := cur[c].(bftIrreversible := id.num)], b, id.num);
  }

  lemma LowShrinks(cur: Index, num: nat, c: BlockId)
    requires c in cur && cur[c].bftIrreversible < num
    ensures Low(cur[c := cur[c].(bftIrreversible := num)], num) < Low(cur, num)
  {
    assert c in Low(cur, num) && c !in Low(cur[c := cur[c].(bftIrreversible := num)], num);
  }

  /** A block none of whose children is low may be closed. */
  lemma BftClose(ix: Index, id: BlockId, cur: Index, open: set<BlockId>, q: BlockId)
    requires BftWalk(ix, id, cur, open) && ChildrenReach(ix, cur, q, id.num)
    ensures BftWalk(ix, id, cur, open - {q})
  {
    forall b | b in ix ensures WalkedAt(ix, id, cur, open - {q}, b) {
      assert WalkedAt(ix, id, cur, open, b);
    }
  }

  /** The walk changes no parent. */
  lemma BftWalkChildren(ix: Index, id: BlockId, cur: Index, open: set<BlockId>, q: BlockId)
    requires BftWalk(ix, id, cur, open)
    ensures forall c :: c in Children(cur, q) <==> c in ix && ix[c].prev == q
  {
    forall c | c in ix ensures cur[c].prev == ix[c].prev {
      assert WalkedAt(ix, id, cur, open, c);
    }
  }

  /** With nothing open, the walk has spread the number over the whole subtree: it stopped only at
      blocks whose descendants already had it. */
  lemma BftWalkDone(ix: Index, root: BlockId, base: nat, id: BlockId, cur: Index)
    requires Tree(ix, root, base) && BftMonotone(ix) && BftWalk(ix, id, cur, {})
    requires ix[id].bftIrreversible <= id.num
    ensures cur == BftSpread(ix, id)
  {
    forall b | b in ix ensures cur[b] == BftSpread(ix, id)[b] {
      assert WalkedAt(ix, id, cur, {}, b);
      if Descends(ix, b, id) { BftReached(ix, root, base, id, cur, b); }
    }
  }

  lemma {:induction false} BftReached(ix: Index, root: BlockId, base: nat, id: BlockId, cur: Index, b: BlockId)
    requires Tree(ix, root, base) && BftMonotone(ix) && BftWalk(ix, id, cur, {})
    requires b in ix && Descends(ix, b, id)
    ensures cur[b].bftIrreversible >= id.num
    decreases b.num
  {
    if b != id {
      var p := ix[b].prev;
      assert Placed(ix, b, root, base);
      DescendsNum(ix, p, id);
      assert Placed(ix, id, root, base);
      BftReached(ix, root, base, id, cur, p);
      assert BftInherited(ix, b);
      assert WalkedAt(ix, id, cur, {}, p) && WalkedAt(ix, id, cur, {}, b);
    }
  }

  /** Spreading keeps the tree and keeps bft numbers growing along every branch. */
  lemma SpreadKeeps(ix: Index, root: BlockId, base: nat, id: BlockId)
    requires Tree(ix, root, base) && BftMonotone(ix)
    ensures Tree(BftSpread(ix, id), root, base) && BftMonotone(BftSpread(ix, id))
  {
    var ix' := BftSpread(ix, id);
    forall b | b in ix' ensures Placed(ix', b, root, base) && BftInherited(ix', b) {
      assert Placed(ix, b, root, base);
      assert BftInherited(ix, b);
    }
  }

  // ------------------------------------------------------------------
  // Changing a label of a block changes no link
  // ------------------------------------------------------------------

  function Flagged(ix: Index, id: BlockId, flag: bool): Index
    requires id in ix
  {
    ix[id := ix[id].(inCurrentChain := flag)]
  }

  /** The same blocks with the same links and the same irreversible numbers. */
  predicate SameLinks(ix: Index, ix': Index) {
    && ix'.Keys == ix.Keys
    && forall b :: b in ix ==>
         && ix'[b].id == ix[b].id && ix'[b].prev == ix[b].prev && ix'[b].num == ix[b].num
         && ix'[b].dposIrreversible == ix[b].dposIrreversible && ix'[b].bftIrreversible == ix[b].bftIrreversible
  }

  lemma RelabelKeeps(ix: Index, ix': Index, root: BlockId, base: nat)
    requires Tree(ix, root, base) && BftMonotone(ix) && SameLinks(ix, ix')
    ensures Tree(ix', root, base) && BftMonotone(ix')
  {
    forall b | b in ix' ensures Placed(ix', b, root, base) && BftInherited(ix', b) {
      assert Placed(ix, b, root, base);
      assert BftInherited(ix, b);
    }
  }

  lemma {:induction false} SameDescent(ix: Index, ix': Index, b: BlockId, a: BlockId)
    requires SameLinks(ix, ix')
    ensures Descends(ix', b, a) <==> Descends(ix, b, a)
    decreases b.num
  {
    if b != a && b in ix && ix[b].prev.num < b.num { SameDescent(ix, ix', ix[b].prev, a); }
  }

  // ------------------------------------------------------------------
  // Branches
  // ------------------------------------------------------------------

  /** Two paths from the heads `x` and `y` towards the root that end at blocks of equal number with the
      same parent, and share no block before that. */
  ghost predicate Branches(ix: Index, x: BlockId, y: BlockId, a: seq<BlockId>, b: seq<BlockId>) {
    && Path(ix, a) && a != [] && a[0] == x
    && Path(ix, b) && b != [] && b[0] == y
    && a[|a| - 1].num == b[|b| - 1].num
    && ix[a[|a| - 1]].prev == ix[b[|b| - 1]].prev
    && (forall i, j :: 0 <= i < |a| && 0 <= j < |b| && a[i] == b[j] ==> i == |a| - 1 && j == |b| - 1)
    && (|a| > 1 && |b| > 1 ==> a[|a| - 1] != b[|b| - 1])
  }

  /** The branches are determined by the index and the two heads. */
  lemma BranchesUnique(ix: Index, root: BlockId, base: nat, x: BlockId, y: BlockId,
                       a: seq<BlockId>, b: seq<BlockId>, a': seq<BlockId>, b': seq<BlockId>)
    requires Tree(ix, root, base) && Branches(ix, x, y, a, b) && Branches(ix, x, y, a', b')
    ensures a == a' && b == b'
  {
    PathAbove(ix, root, base, a);
    PathAbove(ix, root, base, b);
    PathAbove(ix, root, base, a');
    PathAbove(ix, root, base, b');
    if |a| <= |a'| {
      NoLonger(ix, a, b, a', b');
    } else {
      NoLonger(ix, a', b', a, b);
    }
    SameSteps(ix, a, a');
    SameSteps(ix, b, b');
  }

  /** Two paths of equal length from the same block are the same. */
  lemma {:induction false} SameSteps(ix: Index, p: seq<BlockId>, q: seq<BlockId>)
    requires Path(ix, p) && Path(ix, q) && p != [] && q != [] && p[0] == q[0]
    ensures |p| <= |q| ==> p == q[..|p|]
    ensures |p| == |q| ==> p == q
    decreases |p|
  {
    if |p| > 1 && |q| > 1 {
      SameSteps(ix, p[1..], q[1..]);
      assert p == [p[0]] + p[1..] && q == [q[0]] + q[1..];
    }
  }

  /** Paths that go on beyond two branches meet right behind them. */
  lemma MeetBehind(ix: Index, a: seq<BlockId>, b: seq<BlockId>, a': seq<BlockId>, b': seq<BlockId>)
    requires a != [] && b != [] && Branches(ix, a[0], b[0], a, b) && |a| < |a'| && |b| < |b'|
    requires Path(ix, a') && Path(ix, b') && a'[0] == a[0] && b'[0] == b[0]
    ensures a'[|a|] == b'[|b|]
  {
    SameSteps(ix, a, a');
    SameSteps(ix, b, b');
    assert a'[|a| - 1] == a[|a| - 1] && b'[|b| - 1] == b[|b| - 1];
  }

  /** Branches stop at the first common parent. */
  lemma NoLonger(ix: Index, a: seq<BlockId>, b: seq<BlockId>, a': seq<BlockId>, b': seq<BlockId>)
    requires a != [] && b != [] && a' != [] && b' != []
    requires Branches(ix, a[0], b[0], a, b) && Branches(ix, a[0], b[0], a', b')
    requires |a| <= |a'| && |a'| - |a| == |b'| - |b|
    ensures |a| == |a'| && |b| == |b'|
  {
    if |a| < |a'| { MeetBehind(ix, a, b, a', b'); }
  }

  /** An indexed block that both `x` and `y` stand on. */
  ghost predicate Joined(ix: Index, x: BlockId, y: BlockId) {
    exists c :: c in ix && c != x && c != y && Descends(ix, x, c) && Descends(ix, y, c)
  }

  /** The common parent of two branches is indexed exactly when the two heads stand on a common indexed block. */
  lemma ParentIndexed(ix: Index, root: BlockId, base: nat, a: seq<BlockId>, b: seq<BlockId>)
    requires Tree(ix, root, base) && base == root.num + 1 && a != [] && b != [] && Branches(ix, a[0], b[0], a, b)
    ensures ix[b[|b| - 1]].prev in ix <==> Joined(ix, a[0], b[0])
    ensures ix[b[|b| - 1]].prev in ix <==> b[|b| - 1].num > base
  {
    var x, y := a[|a| - 1], b[|b| - 1];
    assert Placed(ix, x, root, base) && Placed(ix, y, root, base);
    RootOutside(ix, root, base);
    PathDescends(ix, root, base, a, 0, |a| - 1);
    PathDescends(ix, root, base, b, 0, |b| - 1);
    if y.num > base {
      var p := ix[y].prev;
      DescendsTransitive(ix, a[0], x, p);
      DescendsTransitive(ix, b[0], y, p);
      assert p.num < a[0].num && p.num < b[0].num;
    } else if c :| c in ix && c != a[0] && c != b[0] && Descends(ix, a[0], c) && Descends(ix, b[0], c) {
      assert Placed(ix, c, root, base);
      LowestShared(ix, root, base, a[0], x, c);
      LowestShared(ix, root, base, b[0], y, c);
      AncestorsOrdered(ix, c, x, y);
      DescendsNum(ix, y, x);
    }
  }

  /** A lowest ancestor of `b` is the lowest ancestor of every proper ancestor of `b`. */
  lemma LowestShared(ix: Index, root: BlockId, base: nat, b: BlockId, low: BlockId, c: BlockId)
    requires Tree(ix, root, base) && low in ix && low.num == base && c in ix && c != b
    requires Descends(ix, b, low) && Descends(ix, b, c)
    ensures Descends(ix, c, low) && b.num > base
  {
    assert Placed(ix, c, root, base);
    DescendsNum(ix, b, c);
    AncestorsOrdered(ix, b, low, c);
  }

  /** One more step up a path. */
  lemma PathExtends(ix: Index, root: BlockId, base: nat, p: seq<BlockId>)
    requires Tree(ix, root, base) && Path(ix, p) && p != [] && p[|p| - 1].num > base
    ensures var up := ix[p[|p| - 1]].prev;
            up in ix && up.num == p[|p| - 1].num - 1 && Path(ix, p + [up])
  {
    assert Placed(ix, p[|p| - 1], root, base);
  }

  /** On two paths that have come down to blocks of equal number, neither of these blocks was passed
      before. */
  lemma Apart(ix: Index, root: BlockId, base: nat, a: seq<BlockId>, b: seq<BlockId>, x: BlockId, y: BlockId)
    requires Tree(ix, root, base) && Path(ix, a + [x]) && Path(ix, b + [y]) && x.num == y.num
    ensures forall i :: 0 <= i < |a| ==> a[i] != y && a[i] != x && a[i].num > x.num
    ensures forall j :: 0 <= j < |b| ==> b[j] != x && b[j] != y && b[j].num > y.num
  {
    PathAbove(ix, root, base, a + [x]);
    PathAbove(ix, root, base, b + [y]);
    forall i | 0 <= i < |a| ensures a[i].num > x.num { assert (a + [x])[i] == a[i]; }
    forall j | 0 <= j < |b| ensures b[j].num > y.num { assert (b + [y])[j] == b[j]; }
  }

  /** Blocks of a path above `i` have higher numbers. */
  lemma PathAbove(ix: Index, root: BlockId, base: nat, p: seq<BlockId>)
    requires Tree(ix, root, base) && Path(ix, p) && p != []
    ensures forall i :: 0 <= i < |p| ==> p[i].num == p[|p| - 1].num + (|p| - 1 - i)
  {
    forall i | 0 <= i < |p| ensures p[i].num == p[|p| - 1].num + (|p| - 1 - i) {
      PathDescends(ix, root, base, p, i, |p| - 1);
    }
  }

  class ForkDatabase {
    var index: Index
    var head: BlockId

    // every block handed to the irreversible-block signal, and the block log its handler writes
    var irreversible: seq<Block>
    var logged: seq<Block>

    // the parent shared by the oldest indexed blocks, the number of those blocks, and the parent
    // of the block the database started with
    ghost var root: BlockId
    ghost var base: nat
    ghost const origin: BlockId

    ghost predicate Valid()
      reads this
    {
      Tree(index, root, base) && BftMonotone(index) && Chained()
    }

    /** The blocks declared irreversible so far form one chain that ends just below the index, and
        the block log ends with the last of them, or still with the block everything started from. */
    ghost predicate Chained()
      reads this
    {
      && Linked(irreversible, origin)
      && root == (if irreversible == [] then origin else irreversible[|irreversible| - 1].id)
      && base == root.num + 1
      && logged != [] && Linked(logged, origin)
      && (if irreversible == [] then |logged| == 1 && SoleRoot(index, base, logged[0].id)
          else SameBlocks(logged, irreversible))
    }

    /** A fork database holding one block, with the block log reset to that block. */
    constructor (genesis: Block)
      requires genesis.num == genesis.id.num == genesis.prev.num + 1 && genesis.dposIrreversible <= genesis.num
      ensures Valid() && index == map[genesis.id := genesis] && head == genesis.id
      ensures irreversible == [] && logged == [genesis] && origin == genesis.prev
    {
      index, head := map[genesis.id := genesis], genesis.id;
      irreversible, logged := [], [genesis];
      root, base, origin := genesis.prev, genesis.num, genesis.prev;
    }

    /** The handler of the irreversible-block signal. Neither of its linkability checks can fail. */
    method OnIrreversible(s: Block)
      requires Chained() && s.id in index && s.num == s.id.num == base && s.prev == root
      modifies this`irreversible, this`logged
      ensures irreversible == old(irreversible) + [s]
      ensures SameBlocks(logged, irreversible) && Linked(irreversible, origin) && Linked(logged, origin)
    {
      var last := logged[|logged| - 1];
      irreversible := irreversible + [s];
      if s.num <= last.num { return; }
      assert s.num - 1 == last.num;
      assert s.prev == last.id;
      logged := logged + [s];
    }

    /** The indexed children of a block, in some order. */
    method ChildrenOf(id: BlockId) returns (cs: seq<BlockId>)
      ensures Distinct(cs) && forall b :: b in cs <==> b in Children(index, id)
    {
      cs := [];
      var rest := Children(index, id);
      while rest != {}
        invariant rest <= Children(index, id)
        invariant Distinct(cs) && forall b :: b in cs <==> b in Children(index, id) && b !in rest
        decreases rest
      {
        var b :| b in rest;
        rest := rest - {b};
        cs := cs + [b];
      }
    }

    /** A best block of the index in the head order. */
    method BestBlock() returns (best: BlockId)
      requires index != map[]
      ensures Best(index, best)
    {
      best :| best in index;
      var rest := index.Keys - {best};
      while rest != {}
        invariant rest <= index.Keys && best in index
        invariant forall b :: b in index && b !in rest ==> !Better(index[b], index[best])
        decreases rest
      {
        var b :| b in rest;
        rest := rest - {b};
        if Better(index[b], index[best]) { best := b; }
      }
    }

    /** A first block of the index in the age order. */
    method OldestBlock() returns (oldest: BlockId)
      requires index != map[]
      ensures Oldest(index, oldest)
    {
      oldest :| oldest in index;
      var rest := index.Keys - {oldest};
      while rest != {}
        invariant rest <= index.Keys && oldest in index
        invariant forall b :: b in index && b !in rest ==> !Older(index[b], index[oldest])
        decreases rest
      {
        var b :| b in rest;
        rest := rest - {b};
        if Older(index[b], index[oldest]) { oldest := b; }
      }
    }

    /** Adds a block, takes the best block as head, and settles the oldest block once the head's dpos
        irreversible number has passed it. `best` is the head right after the insertion and `oldest`
        the block picked for settling: the head survives exactly when it stands on that block. */
    method AddBlockState(b: Block) returns (r: Outcome, ghost best: BlockId, ghost oldest: BlockId)
      requires Valid() && (b.id !in index ==> Extends(index, b))
      modifies this
      ensures r == Duplicate <==> b.id in old(index)
      ensures r == Duplicate ==>
                && index == old(index) && head == old(head) && irreversible == old(irreversible)
                && base == old(base) && Valid()
      ensures r == Done || r == Duplicate || r == NoHeadLeft
      ensures r == NoHeadLeft ==> index == map[]
      ensures r == Done ==> Valid() && Best(index, head)
      ensures r == Done ==> head in index && forall c :: c in index ==>
                && index[c].dposIrreversible <= index[head].dposIrreversible
                && (index[c].dposIrreversible == index[head].dposIrreversible ==> index[c].bftIrreversible <= index[head].bftIrreversible)
                && (index[c].dposIrreversible == index[head].dposIrreversible && index[c].bftIrreversible == index[head].bftIrreversible ==>
                      index[c].num <= index[head].num)
      ensures r == Done && irreversible == old(irreversible) ==>
                index == old(index)[b.id := b] && head == best && base == old(base)
      ensures r != Duplicate ==>
                Best(old(index)[b.id := b], best) && Oldest(old(index)[b.id := b], oldest)
      ensures r != Duplicate ==> (irreversible != old(irreversible) <==> Passed(old(index)[b.id := b], old(base)))
      ensures r != Duplicate ==>
                (irreversible != old(irreversible) <==> old(index)[b.id := b][best].dposIrreversible > old(base))
      ensures r == NoHeadLeft ==> irreversible != old(irreversible)
      ensures r != Duplicate && irreversible != old(irreversible) ==>
                var ix := old(index)[b.id := b];
                && irreversible == old(irreversible) + [ix[oldest]]
                && index == Above(ix, oldest)
                && (r == Done ==> base == old(base) + 1)
                && (best in index <==> Descends(ix, best, oldest))
                && (best in index ==> r == Done)
    {
      if b.id in index {
        best, oldest := head, head;
        return Duplicate, best, oldest;
      }
      ExtendKeepsTree(index, root, base, b);
      assert Placed(index, b.prev, root, base);
      index := index[b.id := b];
      assert b.id in index;
      ghost var ix := index;
      head := BestBlock();
      best := head;
      var lib := index[head].dposIrreversible;
      var o := OldestBlock();
      oldest := o;
      OldestIsLowest(index, root, base, o);
      assert Placed(index, head, root, base) && Placed(index, o, root, base);
      BestPasses(index, head, base);
      r := Done;
      if index[o].num < lib {
        assert Placed(index, o, root, base);
        var ok := Prune(o);
        BestOfRest(ix, best, o, index);
        if !ok { r := NoHeadLeft; }
      }
      if r == Done { BestMeans(index, head); }
    }

    /** Adds a received block on top of its parent. The dpos irreversible number and the schedule are
        those its header state computes. */
    method AddSignedBlock(id: BlockId, prev: BlockId, dpos: nat, producers: set<nat>)
      returns (r: Outcome, ghost state: Block, ghost oldest: BlockId)
      requires Valid() && id.num == prev.num + 1 && dpos <= id.num
      modifies this
      ensures r == Duplicate <==> id in old(index)
      ensures r == Unlinkable <==> id !in old(index) && prev !in old(index)
      ensures r == Duplicate || r == Unlinkable || r == Done || r == NoHeadLeft
      ensures r == NoHeadLeft ==> index == map[]
      ensures r == Duplicate || r == Unlinkable ==>
                index == old(index) && head == old(head) && irreversible == old(irreversible) && base == old(base)
      ensures r != NoHeadLeft ==> Valid()
      ensures r == Done ==> Best(index, head)
      ensures r == Done ==> head in index && forall c :: c in index ==>
                && index[c].dposIrreversible <= index[head].dposIrreversible
                && (index[c].dposIrreversible == index[head].dposIrreversible ==> index[c].bftIrreversible <= index[head].bftIrreversible)
                && (index[c].dposIrreversible == index[head].dposIrreversible && index[c].bftIrreversible == index[head].bftIrreversible ==>
                      index[c].num <= index[head].num)
      ensures r == Done || r == NoHeadLeft ==>
                && prev in old(index) && state == NewState(old(index), id, prev, dpos, producers) && Extends(old(index), state)
                && state == Block(id, prev, id.num, dpos, old(index)[prev].bftIrreversible, false, false, producers, {})
                && var ix := old(index)[id := state];
                && Oldest(ix, oldest) && (irreversible != old(irreversible) <==> Passed(ix, old(base)))
                && if Passed(ix, old(base))
                   then && irreversible == old(irreversible) + [ix[oldest]] && index == Above(ix, oldest)
                        && (r == Done ==> base == old(base) + 1)
                   else r == Done && index == ix && base == old(base)
    {
      state, oldest := Block(id, prev, 0, 0, 0, false, false, {}, {}), id;
      if id in index { return Duplicate, state, oldest; }
      if prev !in index { return Unlinkable, state, oldest; }
      assert Placed(index, prev, root, base);
      var made := NewState(index, id, prev, dpos, producers);
      state := made;
      ghost var best;
      r, best, oldest := AddBlockState(made);
    }

    /** The two branches that lead from two indexed blocks to their common parent. No block is ever
        missing on the way. */
    method FetchBranchFrom(first: BlockId, second: BlockId) returns (a: seq<BlockId>, b: seq<BlockId>)
      requires Valid() && first in index && second in index
      ensures Branches(index, first, second, a, b)
    {
      a, b := [], [];
      var x, y := first, second;
      assert Placed(index, x, root, base) && Placed(index, y, root, base);
      while index[x].num > index[y].num
        invariant x in index && index[x].num == x.num >= base && index[y].num == y.num >= base
        invariant a != [] ==> x.num >= y.num
        invariant Path(index, a + [x]) && (a + [x])[0] == first
        decreases x.num
      {
        PathExtends(index, root, base, a + [x]);
        a := a + [x];
        x := index[x].prev;
        assert Placed(index, x, root, base);
      }
      while index[y].num > index[x].num
        invariant y in index && index[y].num == y.num >= x.num == index[x].num && x.num >= base
        invariant a != [] ==> b == [] && x.num == y.num
        invariant Path(index, b + [y]) && (b + [y])[0] == second
        decreases y.num
      {
        PathExtends(index, root, base, b + [y]);
        b := b + [y];
        y := index[y].prev;
        assert Placed(index, y, root, base);
      }
      Apart(index, root, base, a, b, x, y);
      while index[x].prev != index[y].prev
        invariant x in index && y in index && x.num == y.num
        invariant Path(index, a + [x]) && (a + [x])[0] == first
        invariant Path(index, b + [y]) && (b + [y])[0] == second
        invariant forall i, j :: 0 <= i < |a| && 0 <= j < |b| ==> a[i] != b[j]
        invariant a != [] && b != [] ==> x != y
        decreases x.num
      {
        assert Placed(index, x, root, base) && Placed(index, y, root, base);
        PathExtends(index, root, base, a + [x]);
        PathExtends(index, root, base, b + [y]);
        Apart(index, root, base, a, b, x, y);
        a, b := a + [x], b + [y];
        x, y := index[x].prev, index[y].prev;
      }
      Apart(index, root, base, a, b, x, y);
      a, b := a + [x], b + [y];
    }

    /** Sets the current-chain flag of an indexed block. */
    method MarkInCurrentChain(id: BlockId, flag: bool)
      requires Valid() && id in index
      modifies this`index
      ensures Valid() && index == Flagged(old(index), id, flag)
      ensures index == old(index)[id := old(index)[id].(inCurrentChain := flag)]
    {
      RelabelKeeps(index, Flagged(index, id, flag), root, base);
      if index[id].inCurrentChain == flag {
        assert index[id] == index[id].(inCurrentChain := flag);
        return;
      }
      index := index[id := index[id].(inCurrentChain := flag)];
    }

    /** Marks a block that has been applied as valid. */
    method SetValid(id: BlockId)
      requires Valid() && id in index
      modifies this`index
      ensures Valid() && index == old(index)[id := old(index)[id].(validated := true)]
    {
      RelabelKeeps(index, index[id := index[id].(validated := true)], root, base);
      index := index[id := index[id].(validated := true)];
    }

    /** A confirmation by a producer of the schedule that did not confirm the block before; with more
        than two thirds of the schedule the block becomes bft irreversible. */
    method AddConfirmation(id: BlockId, producer: nat, signed: bool) returns (r: Outcome)
      requires Valid()
      modifies this`index
      ensures Valid()
      ensures r == NotFound <==> id !in old(index)
      ensures r == Rejected <==>
              (id in old(index) &&
               (producer in old(index)[id].confirmations || producer !in old(index)[id].producers || !signed))
      ensures r != Done ==> r == NotFound || r == Rejected
      ensures r != Done ==> index == old(index)
      ensures r == Done ==>
                var b := old(index)[id].(confirmations := old(index)[id].confirmations + {producer});
                var ix := old(index)[id := b];
                index == if b.bftIrreversible < b.num && |b.confirmations| >= |b.producers| * 2 / 3 + 1
                         then BftSpread(ix, id) else ix
    {
      if id !in index { return NotFound; }
      var b := index[id];
      if producer in b.confirmations || producer !in b.producers || !signed { return Rejected; }
      b := b.(confirmations := b.confirmations + {producer});
      RelabelKeeps(index, index[id := b], root, base);
      index := index[id := b];
      assert Placed(index, id, root, base);
      if b.bftIrreversible < b.num && |b.confirmations| >= |b.producers| * 2 / 3 + 1 {
        SetBftIrreversible(id);
      }
      return Done;
    }

    /** Marks a block bft irreversible and spreads its number over everything built on it, level by level. */
    method SetBftIrreversible(id: BlockId)
      requires Valid() && id in index && index[id].bftIrreversible <= id.num
      modifies this`index
      ensures Valid() && index == BftSpread(old(index), id) && index.Keys == old(index).Keys
      ensures forall b :: b in index ==>
                index[b] == if Descends(old(index), b, id) && old(index)[b].bftIrreversible < id.num
                            then old(index)[b].(bftIrreversible := id.num) else old(index)[b]
    {
      ghost var ix := index;
      TreeIsNumbered(ix, root, base);
      var num := index[id].num;
      index := index[id := index[id].(bftIrreversible := num)];
      var queue := [id];
      ghost var open := {id};
      assert BftWalk(ix, id, index, open) by {
        forall b | b in ix ensures WalkedAt(ix, id, index, open, b) { }
      }
      while |queue| > 0
        invariant BftWalk(ix, id, index, open)
        invariant OpenAre(ix, id, queue, open)
        decreases Low(index, num), |queue|
      {
        queue, open := UpdateLevel(queue, num, ix, id, open);
      }
      assert open == {};
      BftWalkDone(ix, root, base, id, index);
      SpreadKeeps(ix, root, base, id);
    }

    /** One level of the walk: raises the low children of the given blocks and returns those children. */
    method UpdateLevel(level: seq<BlockId>, num: nat, ghost ix: Index, ghost id: BlockId, ghost open: set<BlockId>)
      returns (updated: seq<BlockId>, ghost open': set<BlockId>)
      requires Numbered(ix) && num == id.num && BftWalk(ix, id, index, open) && OpenAre(ix, id, level, open)
      modifies this`index
      ensures BftWalk(ix, id, index, open') && OpenAre(ix, id, updated, open')
      ensures if updated == [] then index == old(index) else Low(index, num) < old(Low(index, num))
    {
      updated, open' := [], open;
      var j := 0;
      while j < |level|
        invariant 0 <= j <= |level|
        invariant BftWalk(ix, id, index, open') && OpenAre(ix, id, level[j..] + updated, open')
        invariant if updated == [] then index == old(index) else Low(index, num) < old(Low(index, num))
      {
        ghost var q := level[j];
        assert q in level[j..] + updated;
        var more;
        more, open' := UpdateChildren(level[j], num, ix, id, open');
        OpenNext(ix, id, level, j, updated, more, open');
        updated, j := updated + more, j + 1;
      }
      assert level[j..] + updated == updated;
    }

    /** Raises the low children of one block, and closes that block. */
    method UpdateChildren(q: BlockId, num: nat, ghost ix: Index, ghost id: BlockId, ghost open: set<BlockId>)
      returns (updated: seq<BlockId>, ghost open': set<BlockId>)
      requires Numbered(ix) && num == id.num && BftWalk(ix, id, index, open)
      requires q in ix && Descends(ix, q, id)
      modifies this`index
      ensures BftWalk(ix, id, index, open') && open' == (open + Members(updated)) - {q}
      ensures forall c :: c in updated ==> c in ix && Descends(ix, c, id)
      ensures if updated == [] then index == old(index) else Low(index, num) < old(Low(index, num))
    {
      var cs := ChildrenOf(q);
      BftWalkChildren(ix, id, index, open, q);
      updated, open' := [], open;
      var k := 0;
      while k < |cs|
        invariant 0 <= k <= |cs|
        invariant BftWalk(ix, id, index, open') && open' == open + Members(updated)
        invariant forall c :: c in updated ==> c in ix && Descends(ix, c, id)
        invariant Reached(index, cs[..k], num)
        invariant if updated == [] then index == old(index) else Low(index, num) < old(Low(index, num))
      {
        ghost var before := index;
        var raised := RaiseChild(q, cs[k], num, ix, id, open');
        ReachedNext(before, index, cs, k, num, raised);
        if raised {
          updated, open' := updated + [cs[k]], open' + {cs[k]};
        }
        k := k + 1;
      }
      assert cs[..k] == cs;
      BftClose(ix, id, index, open', q);
      open' := open' - {q};
    }

    /** Raises a child of `q` if it is low. */
    method RaiseChild(ghost q: BlockId, c: BlockId, num: nat, ghost ix: Index, ghost id: BlockId, ghost open: set<BlockId>)
      returns (raised: bool)
      requires Numbered(ix) && num == id.num && BftWalk(ix, id, index, open)
      requires q in ix && Descends(ix, q, id) && c in ix && ix[c].prev == q
      modifies this`index
      ensures c in old(index) && (raised <==> old(index)[c].bftIrreversible < num)
      ensures index == if raised then old(index)[c := old(index)[c].(bftIrreversible := num)] else old(index)
      ensures BftWalk(ix, id, index, if raised then open + {c} else open)
      ensures raised ==> Descends(ix, c, id) && Low(index, num) < old(Low(index, num))
    {
      raised := index[c].bftIrreversible < num;
      if raised {
        BftRaise(ix, id, index, open, q, c);
        index := index[c := index[c].(bftIrreversible := num)];
      }
    }

    /** Declares a block of the lowest number irreversible: it is signalled and erased, and every other
        block of that number is removed with its descendants. */
    method Settle(h: BlockId) returns (ok: bool)
      requires Valid() && h in index && h.num == base
      modifies this
      ensures irreversible == old(irreversible) + [old(index[h])]
      ensures index == Above(old(index), h) && root == h && base == old(base) + 1
      ensures ok ==> Valid()
      ensures ok ==> Best(index, head) || (head == old(head) && index == old(index) - {h})
      ensures !ok ==> index == map[]
    {
      ghost var ix := index;
      assert Placed(ix, h, root, base);
      OnIrreversible(index[h]);
      index := index - {h};
      ok := RemoveLevel(ix, h);
      AboveIsTree(ix, root, base, h);
      BftSubmap(ix, index);
      root, base := h, base + 1;
    }

    /** Settles, from the lowest number upwards, one block of each number below that of `h`, and then `h`
        itself if it is still indexed; otherwise every block is removed. What is left stands on the last
        block settled. Pruning an oldest block settles just that block. */
    method Prune(h: BlockId) returns (ok: bool)
      requires Valid() && h in index
      modifies this
      ensures old(irreversible) < irreversible
      ensures ok ==> Valid() && root == irreversible[|irreversible| - 1].id && root in old(index)
      ensures ok ==> index == map[] || index == Above(old(index), root)
      ensures h.num == old(base) ==>
                && irreversible == old(irreversible) + [old(index[h])]
                && index == Above(old(index), h)
                && (ok ==> root == h && base == h.num + 1)
                && (ok ==> Best(index, head) || (head == old(head) && index == old(index) - {h}))
      ensures !ok ==> index == map[]
      decreases h.num, 1
    {
      assert Placed(index, h, root, base);
      ok := PruneBelow(h);
      if !ok { return; }
      if h in index {
        assert Placed(index, h, root, base);
        if base > old(base) { AboveAbove(old(index), old(root), old(base), root, h); }
        ok := Settle(h);
      } else {
        ok := RemoveAllRoots(h.num);
      }
    }

    method PruneBelow(h: BlockId) returns (ok: bool)
      requires Valid() && h in index && h.num >= base
      modifies this
      ensures ok ==> Valid() && old(base) <= base <= h.num && (index != map[] ==> base == h.num)
      ensures old(irreversible) <= irreversible
      ensures h.num == old(base) ==> ok
      ensures ok && base == old(base) ==>
                irreversible == old(irreversible) && index == old(index) && head == old(head) && root == old(root)
      ensures ok && base > old(base) ==>
                && old(irreversible) < irreversible && root == irreversible[|irreversible| - 1].id && root in old(index)
                && (index == map[] || index == Above(old(index), root))
      ensures !ok ==> old(irreversible) < irreversible && index == map[]
      decreases h.num, 0
    {
      ok := true;
      LowestBelow(index, root, base, h.num);
      while exists b :: b in index && b.num < h.num
        invariant ok
        invariant (exists b :: b in index && b.num < h.num) <==> index != map[] && base < h.num
        invariant Valid() && old(base) <= base <= h.num
        invariant base == old(base) ==>
                    irreversible == old(irreversible) && index == old(index) && head == old(head) && root == old(root)
        invariant base > old(base) ==>
                    && old(irreversible) < irreversible && root == irreversible[|irreversible| - 1].id && root in old(index)
                    && (index == map[] || index == Above(old(index), root))
        decreases h.num - base
      {
        var o := OldestBlock();
        OldestIsLowest(index, root, base, o);
        if base > old(base) { AboveAbove(old(index), old(root), old(base), root, o); }
        ok := Prune(o);
        if !ok { return; }
        LowestBelow(index, root, base, h.num);
      }
    }

    /** Removes every block of the lowest number, and with them every block. */
    method RemoveAllRoots(num: nat) returns (ok: bool)
      requires Valid() && (index != map[] ==> num == base)
      modifies this`index, this`head
      ensures index == map[] && (ok <==> old(index) == map[])
      ensures ok ==> Valid()
    {
      ok := true;
      while exists b :: b in index && b.num == num
        invariant Tree(index, root, base) && BftMonotone(index)
        invariant ok ==> index == old(index)
        invariant !ok ==> old(index) != map[]
        decreases index.Keys
      {
        var b :| b in index && b.num == num;
        WithoutKeepsTree(index, root, base, b);
        TreeIsNumbered(index, root, base);
        ghost var ix := index;
        RemoveSubtree(b);
        BftSubmap(ix, index);
        ok := false;
      }
      if index != map[] { NoRootNoTree(index, root, base); }
    }

    /** Removes every block of the number of `h`, which has just been erased from the tree `ix`. */
    method RemoveLevel(ghost ix: Index, h: BlockId) returns (ok: bool)
      requires Tree(ix, root, base) && h in ix && h.num == base && index == ix - {h}
      modifies this`index, this`head
      ensures index == Above(ix, h)
      ensures ok ==> Best(index, head) || (head == old(head) && index == ix - {h})
      ensures !ok ==> index == map[]
    {
      TreeIsNumbered(ix, root, base);
      ghost var gone: set<BlockId> := {};
      ok := true;
      while ok && exists b :: b in index && b.num == h.num
        invariant Numbered(index)
        invariant forall s :: s in gone ==> s.num == base && s != h
        invariant index == Pruning(ix, h, gone)
        invariant gone == {} ==> ok && head == old(head) && index == ix - {h}
        invariant gone != {} && ok ==> Best(index, head)
        invariant !ok ==> index == map[]
        decreases ok, index.Keys
      {
        var b :| b in index && b.num == h.num;
        PruningStep(ix, root, base, h, gone, b);
        ok := Remove(b);
        gone := gone + {b};
      }
      PruningDone(ix, root, base, h, gone);
    }

    /** Removes a block and everything built on it, then takes the best survivor as head; when
        nothing survives there is no head to take and the call does not return. */
    method Remove(id: BlockId) returns (ok: bool)
      requires Numbered(index)
      modifies this`index, this`head
      ensures index == Without(old(index), id)
      ensures Numbered(index)
      ensures old(Valid()) && id.num >= base ==> Valid()
      ensures ok == (index != map[])
      ensures if ok then Best(index, head) else head == old(head)
      ensures ok ==> head in index && forall c :: c in index ==>
                && index[c].dposIrreversible <= index[head].dposIrreversible
                && (index[c].dposIrreversible == index[head].dposIrreversible ==> index[c].bftIrreversible <= index[head].bftIrreversible)
                && (index[c].dposIrreversible == index[head].dposIrreversible && index[c].bftIrreversible == index[head].bftIrreversible ==>
                      index[c].num <= index[head].num)
    {
      RemoveSubtree(id);
      if old(Valid()) && id.num >= base {
        WithoutKeepsTree(old(index), root, base, id);
        BftSubmap(old(index), index);
      }
      if index == map[] { return false; }
      head := BestBlock();
      BestMeans(index, head);
      return true;
    }

    method RemoveSubtree(id: BlockId)
      requires Numbered(index)
      modifies this`index
      ensures index == Without(old(index), id)
    {
      ghost var ix := index;
      var queue, i := [id], 0;
      while i < |queue|
        invariant i <= |queue| && QueueInv(ix, id, queue, i, Members(queue[..i]))
        invariant index == Erased(ix, queue[..i])
        decreases ix.Keys - Members(queue), |queue| - i
      {
        index := index - {queue[i]};
        var cs := ChildrenOf(queue[i]);
        QueueTurn(ix, id, queue, i, index, cs);
        queue, i := queue + cs, i + 1;
      }
      QueueDone(ix, id, queue);
    }
  }
}
