/** The current-chain flags of the fork database: how they follow the head when a block is popped, applied, removed,
    added or settled. */
module ForkFlags {
  import opened ForkDb
  import opened ForkTree

  // ------------------------------------------------------------------
  // Flags and links
  // ------------------------------------------------------------------

  /** The flag of a block is set exactly when it is an ancestor of the head, or the head. */
  ghost predicate FlagsFollow(ix: Index, head: BlockId) {
    forall b {:trigger FlagFollows(ix, head, b)} :: b in ix ==> FlagFollows(ix, head, b)
  }

  predicate FlagFollows(ix: Index, head: BlockId, b: BlockId)
    requires b in ix
  {
    ix[b].inCurrentChain <==> Descends(ix, head, b)
  }

  /** The same blocks up to their current-chain flags. */
  predicate SameButFlags(ix: Index, ix': Index) {
    && ix'.Keys == ix.Keys
    && forall b :: b in ix ==> ix'[b] == ix[b].(inCurrentChain := ix'[b].inCurrentChain)
  }

  lemma SamePath(ix: Index, ix': Index, p: seq<BlockId>)
    requires SameButFlags(ix, ix') && Path(ix, p)
    ensures Path(ix', p)
  {
  }

  lemma SameFlagged(ix: Index, ix': Index, b: BlockId, flag: bool)
    requires SameButFlags(ix, ix') && b in ix'
    ensures SameButFlags(ix, Flagged(ix', b, flag))
  {
  }

  lemma SameTrans(ix: Index, ix': Index, ix'': Index)
    requires SameButFlags(ix, ix') && SameButFlags(ix', ix'')
    ensures SameButFlags(ix, ix'')
  {
  }

  lemma SameBranches(ix: Index, ix': Index, a: seq<BlockId>, b: seq<BlockId>)
    requires SameButFlags(ix, ix') && a != [] && b != [] && Branches(ix, a[0], b[0], a, b)
    ensures Branches(ix', a[0], b[0], a, b)
  {
    SamePath(ix, ix', a);
    SamePath(ix, ix', b);
  }

  /** Two indexes that agree up to flags and follow the same head are equal. */
  lemma FlagsDetermined(ix: Index, ix': Index, head: BlockId)
    requires SameButFlags(ix, ix') && FlagsFollow(ix, head) && FlagsFollow(ix', head)
    ensures ix == ix'
  {
    forall b | b in ix ensures ix[b] == ix'[b] {
      SameDescent(ix, ix', head, b);
      assert FlagFollows(ix, head, b) && FlagFollows(ix', head, b);
    }
  }

  lemma RelabelFlags(ix: Index, ix': Index, head: BlockId)
    requires SameLinks(ix, ix') && FlagsFollow(ix, head)
    requires forall b :: b in ix ==> ix'[b].inCurrentChain == ix[b].inCurrentChain
    ensures FlagsFollow(ix', head)
  {
    forall b | b in ix' ensures FlagFollows(ix', head, b) {
      assert FlagFollows(ix, head, b);
      SameDescent(ix, ix', head, b);
    }
  }

  /** Clearing the flag of the head and stepping to its parent keeps the flags right. */
  lemma RetreatFlags(ix: Index, root: BlockId, base: nat, head: BlockId)
    requires Tree(ix, root, base) && head in ix && FlagsFollow(ix, head)
    ensures FlagsFollow(Flagged(ix, head, false), ix[head].prev)
  {
    var ix', p := Flagged(ix, head, false), ix[head].prev;
    assert Placed(ix, head, root, base);
    forall b | b in ix' ensures FlagFollows(ix', p, b) {
      assert FlagFollows(ix, head, b);
      SameDescent(ix, ix', p, b);
      if b == head && Descends(ix, p, head) { DescendsNum(ix, p, head); }
    }
  }

  /** Setting the flag of a child of the head and stepping to it keeps the flags right. */
  lemma AdvanceFlags(ix: Index, root: BlockId, base: nat, head: BlockId, b: BlockId)
    requires Tree(ix, root, base) && b in ix && ix[b].prev == head && FlagsFollow(ix, head)
    ensures FlagsFollow(Flagged(ix, b, true), b)
  {
    var ix' := Flagged(ix, b, true);
    assert Placed(ix, b, root, base);
    forall c | c in ix' ensures FlagFollows(ix', b, c) {
      assert FlagFollows(ix, head, c);
      SameDescent(ix, ix', b, c);
    }
  }

  /** Removing a subtree that does not hold the head leaves the flags of the survivors right. */
  lemma WithoutFlags(ix: Index, root: BlockId, base: nat, head: BlockId, bad: BlockId)
    requires Tree(ix, root, base) && bad.num >= base && head in Without(ix, bad) && FlagsFollow(ix, head)
    ensures FlagsFollow(Without(ix, bad), head)
  {
    forall b | b in Without(ix, bad) ensures FlagFollows(Without(ix, bad), head, b) {
      assert FlagFollows(ix, head, b);
      WithoutDescends(ix, root, base, bad, head, b);
    }
  }

  /** No block of the second branch stands on a block of the first that the second does not share. */
  lemma BranchApart(ix: Index, root: BlockId, base: nat, a: seq<BlockId>, b: seq<BlockId>, i: nat, j: nat)
    requires Tree(ix, root, base) && a != [] && b != [] && Branches(ix, a[0], b[0], a, b)
    requires i < |a| && j < |b| && a[i] !in b
    ensures !Descends(ix, b[j], a[i])
  {
    if Descends(ix, b[j], a[i]) {
      DescendsNum(ix, b[j], a[i]);
      PathAbove(ix, root, base, a);
      PathAbove(ix, root, base, b);
      var m := j + (b[j].num - a[i].num);
      PathDescends(ix, root, base, b, j, m);
      AncestorsOrdered(ix, b[j], a[i], b[m]);
      DescendsNum(ix, b[m], a[i]);
    }
  }

  /** A path that keeps clear of a removed subtree is still a path. */
  lemma PathSurvives(ix: Index, bad: BlockId, p: seq<BlockId>)
    requires Path(ix, p) && forall j :: 0 <= j < |p| ==> !Descends(ix, p[j], bad)
    ensures Path(Without(ix, bad), p)
  {
  }

  /** When a block of the first branch is removed, the rest of that branch below it and the whole
      second branch survive. */
  lemma BranchesSurvive(ix: Index, root: BlockId, base: nat, a: seq<BlockId>, b: seq<BlockId>, at: nat)
    requires Tree(ix, root, base) && a != [] && b != [] && Branches(ix, a[0], b[0], a, b)
    requires at < |a| && a[at] !in b
    ensures Path(Without(ix, a[at]), b) && Path(Without(ix, a[at]), a[at + 1..])
    ensures !Descends(ix, b[0], a[at]) && ix[a[at]].prev.num < a[at].num
  {
    var bad := a[at];
    PathAbove(ix, root, base, a);
    assert Placed(ix, bad, root, base);
    forall j | 0 <= j < |b| ensures !Descends(ix, b[j], bad) {
      BranchApart(ix, root, base, a, b, at, j);
    }
    forall j | at < j < |a| ensures !Descends(ix, a[j], bad) {
      if Descends(ix, a[j], bad) { DescendsNum(ix, a[j], bad); }
    }
    PathSurvives(ix, bad, b);
    PathSurvives(ix, bad, a[at + 1..]);
  }

  lemma BestButFlags(ix: Index, ix': Index, id: BlockId)
    requires SameButFlags(ix, ix') && Best(ix, id)
    ensures Best(ix', id)
  {
  }

  lemma WithoutSame(ix: Index, ix': Index, bad: BlockId)
    requires SameButFlags(ix, ix')
    ensures SameButFlags(Without(ix, bad), Without(ix', bad))
  {
    forall b | b in ix ensures Descends(ix', b, bad) <==> Descends(ix, b, bad) {
      SameDescent(ix, ix', b, bad);
    }
  }

  /** Once the flags follow the old head again, the index is the old one without the removed subtree. */
  lemma RestoredIndex(ix0: Index, ix: Index, root: BlockId, base: nat, bad: BlockId, head: BlockId, last: Index)
    requires Tree(ix, root, base) && SameButFlags(ix0, ix) && FlagsFollow(ix0, head) && bad.num >= base
    requires head in ix && !Descends(ix, head, bad)
    requires SameButFlags(Without(ix, bad), last) && FlagsFollow(last, head)
    ensures last == Without(ix0, bad)
  {
    forall b | b in ix0 ensures Placed(ix0, b, root, base) { assert Placed(ix, b, root, base); }
    SameDescent(ix0, ix, head, bad);
    WithoutFlags(ix0, root, base, head, bad);
    WithoutSame(ix0, ix, bad);
    FlagsDetermined(Without(ix0, bad), last, head);
  }

  lemma RestoredBranch(ix0: Index, ix: Index, root: BlockId, base: nat, a: seq<BlockId>, b: seq<BlockId>, at: nat,
                       cut: Index, last: Index, best: BlockId)
    requires Tree(ix, root, base) && SameButFlags(ix0, ix) && a != [] && b != [] && Branches(ix, a[0], b[0], a, b)
    requires FlagsFollow(ix0, b[0]) && at < |a| && a[at] !in b
    requires SameButFlags(Without(ix, a[at]), cut) && SameButFlags(cut, last) && FlagsFollow(last, b[0]) && Best(cut, best)
    ensures last == Without(ix0, a[at]) && Best(last, best)
  {
    BranchesSurvive(ix, root, base, a, b, at);
    assert Placed(ix, a[at], root, base);
    RestoredIndex(ix0, ix, root, base, a[at], b[0], last);
    BestButFlags(cut, last, best);
  }

  // ------------------------------------------------------------------
  // A new block, and a settled one
  // ------------------------------------------------------------------

  /** Nothing indexed stands on a block that has just been added. */
  lemma {:induction false} NewBlockIsLeaf(ix: Index, root: BlockId, base: nat, b: Block, c: BlockId, a: BlockId)
    requires Tree(ix, root, base) && b.id !in ix && b.id.num > base && c in ix
    ensures Descends(ix[b.id := b], c, a) <==> Descends(ix, c, a)
    ensures !Descends(ix[b.id := b], c, b.id)
    decreases c.num
  {
    assert Placed(ix, c, root, base);
    var p := ix[c].prev;
    if c.num > base {
      NewBlockIsLeaf(ix, root, base, b, p, a);
    } else {
      RootOutside(ix, root, base);
      if Descends(ix[b.id := b], p, b.id) { DescendsNum(ix[b.id := b], p, b.id); }
    }
  }

  /** Flags that follow a block below the tree are all unset. */
  lemma FlagsOutside(ix: Index, root: BlockId, base: nat, head: BlockId)
    requires Tree(ix, root, base) && head.num < base
    ensures head !in ix && (FlagsFollow(ix, head) <==> forall b :: b in ix ==> !ix[b].inCurrentChain)
  {
    forall b | b in ix ensures b.num > head.num && !Descends(ix, head, b) {
      assert Placed(ix, b, root, base);
      if Descends(ix, head, b) { DescendsNum(ix, head, b); }
    }
    if FlagsFollow(ix, head) {
      forall b | b in ix ensures !ix[b].inCurrentChain { assert FlagFollows(ix, head, b); }
    }
  }

  lemma AddedFlags(ix: Index, root: BlockId, base: nat, b: Block, head: BlockId)
    requires Tree(ix, root, base) && b.id !in ix && b.id.num > base && !b.inCurrentChain
    requires head in ix && FlagsFollow(ix, head)
    ensures FlagsFollow(ix[b.id := b], head)
  {
    var ix' := ix[b.id := b];
    forall c | c in ix' ensures FlagFollows(ix', head, c) {
      NewBlockIsLeaf(ix, root, base, b, head, c);
      if c != b.id { assert FlagFollows(ix, head, c); }
    }
  }

  /** The oldest block is always one the head stands on: blocks of the current chain come first. */
  lemma OldestIsAncestor(ix: Index, root: BlockId, base: nat, head: BlockId, oldest: BlockId)
    requires Tree(ix, root, base) && head in ix && FlagsFollow(ix, head) && Oldest(ix, oldest)
    ensures Descends(ix, head, oldest)
  {
    OldestIsLowest(ix, root, base, oldest);
    assert Placed(ix, head, root, base) && Placed(ix, oldest, root, base);
    var a := AncestorAt(ix, root, base, head, base);
    assert Placed(ix, a, root, base);
    assert FlagFollows(ix, head, a) && FlagFollows(ix, head, oldest);
  }

  lemma SettledFlags(ix: Index, root: BlockId, base: nat, head: BlockId, oldest: BlockId)
    requires Tree(ix, root, base) && oldest in ix && oldest.num == base
    requires head in Above(ix, oldest) && FlagsFollow(ix, head)
    ensures FlagsFollow(Above(ix, oldest), head)
  {
    forall b | b in Above(ix, oldest) ensures FlagFollows(Above(ix, oldest), head, b) {
      assert FlagFollows(ix, head, b);
      AboveDescends(ix, root, base, oldest, head, b);
    }
  }

  /** A block on the current chain, and valid. */
  function Accepted(ix: Index, b: BlockId): Index
    requires b in ix
  {
    ix[b := ix[b].(inCurrentChain := true, validated := true)]
  }

  lemma AcceptedFlags(ix: Index, root: BlockId, base: nat, head: BlockId, b: BlockId)
    requires Tree(ix, root, base) && b in ix && ix[b].prev == head && FlagsFollow(ix, head)
    ensures var flagged := Flagged(ix, b, true); flagged[b := flagged[b].(validated := true)] == Accepted(ix, b)
    ensures FlagsFollow(Accepted(ix, b), b)
  {
    assert Placed(ix, b, root, base);
    AdvanceFlags(ix, root, base, head, b);
    RelabelFlags(Flagged(ix, b, true), Accepted(ix, b), b);
  }
}
