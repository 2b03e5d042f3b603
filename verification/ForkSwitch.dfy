/** The controller of the chain follows the fork database from branch to branch. */
module ForkSwitch {
  import opened ChainRules
  import opened ForkDb
  import opened ForkFlags
  import opened ForkTree
  import opened Options

  /** The last block of a path is the only one that may have the lowest number. */
  lemma LastIsLowest(ix: Index, root: BlockId, base: nat, b: seq<BlockId>)
    requires Tree(ix, root, base) && Path(ix, b) && b != []
    ensures forall i :: 0 <= i < |b| - 1 ==> b[i].num > base
    ensures forall i :: 0 <= i < |b| ==> b[i].num >= base
  {
    PathAbove(ix, root, base, b);
    assert Placed(ix, b[|b| - 1], root, base);
  }

  /** The part of a path below a removed block survives. */
  lemma RestSurvives(ix: Index, root: BlockId, base: nat, a: seq<BlockId>, at: nat)
    requires Tree(ix, root, base) && Path(ix, a) && at < |a|
    ensures Path(Without(ix, a[at]), a[at + 1..]) && ix[a[at]].prev.num < a[at].num
  {
    assert Placed(ix, a[at], root, base);
    forall j | at < j < |a| ensures !Descends(ix, a[j], a[at]) {
      PathDescends(ix, root, base, a, at, j);
      if Descends(ix, a[j], a[at]) { DescendsNum(ix, a[j], a[at]); }
    }
    PathSurvives(ix, a[at], a[at + 1..]);
  }

  /** A block shared by two branches is the last of both; removing it cuts the second branch, removing any other block
      of the first branch does not. */
  lemma SharedIsLost(ix: Index, root: BlockId, base: nat, a: seq<BlockId>, b: seq<BlockId>, at: nat)
    requires Tree(ix, root, base) && a != [] && b != [] && Branches(ix, a[0], b[0], a, b) && at < |a|
    ensures a[at] in b <==> b[|b| - 1] !in Without(ix, a[at])
    ensures a[at] !in b ==> Path(Without(ix, a[at]), b)
  {
    if a[at] !in b {
      BranchesSurvive(ix, root, base, a, b, at);
    }
  }

  /** The second branch after a block of the first was removed. */
  lemma BranchCut(ix0: Index, ix: Index, root: BlockId, base: nat, a: seq<BlockId>, b: seq<BlockId>, at: nat, cut: Index)
    requires Tree(ix, root, base) && SameButFlags(ix0, ix) && a != [] && b != [] && Branches(ix, a[0], b[0], a, b) && at < |a|
    requires SameButFlags(Without(ix, a[at]), cut)
    ensures SameButFlags(Without(ix0, a[at]), cut)
    ensures b[|b| - 1] in cut <==> a[at] !in b
    ensures a[at] !in b ==> Path(cut, b) && cut[b[|b| - 1]].prev == ix[a[|a| - 1]].prev
  {
    WithoutSame(ix0, ix, a[at]);
    SharedIsLost(ix, root, base, a, b, at);
    if a[at] !in b { SamePath(Without(ix, a[at]), cut, b); }
  }

  /** The index after a block was added, and the oldest block settled if some block has passed it. */
  ghost function Received(ix: Index, base: nat, oldest: BlockId): Index {
    if Passed(ix, base) then Above(ix, oldest) else ix
  }

  /** The lowest number after that. */
  ghost function Lowest(ix: Index, base: nat): nat {
    if Passed(ix, base) then base + 1 else base
  }

  /** The sessions kept after that. */
  ghost function Kept<S, L>(ix: Index, base: nat, head: BlockId, undo: seq<Frame<S, L>>): seq<Frame<S, L>> {
    if Passed(ix, base) then Newest(undo, head.num - base) else undo
  }

  /** Settling the oldest block leaves the head indexed exactly when it is not itself the lowest block. */
  lemma HeadSettled(ix: Index, root: BlockId, base: nat, head: BlockId, oldest: BlockId)
    requires Tree(ix, root, base) && base == root.num + 1 && head in ix && FlagsFollow(ix, head) && Oldest(ix, oldest)
    ensures oldest.num == base == ix[oldest].num && ix[oldest].id == oldest
    ensures head in Above(ix, oldest) <==> head.num > base
    ensures head.num == base ==> head == oldest
    ensures FlagsFollow(Above(ix, oldest), head)
  {
    OldestIsLowest(ix, root, base, oldest);
    OldestIsAncestor(ix, root, base, head, oldest);
    assert Placed(ix, head, root, base) && Placed(ix, oldest, root, base);
    DescendsNum(ix, head, oldest);
    if head in Above(ix, oldest) {
      SettledFlags(ix, root, base, head, oldest);
    } else {
      forall b | b in Above(ix, oldest) ensures FlagFollows(Above(ix, oldest), head, b) {
        assert FlagFollows(ix, head, b);
        DescendsNum(ix, b, head);
        if Descends(ix, head, b) { DescendsNum(ix, head, b); }
      }
    }
  }

  /** The flags, the head and the undo stack after a block was received. */
  lemma ReceivedFlags<S, L>(ix: Index, root: BlockId, base: nat, b: Block, oldest: BlockId, head: BlockId,
                            undo: seq<Frame<S, L>>)
    requires Tree(ix, root, base) && base == root.num + 1 && BftMonotone(ix) && Extends(ix, b) && b.id !in ix && !b.inCurrentChain
    requires (head in ix || head.num < base) && FlagsFollow(ix, head) && Oldest(ix[b.id := b], oldest) && head.num - base <= |undo|
    ensures var ix' := ix[b.id := b];
            && FlagsFollow(Received(ix', base, oldest), head)
            && (head !in Received(ix', base, oldest) <==> head !in ix || (Passed(ix', base) && head.num == base))
            && (head in Received(ix', base, oldest) || head.num < Lowest(ix', base))
            && head.num - Lowest(ix', base) <= |Kept(ix', base, head, undo)|
  {
    assert Placed(ix, b.prev, root, base);
    ExtendKeepsTree(ix, root, base, b);
    if head in ix {
      assert Placed(ix, head, root, base);
      AddedFlags(ix, root, base, b, head);
      HeadSettled(ix[b.id := b], root, base, head, oldest);
    } else {
      OldestIsLowest(ix[b.id := b], root, base, oldest);
      AboveIsTree(ix[b.id := b], root, base, oldest);
      FlagsOutside(ix, root, base, head);
      FlagsOutside(ix[b.id := b], root, base, head);
      FlagsOutside(Above(ix[b.id := b], oldest), oldest, base + 1, head);
    }
  }

  /** The history of the chain after a block was received. */
  lemma ReceivedHistory<S, L>(rules: Rules<S, L>, ix: Index, root: BlockId, base: nat, b: Block, oldest: BlockId,
                              head: BlockId, db: S, undo: seq<Frame<S, L>>)
    requires Tree(ix, root, base) && BftMonotone(ix) && Extends(ix, b) && b.id !in ix
    requires Oldest(ix[b.id := b], oldest) && head.num - base <= |undo|
    requires History(rules, ix, base, head, db, undo)
    ensures var ix' := ix[b.id := b];
            head in Received(ix', base, oldest) ==>
              History(rules, Received(ix', base, oldest), Lowest(ix', base), head, db, Kept(ix', base, head, undo))
  {
    assert Placed(ix, b.prev, root, base) && Placed(ix, head, root, base);
    var ix' := ix[b.id := b];
    ExtendKeepsTree(ix, root, base, b);
    OldestIsLowest(ix', root, base, oldest);
    HistoryElsewhere(rules, ix, ix', base, head, db, undo);
    if Passed(ix', base) && head in Above(ix', oldest) {
      DescendsNum(ix', head, oldest);
      HistoryAbove(rules, ix', root, base, oldest, head, db, undo, |undo| - (head.num - base));
    }
  }

  /** What receiving a block makes of the index `ix` and the undo stack: `at` and `stack`. Nothing, if the block is known
      or its parent is not. Otherwise the block is added, and if then some block has passed the lowest number, the oldest
      block is settled and its session forgotten. A head that was indexed leaves the index exactly when it is that block. */
  ghost predicate Receives<S, L>(ix: Index, base: nat, head: BlockId, undo: seq<Frame<S, L>>,
                                 id: BlockId, prev: BlockId, dpos: nat, producers: set<nat>,
                                 r: Outcome, oldest: BlockId, at: Index, stack: seq<Frame<S, L>>) {
    && (r == Duplicate <==> id in ix)
    && (r == Unlinkable <==> id !in ix && prev !in ix)
    && (id in ix || prev !in ix ==> at == ix && stack == undo)
    && (id !in ix && prev in ix ==>
          var added := ix[id := NewState(ix, id, prev, dpos, producers)];
          && Oldest(added, oldest) && at == (if Passed(added, base) then Above(added, oldest) else added)
          && stack == (if Passed(added, base) then Newest(undo, head.num - base) else undo)
          && (r == NoHeadLeft <==> at == map[]) && (r == Done <==> at != map[])
          && (head !in at <==> head !in ix || (Passed(added, base) && head.num == base)))
  }

  /** Block `id` is a new child of the best block, and carries at least its dpos number. */
  ghost predicate GrowsBest(ix: Index, head: BlockId, id: BlockId, prev: BlockId, dpos: nat) {
    id !in ix && prev == head && Best(ix, head) && dpos >= ix[head].dposIrreversible
  }

  /** A received child of the best block becomes the new head, if it carries at least the dpos number of its parent. */
  lemma ChildLeads<S, L>(ix: Index, root: BlockId, base: nat, head: BlockId, undo: seq<Frame<S, L>>,
                         id: BlockId, dpos: nat, producers: set<nat>,
                         r: Outcome, oldest: BlockId, at: Index, stack: seq<Frame<S, L>>, newHead: BlockId)
    requires Tree(ix, root, base) && base == root.num + 1 && BftMonotone(ix) && FlagsFollow(ix, head)
    requires GrowsBest(ix, head, id, head, dpos) && id.num == head.num + 1 && dpos <= id.num
    requires Receives(ix, base, head, undo, id, head, dpos, producers, r, oldest, at, stack)
    requires r == Done ==> Best(at, newHead)
    ensures r == Done && newHead == id && at[id].prev == head
  {
    var b := NewState(ix, id, head, dpos, producers);
    var added := ix[id := b];
    assert Placed(ix, head, root, base);
    ExtendKeepsTree(ix, root, base, b);
    AddedFlags(ix, root, base, b, head);
    OldestIsAncestor(added, root, base, head, oldest);
    DescendsNum(added, head, oldest);
    assert id in at && at[id] == b;
    if newHead != id {
      assert newHead in ix && at[newHead] == ix[newHead];
      ChildIsBetter(ix, head, b, newHead);
    }
  }

  /** How following `newHead` from `head` ends. */
  ghost predicate Decided<S, L>(rules: Rules<S, L>, ix: Index, head: BlockId, db: S, undo: seq<Frame<S, L>>,
                                newHead: BlockId,
                                st: Status, e: Ending, a: seq<BlockId>, b: seq<BlockId>)
    requires newHead in ix
  {
    if newHead == head then e == Unchanged
    else if ix[newHead].prev == head then
      e == if rules.apply(db, newHead, st).Made? then Extended else if head in ix then Restored else Overtaken
    else if head !in ix then e == Overtaken
    else
      && Branches(ix, newHead, head, a, b)
      && if !Joined(ix, newHead, head) then e == PoppedTooFar
         else |b| <= |undo| && e == Verdict(rules, ix, BackThrough(rules, db, Newest(undo, |b|)), a, b)
  }

  /** What following `newHead` from `head` leaves of index, heads, database and undo stack. Nothing is touched; or the new
      head is applied on top of the old one; or the branch `a` replaces the branch `b`; or the block `bad` is removed from
      the index, with everything built on it, and the head is the old one again; or popping `b` stopped at its last
      block; or `bad` is removed and applying `b` again has stopped on the way. */
  ghost predicate Followed<S, L>(rules: Rules<S, L>, ix: Index, head: BlockId, db: S, undo: seq<Frame<S, L>>,
                                 newHead: BlockId,
                                 st: Status, e: Ending, a: seq<BlockId>, b: seq<BlockId>, bad: BlockId,
                                 ix': Index, best': BlockId, head': BlockId, db': S, undo': seq<Frame<S, L>>)
    requires newHead in ix
  {
    var child, r := ix[newHead].prev == head, rules.apply(db, newHead, st);
    match e
    case Unchanged => head' == best' == newHead && db' == db && undo' == undo && ix' == ix
    case Extended =>
      && head' == best' == newHead && db' == r.after && undo' == undo + [Frame(db, r.layer)] && ix' == Accepted(ix, newHead)
    case Switched =>
      && head' == best' == newHead && SameButFlags(ix, ix') && FlagsFollow(ix', head')
      && SwitchedOver(rules, ix, a, b, db, undo, db', undo')
    case Restored =>
      && head' == head && ix' == Without(ix, bad) && Best(ix', best')
      && if child then bad == newHead && db' == Undone(rules, r) && undo' == undo
         else bad in a && SwitchedBack(rules, ix, a, b, db, undo, db', undo')
    case PoppedTooFar =>
      && b != [] && b[|b| - 1] in ix && head' == b[|b| - 1] && best' == newHead
      && SameButFlags(ix, ix') && FlagsFollow(ix', ix[b[|b| - 1]].prev) && Popped(rules, |b| - 1, db, undo, db', undo')
    case Stranded =>
      && bad in a && SameButFlags(Without(ix, bad), ix') && Best(ix', best') && (head' in ix' ==> FlagsFollow(ix', head'))
      && SwitchedNowhere(rules, ix, a, b, db, undo, head', db', undo')
    case Overtaken =>
      && head' == head && undo' == undo
      && if child then db' == Undone(rules, r) && ix' == Without(ix, newHead) && (ix' != map[] ==> Best(ix', best'))
         else db' == db && ix' == ix && best' == newHead
  }

  /** However following a block ends, the revision moves as the number of the head does. */
  lemma FollowedCounts<S(!new), L(!new)>(rules: Rules<S, L>, ix: Index, root: BlockId, base: nat,
                                         head: BlockId, db: S, undo: seq<Frame<S, L>>, newHead: BlockId,
                                         st: Status, e: Ending, a: seq<BlockId>, b: seq<BlockId>, bad: BlockId,
                                         ix': Index, best': BlockId, head': BlockId, db': S, undo': seq<Frame<S, L>>)
    requires Tree(ix, root, base) && newHead in ix && Counts(rules)
    requires Decided(rules, ix, head, db, undo, newHead, st, e, a, b)
    requires Followed(rules, ix, head, db, undo, newHead, st, e, a, b, bad, ix', best', head', db', undo')
    ensures rules.revision(db') - head'.num == rules.revision(db) - head.num
  {
    assert Placed(ix, newHead, root, base);
    if newHead != head && ix[newHead].prev != head && head in ix {
      BranchNumbers(ix, root, base, a, b);
      match e
      case PoppedTooFar => BackCounts(rules, db, Newest(undo, |b| - 1));
      case Switched => SwitchCounts(rules, ix, a, b, db, undo, db', undo');
      case Restored => SwitchBackCounts(rules, ix, a, b, db, undo, db', undo');
      case Stranded => NowhereCounts(rules, ix, root, base, a, b, db, undo, head', db', undo');
    }
  }

  lemma BranchNumbers(ix: Index, root: BlockId, base: nat, a: seq<BlockId>, b: seq<BlockId>)
    requires Tree(ix, root, base) && a != [] && b != [] && Branches(ix, a[0], b[0], a, b)
    ensures a[0].num == ix[b[|b| - 1]].prev.num + |a| && b[0].num == ix[b[|b| - 1]].prev.num + |b|
    ensures b[|b| - 1].num == ix[b[|b| - 1]].prev.num + 1
  {
    PathAbove(ix, root, base, a);
    PathAbove(ix, root, base, b);
    assert Placed(ix, b[|b| - 1], root, base);
  }

  lemma SpotNumber(ix: Index, root: BlockId, base: nat, b: seq<BlockId>, i: nat)
    requires Tree(ix, root, base) && b != [] && Path(ix, b) && i <= |b|
    ensures Spot(ix, b, i).num == ix[b[|b| - 1]].prev.num + (|b| - i)
  {
    PathAbove(ix, root, base, b);
    assert Placed(ix, b[|b| - 1], root, base);
  }

  lemma SwitchCounts<S(!new), L(!new)>(rules: Rules<S, L>, ix: Index, a: seq<BlockId>, b: seq<BlockId>,
                                       db0: S, undo0: seq<Frame<S, L>>, db: S, undo: seq<Frame<S, L>>)
    requires Counts(rules) && SwitchedOver(rules, ix, a, b, db0, undo0, db, undo)
    ensures rules.revision(db) == rules.revision(db0) - |b| + |a|
  {
    BackCounts(rules, db0, Newest(undo0, |b|));
    ApplyCounts(rules, ix, BackThrough(rules, db0, Newest(undo0, |b|)), a, 0);
  }

  lemma SwitchBackCounts<S(!new), L(!new)>(rules: Rules<S, L>, ix: Index, a: seq<BlockId>, b: seq<BlockId>,
                                           db0: S, undo0: seq<Frame<S, L>>, db: S, undo: seq<Frame<S, L>>)
    requires Counts(rules) && SwitchedBack(rules, ix, a, b, db0, undo0, db, undo)
    ensures rules.revision(db) == rules.revision(db0)
  {
    var s := BackThrough(rules, db0, Newest(undo0, |b|));
    var at := FailPos(rules, ix, s, a, 0);
    BackCounts(rules, db0, Newest(undo0, |b|));
    DroppedCounts(rules, ix, s, a, at);
    ApplyCounts(rules, AllValid(ix), Dropped(rules, ix, s, a, at), b, 0);
  }

  lemma NowhereCounts<S(!new), L(!new)>(rules: Rules<S, L>, ix: Index, root: BlockId, base: nat, a: seq<BlockId>,
                                        b: seq<BlockId>,
                                        db0: S, undo0: seq<Frame<S, L>>, head: BlockId, db: S, undo: seq<Frame<S, L>>)
    requires Counts(rules) && Tree(ix, root, base) && SwitchedNowhere(rules, ix, a, b, db0, undo0, head, db, undo)
    ensures rules.revision(db) - head.num == rules.revision(db0) - |b| - ix[b[|b| - 1]].prev.num
  {
    var s := BackThrough(rules, db0, Newest(undo0, |b|));
    var at := FailPos(rules, ix, s, a, 0);
    var t := Dropped(rules, ix, s, a, at);
    BackCounts(rules, db0, Newest(undo0, |b|));
    DroppedCounts(rules, ix, s, a, at);
    assert Placed(ix, b[|b| - 1], root, base);
    if a[at] !in b {
      var f := FailPos(rules, AllValid(ix), t, b, 0);
      FailureCounts(rules, AllValid(ix), b, f, t, undo0[..|undo0| - |b|], db, undo);
      SpotNumber(ix, root, base, b, f + 1);
    }
  }

  /** Nothing is lost if the block `newHead` is followed from `head`: no block ever loses anything, or at least a child of
      the head leaves nothing behind when it fails, and a switch is clean. */
  ghost predicate FollowsCleanly<S(!new), L>(rules: Rules<S, L>, ix: Index, head: BlockId, db: S, undo: seq<Frame<S, L>>,
                                             newHead: BlockId, st: Status)
    requires newHead in ix
  {
    || LosesNothing(rules)
    || newHead == head
    || (if ix[newHead].prev == head then rules.apply(db, newHead, st).Failed? ==> ExactAt(rules, db, newHead, st)
        else forall a, b :: Branches(ix, newHead, head, a, b) ==> Clean(rules, ix, db, undo, a, b))
  }

  lemma FollowsIsClean<S(!new), L(!new)>(rules: Rules<S, L>, ix: Index, root: BlockId, base: nat, db: S,
                                         undo: seq<Frame<S, L>>,
                                         a: seq<BlockId>, b: seq<BlockId>, st: Status)
    requires Tree(ix, root, base) && a != [] && b != [] && Branches(ix, a[0], b[0], a, b) && b[|b| - 1].num > base
    requires a[0] != b[0] && ix[a[0]].prev != b[0]
    requires Regular(rules) && History(rules, ix, base, b[0], db, undo)
    requires FollowsCleanly(rules, ix, b[0], db, undo, a[0], st)
    ensures Clean(rules, ix, db, undo, a, b)
  {
    if LosesNothing(rules) {
      LosesNothingIsClean(rules, ix, root, base, db, undo, a, b);
    }
  }

  /** What leaving branch `b` for branch `a` leaves, told from the common parent, where the database holds `s` and the undo
      stack is `rest`. */
  ghost predicate Left<S, L>(rules: Rules<S, L>, ix: Index, a: seq<BlockId>, b: seq<BlockId>, s: S, rest: seq<Frame<S, L>>,
                             e: Ending, bad: BlockId, ix': Index, best': BlockId, head': BlockId, db': S, undo': seq<Frame<S, L>>)
    requires a != [] && b != [] && Path(ix, b)
  {
    && e == Verdict(rules, ix, s, a, b)
    && (e == Switched ==> && head' == best' == a[0] && SameButFlags(ix, ix') && FlagsFollow(ix', head')
                          && Grown(rules, ix, a, 0, s, rest, db', undo'))
    && (e != Switched ==> ApplyAll(rules, ix, s, a, 0).None? && bad == a[FailPos(rules, ix, s, a, 0)])
    && (e == Restored ==>
          && head' == b[0] && ix' == Without(ix, bad) && Best(ix', best')
          && Grown(rules, AllValid(ix), b, 0, Dropped(rules, ix, s, a, FailPos(rules, ix, s, a, 0)), rest, db', undo'))
    && (e == Stranded ==>
          && SameButFlags(Without(ix, bad), ix') && Best(ix', best') && (head' in ix' ==> FlagsFollow(ix', head'))
          && Lost(rules, ix, a, FailPos(rules, ix, s, a, 0), b, s, rest, head', db', undo'))
  }

  lemma LeftBack<S, L>(rules: Rules<S, L>, ix: Index, a: seq<BlockId>, at: nat, b: seq<BlockId>, s: S,
                       rest: seq<Frame<S, L>>,
                       e: Ending, ix': Index, best': BlockId, head': BlockId, db': S, undo': seq<Frame<S, L>>)
    requires b != [] && Path(ix, b) && at < |a| && ApplyAll(rules, ix, s, a, at).None? && ApplyAll(rules, ix, s, a, at + 1).Some?
    requires var t := Dropped(rules, ix, s, a, at);
             if a[at] !in b && ApplyAll(rules, AllValid(ix), t, b, 0).Some?
             then && e == Restored && head' == b[0] && ix' == Without(ix, a[at]) && Best(ix', best')
                  && Grown(rules, AllValid(ix), b, 0, t, rest, db', undo')
             else && e == Stranded && SameButFlags(Without(ix, a[at]), ix') && Best(ix', best') && (head' in ix' ==> FlagsFollow(ix', head'))
                  && Lost(rules, ix, a, at, b, s, rest, head', db', undo')
    ensures Left(rules, ix, a, b, s, rest, e, a[at], ix', best', head', db', undo')
  {
    FailsFrom(rules, ix, s, a, at, 0);
  }

  /** The same, told from where the switch began. */
  lemma LeftFollows<S, L>(rules: Rules<S, L>, ix: Index, a: seq<BlockId>, b: seq<BlockId>, db: S, undo: seq<Frame<S, L>>,
                          s: S, rest: seq<Frame<S, L>>, st: Status, e: Ending, bad: BlockId,
                          ix': Index, best': BlockId, head': BlockId, db': S, undo': seq<Frame<S, L>>)
    requires a != [] && b != [] && Branches(ix, a[0], b[0], a, b) && a[0] != b[0] && ix[a[0]].prev != b[0] && Joined(ix, a[0], b[0])
    requires Popped(rules, |b|, db, undo, s, rest) && Left(rules, ix, a, b, s, rest, e, bad, ix', best', head', db', undo')
    ensures Decided(rules, ix, b[0], db, undo, a[0], st, e, a, b)
    ensures Followed(rules, ix, b[0], db, undo, a[0], st, e, a, b, bad, ix', best', head', db', undo')
  {
  }

  /** Popping that stopped at the last block, told from where it began. */
  lemma TooFarFollows<S, L>(rules: Rules<S, L>, ix: Index, a: seq<BlockId>, b: seq<BlockId>, db: S, undo: seq<Frame<S, L>>,
                            st: Status, bad: BlockId, ix': Index, db': S, undo': seq<Frame<S, L>>)
    requires a != [] && b != [] && Branches(ix, a[0], b[0], a, b) && a[0] != b[0] && ix[a[0]].prev != b[0] && !Joined(ix, a[0], b[0])
    requires SameButFlags(ix, ix') && FlagsFollow(ix', ix[b[|b| - 1]].prev) && Popped(rules, |b| - 1, db, undo, db', undo')
    ensures Decided(rules, ix, b[0], db, undo, a[0], st, PoppedTooFar, a, b)
    ensures Followed(rules, ix, b[0], db, undo, a[0], st, PoppedTooFar, a, b, bad, ix', a[0], b[|b| - 1], db', undo')
  {
  }

  /** A child of the head, applied or not. */
  lemma ChildFollows<S, L>(rules: Rules<S, L>, ix: Index, head: BlockId, db: S, undo: seq<Frame<S, L>>,
                           newHead: BlockId, st: Status,
                           e: Ending, ix': Index, best': BlockId, head': BlockId, db': S, undo': seq<Frame<S, L>>)
    requires newHead in ix && newHead != head && ix[newHead].prev == head
    requires var r := rules.apply(db, newHead, st);
             if r.Made? then && e == Extended && head' == best' == newHead && ix' == Accepted(ix, newHead)
                             && db' == r.after && undo' == undo + [Frame(db, r.layer)]
             else && e == (if head in ix then Restored else Overtaken) && head' == head && ix' == Without(ix, newHead)
                  && db' == Undone(rules, r) && undo' == undo
    requires e == Restored ==> head in ix'
    requires e != Extended && ix' != map[] ==> Best(ix', best')
    ensures Decided(rules, ix, head, db, undo, newHead, st, e, [], [])
    ensures Followed(rules, ix, head, db, undo, newHead, st, e, [], [], newHead, ix', best', head', db', undo')
  {
  }

  /** What a clean switch leaves: the history of the new branch, or that of the old one, applied again. */
  lemma CleanSwitch<S(!new), L(!new)>(rules: Rules<S, L>, ix: Index, root: BlockId, base: nat, a: seq<BlockId>,
                                      b: seq<BlockId>,
                                      db: S, undo: seq<Frame<S, L>>, st: Status, e: Ending, bad: BlockId,
                                      ix': Index, best': BlockId, head': BlockId, db': S, undo': seq<Frame<S, L>>)
    requires Tree(ix, root, base) && a != [] && b != [] && Branches(ix, a[0], b[0], a, b) && b[|b| - 1].num > base
    requires a[0] != b[0] && ix[a[0]].prev != b[0] && Joined(ix, a[0], b[0])
    requires Regular(rules) && History(rules, ix, base, b[0], db, undo) && FollowsCleanly(rules, ix, b[0], db, undo, a[0], st)
    requires Decided(rules, ix, b[0], db, undo, a[0], st, e, a, b)
    requires Followed(rules, ix, b[0], db, undo, a[0], st, e, a, b, bad, ix', best', head', db', undo')
    requires e == Restored ==> b[0] in ix'
    ensures e == Switched || e == Restored
    ensures History(rules, ix', base, head', db', undo')
    ensures e == Restored ==> rules.alike(db', db) && |undo'| == |undo|
  {
    FollowsIsClean(rules, ix, root, base, db, undo, a, b, st);
    CleanVerdict(rules, ix, root, base, a, b, db, undo);
    if e == Switched {
      CleanOver(rules, ix, root, base, a, b, db, undo, ix', db', undo');
    } else {
      CleanBack(rules, ix, root, base, a, b, db, undo, db', undo');
      HistoryWithout(rules, ix, base, b[0], db', undo', bad);
    }
  }

  /** A switch from one block to one other that ends with the old block applied again. */
  lemma OneRestored<S, L>(rules: Rules<S, L>, ix: Index, x: BlockId, y: BlockId, db: S, undo: seq<Frame<S, L>>, st: Status,
                          e: Ending, bad: BlockId, ix': Index, best': BlockId, head': BlockId, db': S, undo': seq<Frame<S, L>>)
    requires y in ix && x in ix && x != y && ix[y].prev != x && Joined(ix, y, x) && |undo| > 0
    requires Verdict(rules, ix, BackThrough(rules, db, Newest(undo, 1)), [y], [x]) == Restored
    requires Decided(rules, ix, x, db, undo, y, st, e, [y], [x])
    requires Followed(rules, ix, x, db, undo, y, st, e, [y], [x], bad, ix', best', head', db', undo')
    ensures e == Restored && head' == x && ix' == Without(ix, y)
    ensures var s := BackThrough(rules, db, Newest(undo, 1));
            ApplyAll(rules, AllValid(ix), Dropped(rules, ix, s, [y], FailPos(rules, ix, s, [y], 0)), [x], 0) == Some(db')
  {
  }

  class Controller<S(!new), L(!new)> {
    const fork: ForkDatabase
    const rules: Rules<S, L>
    var db: S
    var undo: seq<Frame<S, L>>
    var head: BlockId

    /** The flags follow the head, which is indexed or was settled, and every indexed block the head stands on can be
        popped. */
    ghost predicate InStep()
      reads this, fork
    {
      && fork.Valid() && FlagsFollow(fork.index, head)
      && (head in fork.index || head.num < fork.base)
      && head.num - fork.base <= |undo|
    }

    /** Besides, the database and the undo stack hold what applying the blocks of the current chain gave. */
    ghost predicate Truthful()
      reads this, fork
    {
      InStep() && History(rules, fork.index, fork.base, head, db, undo)
    }

    /** A controller on a fork database that holds a single block, whose effect the state `db` is. */
    constructor (fork: ForkDatabase, rules: Rules<S, L>, db: S)
      requires fork.Valid() && fork.head in fork.index && fork.head.num == fork.base && FlagsFollow(fork.index, fork.head)
      ensures Truthful()
      ensures head == fork.head && this.db == db && undo == [] && this.fork == fork && this.rules == rules
    {
      this.fork, this.rules, this.db, undo, head := fork, rules, db, [], fork.head;
    }

    /** Applies a block in a session of its own. A block that fails has its session undone: that brings the database back
        exactly when nothing the block did is lost on undoing it. */
    method ApplyBlock(b: BlockId, st: Status) returns (ok: bool)
      modifies this`db, this`undo
      ensures var r := rules.apply(old(db), b, st);
              && ok == r.Made?
              && (ok ==> db == r.after && undo == old(undo) + [Frame(old(db), r.layer)])
              && (!ok ==> db == Undone(rules, r) && undo == old(undo))
      ensures !ok ==> (rules.near(db, old(db)) <==> ExactAt(rules, old(db), b, st))
    {
      match rules.apply(db, b, st)
      case Failed(after, layer) =>
        db := rules.back(layer, after);
        return false;
      case Made(after, layer) =>
        undo := undo + [Frame(db, layer)];
        db := after;
        return true;
    }

    /** Takes the head block off the chain: the database undoes one session and the parent becomes head. */
    method PopBlock() returns (ok: bool)
      requires head in fork.index
      modifies this`db, this`undo, this`head
      ensures ok == (fork.index[old(head)].prev in fork.index)
      ensures !ok ==> db == old(db) && undo == old(undo) && head == old(head)
      ensures ok ==> head == fork.index[old(head)].prev
      ensures ok && old(undo) != [] ==>
                && db == rules.back(old(undo)[|old(undo)| - 1].layer, old(db))
                && undo == old(undo)[..|old(undo)| - 1]
      ensures ok && old(undo) == [] ==> db == old(db) && undo == []
    {
      var prev := fork.index[head].prev;
      if prev !in fork.index { return false; }
      head := prev;
      if |undo| > 0 {
        db, undo := rules.back(undo[|undo| - 1].layer, db), undo[..|undo| - 1];
      }
      return true;
    }

    /** One step down: the head loses its flag and is popped. */
    method Retreat() returns (ok: bool)
      requires InStep() && head in fork.index
      modifies this`db, this`undo, this`head, fork`index
      ensures fork.index == Flagged(old(fork.index), old(head), false)
      ensures FlagsFollow(fork.index, old(fork.index[head].prev))
      ensures ok == (old(head).num > fork.base)
      ensures ok ==> InStep() && head == old(fork.index[head].prev) && head in fork.index
      ensures ok ==> && old(undo) != [] && db == rules.back(old(undo)[|old(undo)| - 1].layer, old(db))
                     && undo == old(undo)[..|old(undo)| - 1]
      ensures !ok ==> head == old(head) && db == old(db) && undo == old(undo)
    {
      ghost var ix := fork.index;
      assert Placed(ix, head, fork.root, fork.base);
      RootOutside(ix, fork.root, fork.base);
      RetreatFlags(ix, fork.root, fork.base, head);
      fork.MarkInCurrentChain(head, false);
      ok := PopBlock();
    }

    /** One step up: a child of the head is applied, becomes head and gets its flag. */
    method Advance(b: BlockId, st: Status) returns (ok: bool)
      requires InStep() && b in fork.index && fork.index[b].prev == head
      modifies this`db, this`undo, this`head, fork`index
      ensures InStep()
      ensures var r := rules.apply(old(db), b, st);
              && ok == r.Made?
              && (ok ==> db == r.after && undo == old(undo) + [Frame(old(db), r.layer)])
              && (!ok ==> db == Undone(rules, r) && undo == old(undo))
      ensures ok ==> head == b && fork.index == Flagged(old(fork.index), b, true)
      ensures !ok ==> head == old(head) && fork.index == old(fork.index)
    {
      ghost var ix := fork.index;
      assert Placed(ix, b, fork.root, fork.base);
      ok := ApplyBlock(b, st);
      if ok {
        AdvanceFlags(ix, fork.root, fork.base, head, b);
        fork.MarkInCurrentChain(b, true);
        head := b;
      }
    }

    /** One step down a branch. */
    method RetreatAlong(b: seq<BlockId>, i: nat, ghost ix: Index, ghost db0: S,
                        ghost undo0: seq<Frame<S, L>>) returns (ok: bool)
      requires InStep() && head in fork.index && SameButFlags(ix, fork.index)
      requires Path(ix, b) && i < |b| && head == b[i] && Popped(rules, i, db0, undo0, db, undo)
      modifies this`db, this`undo, this`head, fork`index
      ensures ok == (b[i].num > fork.base) && SameButFlags(ix, fork.index)
      ensures ok ==> && InStep() && head in fork.index
                     && head == Spot(ix, b, i + 1) && Popped(rules, i + 1, db0, undo0, db, undo)
      ensures !ok ==> head == b[i] && Popped(rules, i, db0, undo0, db, undo) && FlagsFollow(fork.index, ix[b[i]].prev)
    {
      SameFlagged(ix, fork.index, head, false);
      ok := Retreat();
      if ok {
        PopOne(rules, i, db0, undo0, old(db), old(undo));
      }
    }

    /** Pops a whole branch, from the head down. Popping stops at the block whose parent is not indexed. */
    method PopBranch(b: seq<BlockId>) returns (ok: bool)
      requires InStep() && b != [] && Path(fork.index, b) && b[0] == head
      modifies this`db, this`undo, this`head, fork`index
      ensures ok == (b[|b| - 1].num > fork.base)
      ensures SameButFlags(old(fork.index), fork.index) && FlagsFollow(fork.index, old(fork.index)[b[|b| - 1]].prev)
      ensures ok ==> InStep() && head in fork.index
      ensures var n := if ok then |b| else |b| - 1;
              head == Spot(old(fork.index), b, n) && Popped(rules, n, old(db), old(undo), db, undo)
    {
      ghost var ix := fork.index;
      LastIsLowest(ix, fork.root, fork.base, b);
      var i := 0;
      while i < |b|
        invariant 0 <= i <= |b|
        invariant InStep() && head in fork.index && SameButFlags(ix, fork.index)
        invariant head == Spot(ix, b, i) && Popped(rules, i, old(db), old(undo), db, undo)
        invariant i > 0 ==> b[i - 1].num > fork.base
      {
        var popped := RetreatAlong(b, i, ix, old(db), old(undo));
        if !popped { return false; }
        i := i + 1;
      }
      return true;
    }

    /** The statuses a branch is applied under: its own, or all valid when it is applied again. */
    ghost function Statuses(again: bool): Index
      reads fork
    {
      if again then AllValid(fork.index) else fork.index
    }

    /** One step up a branch. */
    method AdvanceAlong(a: seq<BlockId>, i: nat, again: bool, ghost ix: Index, ghost db0: S, ghost undo0: seq<Frame<S, L>>)
      returns (ok: bool)
      requires InStep() && SameButFlags(ix, fork.index) && Path(ix, a) && i < |a| && head == Spot(ix, a, i + 1)
      requires Grown(rules, if again then AllValid(ix) else ix, a, i + 1, db0, undo0, db, undo)
      modifies this`db, this`undo, this`head, fork`index
      ensures InStep() && SameButFlags(ix, fork.index)
      ensures ok ==> head == a[i] && Grown(rules, if again then AllValid(ix) else ix, a, i, db0, undo0, db, undo)
      ensures !ok ==> head == old(head) && FailedAt(rules, if again then AllValid(ix) else ix, a, i, db0, undo0, db, undo)
      ensures var st := if again || old(fork.index)[a[i]].validated then Validated else Complete;
              ok == rules.apply(old(db), a[i], st).Made? && (ok ==> db == rules.apply(old(db), a[i], st).after)
    {
      var st := if again || fork.index[a[i]].validated then Validated else Complete;
      GrowOne(rules, if again then AllValid(ix) else ix, a, i, db0, undo0, db, undo);
      SameFlagged(ix, fork.index, a[i], true);
      ok := Advance(a[i], st);
    }

    /** Applies a whole branch, oldest block first; `at` is the position of the block that failed, if any. */
    method ApplyBranch(a: seq<BlockId>, again: bool) returns (ok: bool, at: nat)
      requires InStep() && Path(fork.index, a) && a != [] && fork.index[a[|a| - 1]].prev == head
      modifies this`db, this`undo, this`head, fork`index
      ensures InStep() && SameButFlags(old(fork.index), fork.index)
      ensures ok ==> head == a[0] && Grown(rules, old(Statuses(again)), a, 0, old(db), old(undo), db, undo)
      ensures !ok ==> && at < |a| && head == Spot(old(fork.index), a, at + 1)
                      && FailedAt(rules, old(Statuses(again)), a, at, old(db), old(undo), db, undo)
    {
      ghost var ix := fork.index;
      var i := |a|;
      at := 0;
      while i > 0
        invariant 0 <= i <= |a|
        invariant InStep() && SameButFlags(ix, fork.index)
        invariant head == Spot(ix, a, i) && Grown(rules, old(Statuses(again)), a, i, old(db), old(undo), db, undo)
      {
        i := i - 1;
        ok := AdvanceAlong(a, i, again, ix, old(db), old(undo));
        if !ok { return false, i; }
      }
      return true, 0;
    }

    /** Removes a block above the head, with everything built on it. */
    method Discard(bad: BlockId)
      requires InStep() && head in fork.index && bad in fork.index && bad.num > head.num
      modifies fork`index, fork`head
      ensures InStep() && head in fork.index
      ensures fork.index == Without(old(fork.index), bad) && Best(fork.index, fork.head)
    {
      ghost var ix := fork.index;
      TreeIsNumbered(ix, fork.root, fork.base);
      assert Placed(ix, bad, fork.root, fork.base);
      if Descends(ix, head, bad) { DescendsNum(ix, head, bad); }
      WithoutFlags(ix, fork.root, fork.base, head, bad);
      assert head in Without(ix, bad);
      var ok := fork.Remove(bad);
    }

    /** The block at position `at` of the new branch failed: it is removed with everything built on it,
        and the blocks applied before it are popped. */
    method DropBranch(a: seq<BlockId>, at: nat)
      requires InStep() && head in fork.index && Path(fork.index, a) && at < |a| && a[|a| - 1].num > fork.base
      requires head == fork.index[a[at]].prev
      modifies this`db, this`undo, this`head, fork`index, fork`head
      ensures InStep() && head == old(fork.index)[a[|a| - 1]].prev && head in fork.index
      ensures Popped(rules, |a| - 1 - at, old(db), old(undo), db, undo)
      ensures SameButFlags(Without(old(fork.index), a[at]), fork.index) && Best(fork.index, fork.head)
    {
      ghost var ix := fork.index;
      RestSurvives(ix, fork.root, fork.base, a, at);
      Discard(a[at]);
      ghost var cut := fork.index;
      if at + 1 < |a| {
        var ok := PopBranch(a[at + 1..]);
        BestButFlags(cut, fork.index, fork.head);
      } else {
        assert undo[..|undo|] == undo;
      }
    }

    /** Applies a branch again whose blocks were indexed in `ix0`. If its last block is not indexed any more it is applied
        all the same, and then cannot be flagged. */
    method ReapplyBranch(b: seq<BlockId>, ghost ix0: Index) returns (ok: bool)
      requires InStep() && head in fork.index && b != [] && Path(ix0, b) && ix0[b[|b| - 1]].prev == head
      requires b[|b| - 1] in fork.index ==> Path(fork.index, b) && fork.index[b[|b| - 1]].prev == head
      modifies this`db, this`undo, this`head, fork`index
      ensures ok <==> b[|b| - 1] in old(fork.index) && ApplyAll(rules, AllValid(ix0), old(db), b, 0).Some?
      ensures SameButFlags(old(fork.index), fork.index)
      ensures head in fork.index ==> InStep()
      ensures ok ==> head == b[0] && head in fork.index && Grown(rules, AllValid(ix0), b, 0, old(db), old(undo), db, undo)
      ensures !ok ==> if b[|b| - 1] !in old(fork.index)
                      then AppliedUnindexed(rules, b[|b| - 1], old(head), old(db), old(undo), head, db, undo)
                      else StoppedAgain(rules, ix0, b, old(db), old(undo), head, db, undo)
    {
      var last := b[|b| - 1];
      if last !in fork.index {
        var applied := ApplyBlock(last, Validated);
        if applied { head := last; }
        return false;
      }
      SameOutcomes(rules, AllValid(ix0), AllValid(fork.index), db, b);
      var failed;
      ok, failed := ApplyBranch(b, true);
      if !ok {
        FailsFrom(rules, AllValid(ix0), old(db), b, failed, 0);
      }
    }

    /** Undoes a failed switch: the failing block is dropped and the old branch is applied again. That cannot be done
        if the block is shared with the old branch, or a block of the old branch now fails. */
    method RestoreBranch(a: seq<BlockId>, at: nat, b: seq<BlockId>, ghost ix0: Index, ghost s: S,
                         ghost undo0: seq<Frame<S, L>>)
      returns (ok: bool)
      requires InStep() && head in fork.index && SameButFlags(ix0, fork.index)
      requires a != [] && b != [] && Branches(ix0, a[0], b[0], a, b) && a[|a| - 1].num > fork.base
      requires FlagsFollow(ix0, b[0]) && at < |a| && head == ix0[a[at]].prev
      requires FailedAt(rules, ix0, a, at, s, undo0, db, undo)
      modifies this`db, this`undo, this`head, fork`index, fork`head
      ensures ok <==> a[at] !in b && ApplyAll(rules, AllValid(ix0), Dropped(rules, ix0, s, a, at), b, 0).Some?
      ensures head in fork.index ==> InStep()
      ensures ok ==> && head == b[0] && head in fork.index && fork.index == Without(ix0, a[at]) && Best(fork.index, fork.head)
                     && Grown(rules, AllValid(ix0), b, 0, Dropped(rules, ix0, s, a, at), undo0, db, undo)
      ensures !ok ==> && SameButFlags(Without(ix0, a[at]), fork.index) && Best(fork.index, fork.head)
                      && Lost(rules, ix0, a, at, b, s, undo0, head, db, undo)
    {
      ghost var ix := fork.index;
      SameBranches(ix0, ix, a, b);
      DropBranch(a, at);
      ghost var cut := fork.index;
      DropsTo(rules, ix0, a, at, s, undo0, old(db), old(undo), db, undo);
      BranchCut(ix0, ix, fork.root, fork.base, a, b, at, cut);
      ok := ReapplyBranch(b, ix0);
      if ok {
        RestoredBranch(ix0, ix, fork.root, fork.base, a, b, at, cut, fork.index, fork.head);
      } else {
        BestButFlags(cut, fork.index, fork.head);
        SameTrans(Without(ix0, a[at]), cut, fork.index);
      }
    }

    /** At the common parent of two branches, applies the first, and if that fails, the second again. */
    method TakeBranch(a: seq<BlockId>, b: seq<BlockId>, ghost ix0: Index) returns (e: Ending, ghost bad: BlockId)
      requires InStep() && head in fork.index && SameButFlags(ix0, fork.index)
      requires a != [] && b != [] && Branches(ix0, a[0], b[0], a, b) && b[|b| - 1].num > fork.base && FlagsFollow(ix0, b[0])
      requires head == ix0[b[|b| - 1]].prev && a[0] == fork.head
      modifies this`db, this`undo, this`head, fork`index, fork`head
      ensures Left(rules, ix0, a, b, old(db), old(undo), e, bad, fork.index, fork.head, head, db, undo)
      ensures head in fork.index ==> InStep()
      ensures e == Switched || e == Restored ==> head in fork.index
    {
      ghost var ix := fork.index;
      bad := a[0];
      SameBranches(ix0, ix, a, b);
      SameOutcomes(rules, ix0, ix, db, a);
      var ok, at := ApplyBranch(a, false);
      if ok {
        SameTrans(ix0, ix, fork.index);
        return Switched, bad;
      }
      bad := a[at];
      SameTrans(ix0, ix, fork.index);
      ok := RestoreBranch(a, at, b, ix0, old(db), old(undo));
      e := if ok then Restored else Stranded;
      LeftBack(rules, ix0, a, at, b, old(db), old(undo), e, fork.index, fork.head, head, db, undo);
    }

    /** Leaves the current branch `b` for another one, `a`, by way of the common parent, where the database holds `s` and
        the undo stack is `rest`. */
    method LeaveBranch(a: seq<BlockId>, b: seq<BlockId>) returns (e: Ending, ghost bad: BlockId, ghost s: S,
                       ghost rest: seq<Frame<S, L>>)
      requires InStep() && head in fork.index && a != [] && b != [] && a[0] == fork.head && b[0] == head
      requires Branches(fork.index, a[0], b[0], a, b)
      modifies this`db, this`undo, this`head, fork`index, fork`head
      ensures e == PoppedTooFar <==> b[|b| - 1].num <= fork.base
      ensures e == PoppedTooFar ==> && head == b[|b| - 1] && fork.head == a[0] && SameButFlags(old(fork.index), fork.index)
                                    && FlagsFollow(fork.index, old(fork.index)[b[|b| - 1]].prev)
                                    && Popped(rules, |b| - 1, old(db), old(undo), db, undo)
      ensures e != PoppedTooFar ==>
                && Popped(rules, |b|, old(db), old(undo), s, rest)
                && Left(rules, old(fork.index), a, b, s, rest, e, bad, fork.index, fork.head, head, db, undo)
      ensures e != PoppedTooFar && head in fork.index ==> InStep()
      ensures e == Switched || e == Restored ==> head in fork.index
    {
      ghost var ix := fork.index;
      bad := a[0];
      var popped := PopBranch(b);
      s, rest := db, undo;
      if !popped { return PoppedTooFar, bad, s, rest; }
      e, bad := TakeBranch(a, b, ix);
    }

    /** Switches to the branch of another block; the two branches are determined by the index and the heads. */
    method SwitchTo(newHead: BlockId, ghost st: Status)
      returns (e: Ending, ghost a: seq<BlockId>, ghost b: seq<BlockId>, ghost bad: BlockId)
      requires InStep() && head in fork.index && newHead == fork.head && newHead in fork.index
      requires newHead != head && fork.index[newHead].prev != head
      modifies this`db, this`undo, this`head, fork`index, fork`head
      ensures Branches(old(fork.index), newHead, old(head), a, b)
      ensures Decided(rules, old(fork.index), old(head), old(db), old(undo), newHead, st, e, a, b)
      ensures e != PoppedTooFar && head in fork.index ==> InStep()
      ensures Followed(rules, old(fork.index), old(head), old(db), old(undo), newHead, st, e, a, b, bad,
                       fork.index, fork.head, head, db, undo)
      ensures e == Switched || e == Restored ==> head in fork.index
      ensures Regular(rules) && old(Truthful()) && e != PoppedTooFar &&
              FollowsCleanly(rules, old(fork.index), old(head), old(db), old(undo), newHead, st) ==>
                Truthful() && e != Stranded && (e == Restored ==> rules.alike(db, old(db)) && |undo| == |old(undo)|)
    {
      var first, second := fork.FetchBranchFrom(newHead, head);
      a, b := first, second;
      ParentIndexed(fork.index, fork.root, fork.base, a, b);
      ghost var s, rest;
      e, bad, s, rest := LeaveBranch(first, second);
      if e == PoppedTooFar {
        TooFarFollows(rules, old(fork.index), a, b, old(db), old(undo), st, bad, fork.index, db, undo);
      } else {
        LeftFollows(rules, old(fork.index), a, b, old(db), old(undo), s, rest, st, e, bad, fork.index, fork.head, head, db, undo);
        if Regular(rules) && old(Truthful()) && FollowsCleanly(rules, old(fork.index), old(head), old(db), old(undo), newHead, st) {
          CleanSwitch(rules, old(fork.index), fork.root, fork.base, a, b, old(db), old(undo), st, e, bad,
                      fork.index, fork.head, head, db, undo);
        }
      }
    }

    /** Applies a child of the head on top of it. */
    method Extend(newHead: BlockId, st: Status) returns (ok: bool)
      requires InStep() && newHead in fork.index && fork.index[newHead].prev == head
      modifies this`db, this`undo, this`head, fork`index, fork`head
      ensures var r := rules.apply(old(db), newHead, st);
              && ok == r.Made?
              && (ok ==> db == r.after && undo == old(undo) + [Frame(old(db), r.layer)])
              && (!ok ==> db == Undone(rules, r) && undo == old(undo))
      ensures InStep()
      ensures ok ==> head == newHead && fork.head == old(fork.head) && fork.index == Accepted(old(fork.index), newHead)
      ensures ok ==> fork.index == old(fork.index)[newHead := old(fork.index)[newHead].(inCurrentChain := true, validated := true)]
      ensures !ok ==> head == old(head) && fork.index == Without(old(fork.index), newHead)
      ensures !ok && head in old(fork.index) ==> head in fork.index
      ensures !ok && fork.index != map[] ==> Best(fork.index, fork.head)
      ensures !ok ==> (rules.near(db, old(db)) <==> ExactAt(rules, old(db), newHead, st))
      ensures Regular(rules) && (if ok then old(head) !in old(fork.index) || old(Truthful()) else old(Truthful()) && rules.near(db, old(db))) ==>
                Truthful()
    {
      ghost var ix := fork.index;
      assert Placed(ix, newHead, fork.root, fork.base);
      ok := ApplyBlock(newHead, st);
      if ok {
        fork.MarkInCurrentChain(newHead, true);
        fork.SetValid(newHead);
        AcceptedFlags(ix, fork.root, fork.base, head, newHead);
        if Regular(rules) && (old(head) !in ix || old(Truthful())) {
          ExtendedHistory(rules, ix, fork.root, fork.base, head, old(db), old(undo), newHead, st, rules.apply(old(db), newHead, st));
        }
        head := newHead;
      } else if head in fork.index {
        Discard(newHead);
        if Regular(rules) && old(Truthful()) && rules.near(db, old(db)) {
          HistoryNear(rules, ix, fork.base, head, old(db), db, undo);
          if Descends(ix, head, newHead) { DescendsNum(ix, head, newHead); }
          HistoryWithout(rules, ix, fork.base, head, db, undo, newHead);
        }
      } else {
        TreeIsNumbered(ix, fork.root, fork.base);
        FlagsOutside(ix, fork.root, fork.base, head);
        var left := fork.Remove(newHead);
        FlagsOutside(fork.index, fork.root, fork.base, head);
      }
    }

    method FollowChild(newHead: BlockId, st: Status) returns (e: Ending)
      requires InStep() && newHead in fork.index && fork.head == newHead && fork.index[newHead].prev == head
      modifies this`db, this`undo, this`head, fork`index, fork`head
      ensures Decided(rules, old(fork.index), old(head), old(db), old(undo), newHead, st, e, [], [])
      ensures Followed(rules, old(fork.index), old(head), old(db), old(undo), newHead, st, e, [], [], newHead,
                       fork.index, fork.head, head, db, undo)
      ensures InStep() && (e == Extended || e == Restored ==> head in fork.index) && (fork.index != map[] ==> fork.head in fork.index)
      ensures Regular(rules) && FollowsCleanly(rules, old(fork.index), old(head), old(db), old(undo), newHead, st) &&
              (old(head) !in old(fork.index) || old(Truthful())) && e != Overtaken ==>
                Truthful() && (e == Restored ==> rules.alike(db, old(db)) && |undo| == |old(undo)|)
    {
      assert Placed(fork.index, newHead, fork.root, fork.base);
      var indexed := head in fork.index;
      var ok := Extend(newHead, st);
      e := if ok then Extended else if indexed then Restored else Overtaken;
      ChildFollows(rules, old(fork.index), old(head), old(db), old(undo), newHead, st, e, fork.index, fork.head, head, db, undo);
    }

    /** Follows the fork database to its head.

        A child of the current head is applied on top of it. Otherwise the current branch `b` is popped down to the
        common parent and the new branch `a` is applied. If one of its blocks fails, that block is removed from the fork
        database with everything built on it, the blocks applied before it are popped, and the old branch is applied
        again. All of this works on what undoing really leaves in the database. If nothing is lost on the way, the old
        branch can always be applied again, and the database is then like it was. */
    method MaybeSwitchForks(st: Status) returns (e: Ending, ghost a: seq<BlockId>, ghost b: seq<BlockId>, ghost bad: BlockId)
      requires InStep() && fork.head in fork.index
      modifies this`db, this`undo, this`head, fork`index, fork`head
      ensures Decided(rules, old(fork.index), old(head), old(db), old(undo), old(fork.head), st, e, a, b)
      ensures Followed(rules, old(fork.index), old(head), old(db), old(undo), old(fork.head), st, e, a, b, bad,
                       fork.index, fork.head, head, db, undo)
      ensures e == Unchanged || e == Extended || e == Switched || e == Restored ==> head in fork.index
      ensures e != PoppedTooFar && (e == Stranded ==> head in fork.index) ==> InStep()
      ensures fork.index != map[] ==> fork.head in fork.index
      ensures Counts(rules) ==> rules.revision(db) - head.num == old(rules.revision(db) - head.num)
      ensures Regular(rules) && old(FollowsCleanly(rules, fork.index, head, db, undo, fork.head, st)) &&
              (old(head) !in old(fork.index) || old(Truthful())) && e != PoppedTooFar && e != Overtaken ==>
                Truthful() && e != Stranded && (e == Restored ==> rules.alike(db, old(db)) && |undo| == |old(undo)|)
    {
      var newHead := fork.head;
      ghost var ix, root, base := fork.index, fork.root, fork.base;
      a, b, bad := [], [], newHead;
      assert Placed(ix, newHead, root, base);
      if fork.index[newHead].prev == head {
        e := FollowChild(newHead, st);
      } else if newHead == head {
        e := Unchanged;
      } else if head !in fork.index {
        e := Overtaken;
      } else {
        e, a, b, bad := SwitchTo(newHead, st);
      }
      if Counts(rules) {
        FollowedCounts(rules, ix, root, base, old(head), old(db), old(undo), newHead, st, e, a, b, bad,
                       fork.index, fork.head, head, db, undo);
      }
    }

    /** Forgets the sessions of the blocks up to number `num`. */
    method Commit(num: nat)
      modifies this`undo
      ensures undo == Newest(old(undo), head.num - num)
    {
      if head.num <= num {
        undo := [];
      } else if head.num - num < |undo| {
        undo := undo[|undo| - (head.num - num)..];
      }
    }

    /** Adds a block to the fork database; the handler of the irreversible block forgets its session. */
    method Add(id: BlockId, prev: BlockId, dpos: nat, producers: set<nat>)
      returns (r: Outcome, ghost state: Block, ghost oldest: BlockId)
      requires fork.Valid() && id.num == prev.num + 1 && dpos <= id.num
      modifies this`undo, fork
      ensures r == Duplicate || r == Unlinkable || r == Done || r == NoHeadLeft
      ensures r == Duplicate <==> id in old(fork.index)
      ensures r == Unlinkable <==> id !in old(fork.index) && prev !in old(fork.index)
      ensures r == Duplicate || r == Unlinkable ==>
                fork.index == old(fork.index) && fork.head == old(fork.head) && fork.base == old(fork.base) && undo == old(undo)
      ensures r != NoHeadLeft ==> fork.Valid()
      ensures r == Done ==> Best(fork.index, fork.head)
      ensures r == Done || r == NoHeadLeft ==>
                && prev in old(fork.index) && state == NewState(old(fork.index), id, prev, dpos, producers)
                && Extends(old(fork.index), state)
                && var added := old(fork.index)[id := state];
                   && Oldest(added, oldest) && oldest.num == old(fork.base)
                   && fork.index == Received(added, old(fork.base), oldest)
                   && undo == Kept(added, old(fork.base), head, old(undo))
                   && fork.irreversible == old(fork.irreversible) + (if Passed(added, old(fork.base)) then [added[oldest]] else [])
                   && (r == Done ==> fork.base == Lowest(added, old(fork.base)))
      ensures r == NoHeadLeft ==> fork.index == map[]
      ensures (r == Done || r == NoHeadLeft) && Passed(old(fork.index)[id := state], old(fork.base)) ==>
                if head.num <= old(fork.base) then undo == []
                else |old(undo)| >= head.num - old(fork.base) ==> undo == old(undo)[|old(undo)| - (head.num - old(fork.base))..]
    {
      ghost var ix, root, base := fork.index, fork.root, fork.base;
      var before := |fork.irreversible|;
      r, state, oldest := fork.AddSignedBlock(id, prev, dpos, producers);
      if r == Done || r == NoHeadLeft {
        ExtendKeepsTree(ix, root, base, state);
        OldestIsLowest(ix[id := state], root, base, oldest);
        assert Placed(ix[id := state], oldest, root, base);
        if |fork.irreversible| > before {
          Commit(fork.irreversible[|fork.irreversible| - 1].num);
        }
      }
    }

    /** Receives a block: it is added to the fork database, and the oldest block settled if some block has passed it. */
    method Receive(id: BlockId, prev: BlockId, dpos: nat, producers: set<nat>) returns (r: Outcome, ghost oldest: BlockId)
      requires InStep() && id.num == prev.num + 1 && dpos <= id.num
      modifies this`undo, fork
      ensures Receives(old(fork.index), old(fork.base), head, old(undo), id, prev, dpos, producers, r, oldest, fork.index, undo)
      ensures r == Done || r == NoHeadLeft ==>
                var added := old(fork.index)[id := NewState(old(fork.index), id, prev, dpos, producers)];
                fork.irreversible == old(fork.irreversible) + if Passed(added, old(fork.base)) then [added[oldest]] else []
      ensures if r == Done then Best(fork.index, fork.head) else r == NoHeadLeft || fork.head == old(fork.head)
      ensures GrowsBest(old(fork.index), head, id, prev, dpos) ==> r == Done && fork.head == id && fork.index[id].prev == head
      ensures r != NoHeadLeft ==> InStep()
      ensures r != NoHeadLeft && old(Truthful()) && head in fork.index ==> Truthful()
    {
      ghost var ix, root, base := fork.index, fork.root, fork.base;
      ghost var state;
      r, state, oldest := Add(id, prev, dpos, producers);
      if r == Done || r == NoHeadLeft {
        ReceivedFlags(ix, root, base, state, oldest, head, old(undo));
        if old(Truthful()) {
          ReceivedHistory(rules, ix, root, base, state, oldest, head, db, old(undo));
        }
      }
      if GrowsBest(ix, head, id, prev, dpos) {
        ChildLeads(ix, root, base, head, old(undo), id, dpos, producers, r, oldest, fork.index, undo, fork.head);
      }
    }

    /** Receives a block, then follows the fork database to its head.

        `at` is the index right after the block was received, `stack` the undo stack then, and `newHead` the head of the
        fork database. How the call ends is decided by these, the database and the rules. Every run of received blocks
        keeps flags and head in step, the irreversible blocks in one chain and, as long as nothing is lost by undoing,
        the database and the undo stack true to the current chain; unless the head was settled and the new head is not a
        child of it, or a switch pops too far. */
    method PushBlock(id: BlockId, prev: BlockId, dpos: nat, producers: set<nat>, st: Status)
      returns (r: Outcome, e: Ending, ghost oldest: BlockId, ghost at: Index, ghost stack: seq<Frame<S, L>>,
               ghost newHead: BlockId, ghost a: seq<BlockId>, ghost b: seq<BlockId>, ghost bad: BlockId)
      requires InStep() && fork.head in fork.index && id.num == prev.num + 1 && dpos <= id.num
      modifies this`db, this`undo, this`head, fork
      ensures Receives(old(fork.index), old(fork.base), old(head), old(undo), id, prev, dpos, producers, r, oldest, at, stack)
      ensures r == Duplicate || r == Unlinkable ==>
                && e == Unchanged && head == old(head) && db == old(db) && undo == old(undo)
                && fork.index == old(fork.index) && fork.head == old(fork.head)
      ensures r == NoHeadLeft ==> e == Overtaken && fork.index == map[] && head == old(head) && db == old(db) && undo == stack
      ensures r == Done ==>
                && Best(at, newHead) && Decided(rules, at, old(head), old(db), stack, newHead, st, e, a, b)
                && Followed(rules, at, old(head), old(db), stack, newHead, st, e, a, b, bad, fork.index, fork.head, head, db, undo)
      ensures GrowsBest(old(fork.index), old(head), id, prev, dpos) && rules.apply(old(db), id, st).Made? ==>
                r == Done && e == Extended && head == fork.head == id && db == rules.apply(old(db), id, st).after
      ensures e != PoppedTooFar && (e == Stranded ==> head in fork.index) && r != NoHeadLeft ==> InStep()
      ensures fork.index != map[] ==> fork.head in fork.index
      ensures r == Done && (e == Unchanged || e == Extended || e == Switched || e == Restored) ==> head in fork.index
      ensures Counts(rules) ==> rules.revision(db) - head.num == old(rules.revision(db) - head.num)
      ensures Regular(rules) && (old(Truthful()) || (r == Done && old(head) !in old(fork.index))) &&
              e != PoppedTooFar && e != Overtaken &&
              (r == Done ==> FollowsCleanly(rules, at, old(head), old(db), stack, newHead, st)) ==>
                Truthful() && e != Stranded && (e == Restored ==> rules.alike(db, old(db)) && |undo| == |stack|)
    {
      e, newHead, a, b, bad := Unchanged, fork.head, [], [], fork.head;
      r, oldest := Receive(id, prev, dpos, producers);
      at, stack := fork.index, undo;
      if r == Duplicate || r == Unlinkable { return; }
      if r == NoHeadLeft { e := Overtaken; return; }
      newHead := fork.head;
      e, a, b, bad := MaybeSwitchForks(st);
    }
  }
}
