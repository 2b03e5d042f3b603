/** Blocks applied to a database in sessions, and taken back by undoing them. Undoing a session is a step of its own,
    computed from what the session recorded: it need not bring the state back that the session started from. */
module ChainRules {
  import opened ForkDb
  import opened ForkFlags
  import opened ForkTree
  import opened Options

  datatype Status = Validated | Complete

  /** How a switch ends: nothing to do, the chain has grown or switched to the new head, a block was rejected and the
      old branch, if it was left, applied again, a block whose parent is no longer indexed could not be popped, the old branch could
      not be applied again, or the head had left the index and the new head does not stand on it. */
  datatype Ending = Unchanged | Extended | Switched | Restored | PoppedTooFar | Stranded | Overtaken

  /** Applying a block in a session: the state reached and what the session recorded, whether it succeeds or not. */
  datatype Attempt<S, L> = Made(after: S, layer: L) | Failed(after: S, layer: L)

  /** What applying a block does, and what undoing a session with a given record does to a state. Undoing never brings
      back the exact state (object ids are not taken back), so states are compared by two relations, which no operation
      evaluates: states that are `near` hold the same objects, and states that are `alike` hold the same objects up to
      the ids they were given. `revision` is the revision of a state. */
  datatype Rules<!S, !L> = Rules(
    apply: (S, BlockId, Status) -> Attempt<S, L>,
    back: (L, S) -> S,
    ghost near: (S, S) -> bool,
    ghost alike: (S, S) -> bool,
    ghost revision: S -> int)

  /** An open session: its record, and the state it started from, which no operation can read. */
  datatype Frame<S, L> = Frame(ghost start: S, layer: L)

  /** The status under which a block of a branch is applied. */
  function StatusOf(ix: Index, b: BlockId): Status {
    if b in ix && ix[b].validated then Validated else Complete
  }

  /** The index with every block valid: the old branch is applied again without checks. */
  function AllValid(ix: Index): Index {
    map b | b in ix :: ix[b].(validated := true)
  }

  /** A block of a branch is applied without checks if it was found valid before, and always when it is applied again. */
  lemma StatusMeans(ix: Index, b: BlockId)
    requires b in ix
    ensures StatusOf(ix, b) == if ix[b].validated then Validated else Complete
    ensures StatusOf(AllValid(ix), b) == Validated && AllValid(ix).Keys == ix.Keys
  {
  }

  // ------------------------------------------------------------------
  // Near and alike
  // ------------------------------------------------------------------

  ghost predicate Equivalence<S(!new)>(same: (S, S) -> bool) {
    && (forall s :: same(s, s))
    && (forall s, t :: same(s, t) ==> same(t, s))
    && (forall s, t, u :: same(s, t) && same(t, u) ==> same(s, u))
  }

  /** Undoing does the same to near states. */
  ghost predicate BackRespects<S(!new), L(!new)>(rules: Rules<S, L>) {
    forall l, s, t :: rules.near(s, t) ==> rules.near(rules.back(l, s), rules.back(l, t))
  }

  /** A block has the same effect on two alike states. */
  ghost predicate SameEffect<S, L>(rules: Rules<S, L>, s: S, t: S, b: BlockId, st: Status) {
    var r, q := rules.apply(s, b, st), rules.apply(t, b, st);
    (r.Made? <==> q.Made?) && (r.Made? ==> rules.alike(r.after, q.after))
  }

  /** No block can tell alike states apart. */
  ghost predicate ApplyRespects<S(!new), L>(rules: Rules<S, L>) {
    forall s, t, b, st :: rules.alike(s, t) ==> SameEffect(rules, s, t, b, st)
  }

  /** A block that applies under the full checks applies, with the same result, without them. */
  ghost predicate Reapplies<S(!new), L>(rules: Rules<S, L>) {
    forall s, b :: rules.apply(s, b, Complete).Made? ==> rules.apply(s, b, Validated) == rules.apply(s, b, Complete)
  }

  ghost predicate Regular<S(!new), L(!new)>(rules: Rules<S, L>) {
    && Equivalence(rules.near) && Equivalence(rules.alike) && (forall s, t :: rules.near(s, t) ==> rules.alike(s, t))
    && BackRespects(rules) && ApplyRespects(rules) && Reapplies(rules)
  }

  // ------------------------------------------------------------------
  // Undoing
  // ------------------------------------------------------------------

  function Undone<S, L>(rules: Rules<S, L>, r: Attempt<S, L>): S {
    rules.back(r.layer, r.after)
  }

  /** Undoing the application of `b` to `s` brings the objects of `s` back. */
  ghost predicate ExactAt<S, L>(rules: Rules<S, L>, s: S, b: BlockId, st: Status) {
    rules.near(Undone(rules, rules.apply(s, b, st)), s)
  }

  /** No block, applied to whatever state, leaves anything behind when it is undone. */
  ghost predicate LosesNothing<S(!new), L>(rules: Rules<S, L>) {
    forall s, b, st :: ExactAt(rules, s, b, st)
  }

  /** The state after undoing the sessions `fs`, the last one first. */
  ghost function BackThrough<S, L>(rules: Rules<S, L>, s: S, fs: seq<Frame<S, L>>): S {
    if fs == [] then s else rules.back(fs[0].layer, BackThrough(rules, s, fs[1..]))
  }

  lemma {:induction false} BackSnoc<S, L>(rules: Rules<S, L>, s: S, fs: seq<Frame<S, L>>, f: Frame<S, L>)
    ensures BackThrough(rules, s, fs + [f]) == BackThrough(rules, rules.back(f.layer, s), fs)
    decreases |fs|
  {
    if fs != [] {
      assert (fs + [f])[1..] == fs[1..] + [f];
      BackSnoc(rules, s, fs[1..], f);
    }
  }

  /** The state right after the block `i` steps below the head was applied. */
  ghost function After<S, L>(db: S, undo: seq<Frame<S, L>>, i: nat): S
    requires i <= |undo|
  {
    if i == 0 then db else undo[|undo| - i].start
  }

  /** The newest `n` sessions of an undo stack. */
  function Newest<S, L>(undo: seq<Frame<S, L>>, n: int): seq<Frame<S, L>> {
    if n <= 0 then [] else if n <= |undo| then undo[|undo| - n..] else undo
  }

  /** The newest `n` sessions are undone. */
  ghost predicate Popped<S, L>(rules: Rules<S, L>, n: nat, db0: S, undo0: seq<Frame<S, L>>, db: S, undo: seq<Frame<S, L>>) {
    n <= |undo0| && undo == undo0[..|undo0| - n] && db == BackThrough(rules, db0, Newest(undo0, n))
  }

  lemma PopOne<S, L>(rules: Rules<S, L>, n: nat, db0: S, undo0: seq<Frame<S, L>>, db: S, undo: seq<Frame<S, L>>)
    requires Popped(rules, n, db0, undo0, db, undo) && undo != []
    ensures Popped(rules, n + 1, db0, undo0, rules.back(undo[|undo| - 1].layer, db), undo[..|undo| - 1])
  {
    PopNext(rules, db0, undo0, n);
  }

  /** Each of the newest `n` sessions, undone where it ended, brings back the state it started from. */
  ghost predicate Lossless<S, L>(rules: Rules<S, L>, db: S, undo: seq<Frame<S, L>>, n: nat)
    requires n <= |undo|
  {
    forall i :: 0 <= i < n ==> LosslessAt(rules, db, undo, i)
  }

  ghost predicate LosslessAt<S, L>(rules: Rules<S, L>, db: S, undo: seq<Frame<S, L>>, i: nat)
    requires i < |undo|
  {
    var f := undo[|undo| - 1 - i];
    rules.near(rules.back(f.layer, After(db, undo, i)), f.start)
  }

  /** The state with the newest `n` sessions undone holds the objects it held when the last of them was started. */
  ghost predicate BackAt<S, L>(rules: Rules<S, L>, db: S, undo: seq<Frame<S, L>>, n: nat)
    requires n <= |undo|
  {
    rules.near(BackThrough(rules, db, Newest(undo, n)), After(db, undo, n))
  }

  /** Popping `n` sessions passes through the states they started from, if and only if each is lossless. */
  lemma {:induction false} PopsExactly<S(!new), L(!new)>(rules: Rules<S, L>, db: S, undo: seq<Frame<S, L>>, n: nat)
    requires n <= |undo| && Equivalence(rules.near) && BackRespects(rules)
    ensures (forall i :: 0 <= i <= n ==> BackAt(rules, db, undo, i)) <==> Lossless(rules, db, undo, n)
  {
    if n == 0 {
      assert BackAt(rules, db, undo, 0);
    } else {
      PopsExactly(rules, db, undo, n - 1);
      if Lossless(rules, db, undo, n) {
        assert Lossless(rules, db, undo, n - 1);
        PopsNext(rules, db, undo, n - 1);
      }
      if forall i :: 0 <= i <= n ==> BackAt(rules, db, undo, i) {
        PopsNext(rules, db, undo, n - 1);
      }
    }
  }

  lemma PopsNext<S(!new), L(!new)>(rules: Rules<S, L>, db: S, undo: seq<Frame<S, L>>, i: nat)
    requires i < |undo| && Equivalence(rules.near) && BackRespects(rules) && BackAt(rules, db, undo, i)
    ensures BackAt(rules, db, undo, i + 1) <==> LosslessAt(rules, db, undo, i)
  {
    PopNext(rules, db, undo, i);
    var l, s, t := undo[|undo| - 1 - i].layer, BackThrough(rules, db, Newest(undo, i)), After(db, undo, i);
    assert rules.near(rules.back(l, s), rules.back(l, t));
  }

  lemma PopNext<S, L>(rules: Rules<S, L>, db: S, undo: seq<Frame<S, L>>, i: nat)
    requires i < |undo|
    ensures BackThrough(rules, db, Newest(undo, i + 1)) ==
            rules.back(undo[|undo| - 1 - i].layer, BackThrough(rules, db, Newest(undo, i)))
    ensures Newest(undo, i + 1) == [undo[|undo| - 1 - i]] + Newest(undo, i)
  {
    assert Newest(undo, i + 1)[1..] == Newest(undo, i);
  }

  // ------------------------------------------------------------------
  // Applying a branch
  // ------------------------------------------------------------------

  /** The state after applying the blocks of a branch, listed newest first, from the last down to number `i`. */
  ghost function ApplyAll<S, L>(rules: Rules<S, L>, ix: Index, s: S, a: seq<BlockId>, i: nat): Option<S>
    requires i <= |a|
    decreases |a| - i
  {
    if i == |a| then Some(s)
    else match ApplyAll(rules, ix, s, a, i + 1)
         case None => None
         case Some(t) =>
           var r := rules.apply(t, a[i], StatusOf(ix, a[i]));
           if r.Made? then Some(r.after) else None
  }

  /** The sessions of these blocks, as long as they apply. */
  ghost function FramesOf<S, L>(rules: Rules<S, L>, ix: Index, s: S, a: seq<BlockId>, i: nat): seq<Frame<S, L>>
    requires i <= |a|
    decreases |a| - i
  {
    if i == |a| then []
    else match ApplyAll(rules, ix, s, a, i + 1)
         case None => FramesOf(rules, ix, s, a, i + 1)
         case Some(t) =>
           var r := rules.apply(t, a[i], StatusOf(ix, a[i]));
           FramesOf(rules, ix, s, a, i + 1) + if r.Made? then [Frame(t, r.layer)] else []
  }

  lemma {:induction false} FramesLength<S, L>(rules: Rules<S, L>, ix: Index, s: S, a: seq<BlockId>, i: nat)
    requires i <= |a|
    ensures ApplyAll(rules, ix, s, a, i).Some? ==> |FramesOf(rules, ix, s, a, i)| == |a| - i
    decreases |a| - i
  {
    if i < |a| { FramesLength(rules, ix, s, a, i + 1); }
  }

  lemma ApplyNext<S, L>(rules: Rules<S, L>, ix: Index, s: S, a: seq<BlockId>, i: nat, t: S)
    requires i < |a| && ApplyAll(rules, ix, s, a, i + 1) == Some(t)
    ensures var r := rules.apply(t, a[i], StatusOf(ix, a[i]));
            && ApplyAll(rules, ix, s, a, i) == (if r.Made? then Some(r.after) else None)
            && FramesOf(rules, ix, s, a, i) == FramesOf(rules, ix, s, a, i + 1) + if r.Made? then [Frame(t, r.layer)] else []
  {
  }

  /** The blocks of a branch from the last down to number `i` are applied. */
  ghost predicate Grown<S, L>(rules: Rules<S, L>, ix: Index, a: seq<BlockId>, i: nat,
                              db0: S, undo0: seq<Frame<S, L>>, db: S, undo: seq<Frame<S, L>>) {
    && i <= |a| && ApplyAll(rules, ix, db0, a, i) == Some(db)
    && undo == undo0 + FramesOf(rules, ix, db0, a, i)
  }

  /** The blocks below number `at` are applied; that one has failed, and its session is undone. */
  ghost predicate FailedAt<S, L>(rules: Rules<S, L>, ix: Index, a: seq<BlockId>, at: nat,
                                 db0: S, undo0: seq<Frame<S, L>>, db: S, undo: seq<Frame<S, L>>) {
    && at < |a| && ApplyAll(rules, ix, db0, a, at).None? && ApplyAll(rules, ix, db0, a, at + 1).Some?
    && undo == undo0 + FramesOf(rules, ix, db0, a, at + 1)
    && db == Undone(rules, rules.apply(ApplyAll(rules, ix, db0, a, at + 1).value, a[at], StatusOf(ix, a[at])))
  }

  lemma GrowOne<S, L>(rules: Rules<S, L>, ix: Index, a: seq<BlockId>, i: nat,
                      db0: S, undo0: seq<Frame<S, L>>, db: S, undo: seq<Frame<S, L>>)
    requires i < |a| && Grown(rules, ix, a, i + 1, db0, undo0, db, undo)
    ensures var r := rules.apply(db, a[i], StatusOf(ix, a[i]));
            && (r.Made? ==> Grown(rules, ix, a, i, db0, undo0, r.after, undo + [Frame(db, r.layer)]))
            && (r.Failed? ==> FailedAt(rules, ix, a, i, db0, undo0, Undone(rules, r), undo))
  {
    ApplyNext(rules, ix, db0, a, i, db);
  }

  /** Popping what was applied before the failure. */
  lemma DropsTo<S, L>(rules: Rules<S, L>, ix: Index, a: seq<BlockId>, at: nat, s: S, undo0: seq<Frame<S, L>>,
                      db: S, undo: seq<Frame<S, L>>, db': S, undo': seq<Frame<S, L>>)
    requires FailedAt(rules, ix, a, at, s, undo0, db, undo) && Popped(rules, |a| - 1 - at, db, undo, db', undo')
    ensures ApplyAll(rules, ix, s, a, 0).None?
    ensures FailPos(rules, ix, s, a, 0) == at && db' == Dropped(rules, ix, s, a, at) && undo' == undo0
  {
    FailsFrom(rules, ix, s, a, at, 0);
    FramesLength(rules, ix, s, a, at + 1);
    PoppedAdded(rules, FramesOf(rules, ix, s, a, at + 1), undo0, db, db', undo');
  }

  lemma PoppedAdded<S, L>(rules: Rules<S, L>, added: seq<Frame<S, L>>, undo: seq<Frame<S, L>>, db: S, db': S,
                          undo': seq<Frame<S, L>>)
    requires Popped(rules, |added|, db, undo + added, db', undo')
    ensures db' == BackThrough(rules, db, added) && undo' == undo
  {
    assert Newest(undo + added, |added|) == added && (undo + added)[..|undo + added| - |added|] == undo;
  }

  /** Only the statuses of the blocks matter. */
  lemma {:induction false} SameStatuses<S, L>(rules: Rules<S, L>, ix: Index, ix': Index, s: S, a: seq<BlockId>, i: nat)
    requires i <= |a| && forall j :: 0 <= j < |a| ==> StatusOf(ix', a[j]) == StatusOf(ix, a[j])
    ensures ApplyAll(rules, ix', s, a, i) == ApplyAll(rules, ix, s, a, i)
    ensures FramesOf(rules, ix', s, a, i) == FramesOf(rules, ix, s, a, i)
    decreases |a| - i
  {
    if i < |a| { SameStatuses(rules, ix, ix', s, a, i + 1); }
  }

  lemma SameOutcomes<S(!new), L(!new)>(rules: Rules<S, L>, ix: Index, ix': Index, s: S, a: seq<BlockId>)
    requires forall j :: 0 <= j < |a| ==> StatusOf(ix', a[j]) == StatusOf(ix, a[j])
    ensures ApplyAll(rules, ix', s, a, 0) == ApplyAll(rules, ix, s, a, 0)
    ensures forall i, undo0, db, undo {:trigger Grown(rules, ix', a, i, s, undo0, db, undo)} ::
              Grown(rules, ix', a, i, s, undo0, db, undo) ==> Grown(rules, ix, a, i, s, undo0, db, undo)
    ensures forall i, undo0, db, undo {:trigger FailedAt(rules, ix', a, i, s, undo0, db, undo)} ::
              FailedAt(rules, ix', a, i, s, undo0, db, undo) ==> FailedAt(rules, ix, a, i, s, undo0, db, undo)
  {
    forall i: nat | i <= |a|
      ensures ApplyAll(rules, ix', s, a, i) == ApplyAll(rules, ix, s, a, i)
      ensures FramesOf(rules, ix', s, a, i) == FramesOf(rules, ix, s, a, i)
    {
      SameStatuses(rules, ix, ix', s, a, i);
    }
  }

  /** The position of the block of a branch that fails. */
  ghost function FailPos<S, L>(rules: Rules<S, L>, ix: Index, s: S, a: seq<BlockId>, i: nat): (r: nat)
    requires i <= |a| && ApplyAll(rules, ix, s, a, i).None?
    ensures i <= r < |a| && ApplyAll(rules, ix, s, a, r).None? && ApplyAll(rules, ix, s, a, r + 1).Some?
    decreases |a| - i
  {
    if ApplyAll(rules, ix, s, a, i + 1).None? then FailPos(rules, ix, s, a, i + 1) else i
  }

  /** Where an application fails, everything above fails. */
  lemma {:induction false} FailsFrom<S, L>(rules: Rules<S, L>, ix: Index, s: S, a: seq<BlockId>, at: nat, i: nat)
    requires i <= at < |a| && ApplyAll(rules, ix, s, a, at).None? && ApplyAll(rules, ix, s, a, at + 1).Some?
    ensures ApplyAll(rules, ix, s, a, i).None? && FailPos(rules, ix, s, a, i) == at
    decreases at - i
  {
    if i < at { FailsFrom(rules, ix, s, a, at, i + 1); }
  }

  /** The state left when the block at `at` has failed and was undone, and the blocks applied before it were popped. */
  ghost function Dropped<S, L>(rules: Rules<S, L>, ix: Index, s: S, a: seq<BlockId>, at: nat): S
    requires at < |a| && ApplyAll(rules, ix, s, a, at + 1).Some?
  {
    var r := rules.apply(ApplyAll(rules, ix, s, a, at + 1).value, a[at], StatusOf(ix, a[at]));
    BackThrough(rules, Undone(rules, r), FramesOf(rules, ix, s, a, at + 1))
  }

  /** How a switch from branch `b` to branch `a` ends, once `b` was popped down to state `s`. */
  ghost function Verdict<S, L>(rules: Rules<S, L>, ix: Index, s: S, a: seq<BlockId>, b: seq<BlockId>): Ending {
    if ApplyAll(rules, ix, s, a, 0).Some? then Switched
    else
      var at := FailPos(rules, ix, s, a, 0);
      if a[at] in b || ApplyAll(rules, AllValid(ix), Dropped(rules, ix, s, a, at), b, 0).None? then Stranded else Restored
  }

  /** Every application of a block of the branch is taken back when undone, up to the one that fails. */
  ghost predicate ExactAttempts<S, L>(rules: Rules<S, L>, ix: Index, s: S, a: seq<BlockId>) {
    forall i {:trigger ApplyAll(rules, ix, s, a, i)} :: 0 < i <= |a| && ApplyAll(rules, ix, s, a, i).Some? ==>
      ExactAt(rules, ApplyAll(rules, ix, s, a, i).value, a[i - 1], StatusOf(ix, a[i - 1]))
  }

  lemma {:induction false} BackNear<S(!new), L(!new)>(rules: Rules<S, L>, s: S, t: S, fs: seq<Frame<S, L>>)
    requires BackRespects(rules) && rules.near(s, t)
    ensures rules.near(BackThrough(rules, s, fs), BackThrough(rules, t, fs))
    decreases |fs|
  {
    if fs != [] {
      BackNear(rules, s, t, fs[1..]);
    }
  }

  /** Popping what was applied without loss comes back to the start. */
  lemma {:induction false} BackDown<S(!new), L(!new)>(rules: Rules<S, L>, ix: Index, s: S, a: seq<BlockId>, i: nat)
    requires i <= |a| && ExactAttempts(rules, ix, s, a) && ApplyAll(rules, ix, s, a, i).Some?
    requires Equivalence(rules.near) && BackRespects(rules)
    ensures rules.near(BackThrough(rules, ApplyAll(rules, ix, s, a, i).value, FramesOf(rules, ix, s, a, i)), s)
    decreases |a| - i
  {
    if i < |a| {
      var t, fs := ApplyAll(rules, ix, s, a, i + 1).value, FramesOf(rules, ix, s, a, i + 1);
      var r := rules.apply(t, a[i], StatusOf(ix, a[i]));
      BackDown(rules, ix, s, a, i + 1);
      ApplyNext(rules, ix, s, a, i, t);
      BackSnoc(rules, r.after, fs, Frame(t, r.layer));
      BackNear(rules, Undone(rules, r), t, fs);
    }
  }

  // ------------------------------------------------------------------
  // The history of the current chain
  // ------------------------------------------------------------------

  /** Block `b` turned the start of session `f` into `t`, as a validated block and under its own status. */
  ghost predicate Turns<S, L>(rules: Rules<S, L>, ix: Index, b: BlockId, f: Frame<S, L>, t: S) {
    var r := rules.apply(f.start, b, Validated);
    && r.Made? && r.layer == f.layer && rules.near(r.after, t)
    && rules.apply(f.start, b, StatusOf(ix, b)) == r
  }

  /** The database holds what applying the head to its parent's state gave, and so on down to the lowest number; the
      undo stack holds the sessions of these blocks, newest last. */
  ghost predicate History<S, L>(rules: Rules<S, L>, ix: Index, base: nat, head: BlockId, db: S, undo: seq<Frame<S, L>>)
    decreases head.num
  {
    && head in ix
    && (head.num > base ==>
          && undo != [] && ix[head].prev.num < head.num
          && Turns(rules, ix, head, undo[|undo| - 1], db)
          && History(rules, ix, base, ix[head].prev, undo[|undo| - 1].start, undo[..|undo| - 1]))
  }

  /** A block that keeps its parent and stays valid. */
  predicate Keeps(ix: Index, ix': Index, b: BlockId)
    requires b in ix
  {
    b in ix' && ix'[b].prev == ix[b].prev && (ix[b].validated ==> ix'[b].validated)
  }

  lemma {:induction false} HistoryElsewhere<S, L>(rules: Rules<S, L>, ix: Index, ix': Index, base: nat,
                                                  head: BlockId, db: S, undo: seq<Frame<S, L>>)
    requires History(rules, ix, base, head, db, undo)
    requires forall b :: b in ix && Descends(ix, head, b) ==> Keeps(ix, ix', b)
    ensures History(rules, ix', base, head, db, undo)
    decreases head.num
  {
    if head.num > base {
      var p := ix[head].prev;
      forall b | b in ix && Descends(ix, p, b) ensures Keeps(ix, ix', b) {
        assert Descends(ix, head, b);
      }
      HistoryElsewhere(rules, ix, ix', base, p, undo[|undo| - 1].start, undo[..|undo| - 1]);
    }
  }

  /** The history does not tell near states apart. */
  lemma HistoryNear<S(!new), L>(rules: Rules<S, L>, ix: Index, base: nat, head: BlockId, s: S, t: S, undo: seq<Frame<S, L>>)
    requires Equivalence(rules.near) && rules.near(s, t) && History(rules, ix, base, head, s, undo)
    ensures History(rules, ix, base, head, t, undo)
  {
  }

  /** Settling the lowest block and forgetting its session. */
  lemma {:induction false} HistoryAbove<S, L>(rules: Rules<S, L>, ix: Index, root: BlockId, base: nat,
                                              oldest: BlockId, head: BlockId, db: S, undo: seq<Frame<S, L>>, drop: nat)
    requires Tree(ix, root, base) && oldest in ix && oldest.num == base
    requires History(rules, ix, base, head, db, undo) && head in Above(ix, oldest)
    requires drop <= |undo| && head.num - base <= |undo| - drop
    ensures History(rules, Above(ix, oldest), base + 1, head, db, undo[drop..])
    decreases head.num
  {
    assert Placed(ix, head, root, base);
    DescendsNum(ix, head, oldest);
    if head.num > base + 1 {
      var p, rest := ix[head].prev, undo[..|undo| - 1];
      assert p in Above(ix, oldest);
      HistoryAbove(rules, ix, root, base, oldest, p, undo[|undo| - 1].start, rest, drop);
      assert undo[drop..][..|undo| - drop - 1] == rest[drop..];
    }
  }

  /** The block at position `i` of a branch listed from its head down, or the parent of its last block. */
  ghost function Spot(ix: Index, b: seq<BlockId>, i: nat): BlockId
    requires b != [] && Path(ix, b) && i <= |b|
  {
    if i < |b| then b[i] else ix[b[|b| - 1]].prev
  }

  /** The newest sessions of the undo stack are those of the blocks of a branch. */
  ghost predicate BranchApplied<S, L>(rules: Rules<S, L>, ix: Index, b: seq<BlockId>, db: S, undo: seq<Frame<S, L>>, n: nat)
    requires n <= |b| && n <= |undo|
  {
    forall i :: 0 <= i < n ==> Turns(rules, ix, b[i], undo[|undo| - 1 - i], After(db, undo, i))
  }

  /** The history further down a branch, and what it says of the blocks passed. */
  lemma {:induction false} HistoryDown<S, L>(rules: Rules<S, L>, ix: Index, root: BlockId, base: nat, b: seq<BlockId>,
                                             db: S, undo: seq<Frame<S, L>>, i: nat)
    requires Tree(ix, root, base) && Path(ix, b) && b != [] && b[|b| - 1].num > base && i <= |b|
    requires History(rules, ix, base, b[0], db, undo)
    ensures i <= |undo| && BranchApplied(rules, ix, b, db, undo, i)
    ensures History(rules, ix, base, Spot(ix, b, i), After(db, undo, i), undo[..|undo| - i])
    decreases i
  {
    if i == 0 {
      assert undo[..|undo|] == undo;
    } else {
      HistoryDown(rules, ix, root, base, b, db, undo, i - 1);
      PathAbove(ix, root, base, b);
      var rest := undo[..|undo| - (i - 1)];
      assert rest[|rest| - 1] == undo[|undo| - i] && rest[..|rest| - 1] == undo[..|undo| - i];
    }
  }

  /** The history after applying a branch. */
  lemma {:induction false} HistoryUp<S(!new), L(!new)>(rules: Rules<S, L>, ix: Index, root: BlockId, base: nat,
                                                       a: seq<BlockId>,
                                                 s: S, undo: seq<Frame<S, L>>, i: nat)
    requires Tree(ix, root, base) && Path(ix, a) && a != [] && i <= |a| && Regular(rules)
    requires History(rules, ix, base, ix[a[|a| - 1]].prev, s, undo) && ApplyAll(rules, ix, s, a, i).Some?
    ensures History(rules, ix, base, Spot(ix, a, i), ApplyAll(rules, ix, s, a, i).value, undo + FramesOf(rules, ix, s, a, i))
    decreases |a| - i
  {
    if i == |a| {
      assert undo + [] == undo;
    } else {
      HistoryUp(rules, ix, root, base, a, s, undo, i + 1);
      var t := ApplyAll(rules, ix, s, a, i + 1).value;
      ApplyNext(rules, ix, s, a, i, t);
      assert Placed(ix, a[i], root, base);
      var stack, up := undo + FramesOf(rules, ix, s, a, i), undo + FramesOf(rules, ix, s, a, i + 1);
      assert stack[..|stack| - 1] == up;
    }
  }

  /** A branch applied before applies again to a state like the one it was applied to, whatever the statuses, and gives
      a state like the one it gave. */
  lemma {:induction false} ReapplyAll<S(!new), L(!new)>(rules: Rules<S, L>, ix: Index, b: seq<BlockId>, db: S,
                                                        undo: seq<Frame<S, L>>, s: S, i: nat)
    requires i <= |b| <= |undo| && BranchApplied(rules, ix, b, db, undo, |b|) && forall j :: 0 <= j < |b| ==> b[j] in ix
    requires Regular(rules) && rules.alike(s, After(db, undo, |b|))
    ensures ApplyAll(rules, AllValid(ix), s, b, i).Some? && rules.alike(ApplyAll(rules, AllValid(ix), s, b, i).value, After(db, undo, i))
    ensures ApplyAll(rules, ix, s, b, i) == ApplyAll(rules, AllValid(ix), s, b, i)
    ensures FramesOf(rules, ix, s, b, i) == FramesOf(rules, AllValid(ix), s, b, i)
    decreases |b| - i
  {
    if i < |b| {
      ReapplyAll(rules, ix, b, db, undo, s, i + 1);
      var t, f := ApplyAll(rules, ix, s, b, i + 1).value, undo[|undo| - 1 - i];
      assert Turns(rules, ix, b[i], f, After(db, undo, i));
      assert SameEffect(rules, t, f.start, b[i], Validated) && SameEffect(rules, t, f.start, b[i], StatusOf(ix, b[i]));
    }
  }

  // ------------------------------------------------------------------
  // A switch that leaves nothing behind
  // ------------------------------------------------------------------

  /** Nothing is lost on the way from branch `b` to branch `a` and back: the sessions of `b` are lossless, and so are
      those of the blocks of `a` that are tried at the common parent. All of it is fixed before the switch. */
  ghost predicate Clean<S, L>(rules: Rules<S, L>, ix: Index, db: S, undo: seq<Frame<S, L>>, a: seq<BlockId>,
                              b: seq<BlockId>) {
    && |b| <= |undo| && Lossless(rules, db, undo, |b|)
    && ExactAttempts(rules, ix, BackThrough(rules, db, Newest(undo, |b|)), a)
  }

  /** A block that fails on the new branch is not shared with the old one, where it applied before. */
  lemma FailedIsNotShared<S(!new), L(!new)>(rules: Rules<S, L>, ix: Index, a: seq<BlockId>, b: seq<BlockId>, at: nat,
                                            db: S, undo: seq<Frame<S, L>>, s: S)
    requires a != [] && b != [] && Branches(ix, a[0], b[0], a, b) && at < |a| && |b| <= |undo|
    requires BranchApplied(rules, ix, b, db, undo, |b|) && Regular(rules) && rules.alike(s, After(db, undo, |b|))
    requires ApplyAll(rules, ix, s, a, at + 1).Some? && ApplyAll(rules, ix, s, a, at).None?
    ensures a[at] !in b
  {
    var last, f := b[|b| - 1], undo[|undo| - |b|];
    assert Turns(rules, ix, last, f, After(db, undo, |b| - 1));
    assert SameEffect(rules, s, f.start, last, StatusOf(ix, last));
    forall j | 0 <= j < |b| ensures b[j] != a[at] {
    }
  }

  /** Popping the old branch of a clean switch gives the objects the branch started from. */
  lemma CleanPop<S(!new), L(!new)>(rules: Rules<S, L>, ix: Index, db: S, undo: seq<Frame<S, L>>, a: seq<BlockId>,
                                   b: seq<BlockId>)
    requires Clean(rules, ix, db, undo, a, b) && Regular(rules)
    ensures rules.near(BackThrough(rules, db, Newest(undo, |b|)), After(db, undo, |b|))
    ensures rules.alike(BackThrough(rules, db, Newest(undo, |b|)), After(db, undo, |b|))
  {
    PopsExactly(rules, db, undo, |b|);
    assert BackAt(rules, db, undo, |b|);
  }

  /** A block that fails in a clean switch leaves nothing behind, and neither do the blocks before it. */
  lemma CleanDrop<S(!new), L(!new)>(rules: Rules<S, L>, ix: Index, s: S, a: seq<BlockId>)
    requires ExactAttempts(rules, ix, s, a) && ApplyAll(rules, ix, s, a, 0).None?
    requires Equivalence(rules.near) && BackRespects(rules)
    ensures rules.near(Dropped(rules, ix, s, a, FailPos(rules, ix, s, a, 0)), s)
  {
    var at := FailPos(rules, ix, s, a, 0);
    var t := ApplyAll(rules, ix, s, a, at + 1).value;
    BackDown(rules, ix, s, a, at + 1);
    assert ExactAt(rules, t, a[at], StatusOf(ix, a[at]));
    BackNear(rules, Undone(rules, rules.apply(t, a[at], StatusOf(ix, a[at]))), t, FramesOf(rules, ix, s, a, at + 1));
  }

  /** The switch from branch `b` to branch `a` succeeded: `b` was popped, `a` applied. */
  ghost predicate SwitchedOver<S, L>(rules: Rules<S, L>, ix: Index, a: seq<BlockId>, b: seq<BlockId>,
                                     db0: S, undo0: seq<Frame<S, L>>, db: S, undo: seq<Frame<S, L>>) {
    && |b| <= |undo0|
    && Grown(rules, ix, a, 0, BackThrough(rules, db0, Newest(undo0, |b|)), undo0[..|undo0| - |b|], db, undo)
  }

  /** The switch failed: what was applied of `a` was popped again, and `b` applied again to what that left. */
  ghost predicate SwitchedBack<S, L>(rules: Rules<S, L>, ix: Index, a: seq<BlockId>, b: seq<BlockId>,
                                     db0: S, undo0: seq<Frame<S, L>>, db: S, undo: seq<Frame<S, L>>) {
    && |b| <= |undo0|
    && var s := BackThrough(rules, db0, Newest(undo0, |b|));
       && ApplyAll(rules, ix, s, a, 0).None?
       && Grown(rules, AllValid(ix), b, 0, Dropped(rules, ix, s, a, FailPos(rules, ix, s, a, 0)), undo0[..|undo0| - |b|], db, undo)
  }

  /** Block `b`, which is no longer indexed, is applied to `t` all the same; the head moves to it if it applies. */
  ghost predicate AppliedUnindexed<S, L>(rules: Rules<S, L>, b: BlockId, parent: BlockId, t: S, rest: seq<Frame<S, L>>,
                                         head: BlockId, db: S, undo: seq<Frame<S, L>>) {
    var r := rules.apply(t, b, Validated);
    if r.Made? then head == b && db == r.after && undo == rest + [Frame(t, r.layer)]
    else head == parent && db == Undone(rules, r) && undo == rest
  }

  /** Applying branch `b` again to `t` stopped at the block that failed. */
  ghost predicate StoppedAgain<S, L>(rules: Rules<S, L>, ix: Index, b: seq<BlockId>, t: S, rest: seq<Frame<S, L>>,
                                     head: BlockId, db: S, undo: seq<Frame<S, L>>)
    requires b != [] && Path(ix, b)
  {
    && ApplyAll(rules, AllValid(ix), t, b, 0).None?
    && var f := FailPos(rules, AllValid(ix), t, b, 0);
       head == Spot(ix, b, f + 1) && FailedAt(rules, AllValid(ix), b, f, t, rest, db, undo)
  }

  /** What is left when block `at` of branch `a` has failed at the common parent and branch `b` cannot be applied again. */
  ghost predicate Lost<S, L>(rules: Rules<S, L>, ix: Index, a: seq<BlockId>, at: nat, b: seq<BlockId>, s: S,
                             rest: seq<Frame<S, L>>, head: BlockId, db: S, undo: seq<Frame<S, L>>)
    requires b != [] && Path(ix, b) && at < |a| && ApplyAll(rules, ix, s, a, at + 1).Some?
  {
    var t, last := Dropped(rules, ix, s, a, at), b[|b| - 1];
    if a[at] in b then AppliedUnindexed(rules, last, ix[last].prev, t, rest, head, db, undo)
    else StoppedAgain(rules, ix, b, t, rest, head, db, undo)
  }

  /** The switch failed and the old branch could not be applied again: the block that failed was its first block, too,
      or one of its blocks has failed. */
  ghost predicate SwitchedNowhere<S, L>(rules: Rules<S, L>, ix: Index, a: seq<BlockId>, b: seq<BlockId>,
                                        db0: S, undo0: seq<Frame<S, L>>, head: BlockId, db: S, undo: seq<Frame<S, L>>) {
    && b != [] && Path(ix, b) && |b| <= |undo0|
    && var s, rest := BackThrough(rules, db0, Newest(undo0, |b|)), undo0[..|undo0| - |b|];
       && ApplyAll(rules, ix, s, a, 0).None?
       && Lost(rules, ix, a, FailPos(rules, ix, s, a, 0), b, s, rest, head, db, undo)
  }

  /** The old branch can be applied again to any state near the one it started from: the history is then as long as
      before, and the database like it was. */
  lemma AgainApplies<S(!new), L(!new)>(rules: Rules<S, L>, ix: Index, root: BlockId, base: nat, b: seq<BlockId>,
                                       db0: S, undo0: seq<Frame<S, L>>, s: S)
    requires Tree(ix, root, base) && b != [] && Path(ix, b) && b[|b| - 1].num > base && |b| <= |undo0|
    requires Regular(rules) && History(rules, ix, base, b[0], db0, undo0) && rules.near(s, After(db0, undo0, |b|))
    ensures ApplyAll(rules, AllValid(ix), s, b, 0).Some? && rules.alike(ApplyAll(rules, AllValid(ix), s, b, 0).value, db0)
    ensures |undo0[..|undo0| - |b|] + FramesOf(rules, AllValid(ix), s, b, 0)| == |undo0|
    ensures History(rules, ix, base, b[0], ApplyAll(rules, AllValid(ix), s, b, 0).value,
                    undo0[..|undo0| - |b|] + FramesOf(rules, AllValid(ix), s, b, 0))
  {
    HistoryDown(rules, ix, root, base, b, db0, undo0, |b|);
    ReapplyAll(rules, ix, b, db0, undo0, s, 0);
    HistoryNear(rules, ix, base, ix[b[|b| - 1]].prev, After(db0, undo0, |b|), s, undo0[..|undo0| - |b|]);
    HistoryUp(rules, ix, root, base, b, s, undo0[..|undo0| - |b|], 0);
    FramesLength(rules, AllValid(ix), s, b, 0);
  }

  /** A clean switch never ends stranded: either it succeeds, or the old branch can be applied again. */
  lemma CleanVerdict<S(!new), L(!new)>(rules: Rules<S, L>, ix: Index, root: BlockId, base: nat, a: seq<BlockId>,
                                       b: seq<BlockId>,
                                       db0: S, undo0: seq<Frame<S, L>>)
    requires Tree(ix, root, base) && a != [] && b != [] && Branches(ix, a[0], b[0], a, b) && b[|b| - 1].num > base
    requires Regular(rules) && History(rules, ix, base, b[0], db0, undo0) && Clean(rules, ix, db0, undo0, a, b)
    ensures Verdict(rules, ix, BackThrough(rules, db0, Newest(undo0, |b|)), a, b) != Stranded
  {
    var s := BackThrough(rules, db0, Newest(undo0, |b|));
    CleanPop(rules, ix, db0, undo0, a, b);
    if ApplyAll(rules, ix, s, a, 0).None? {
      HistoryDown(rules, ix, root, base, b, db0, undo0, |b|);
      FailedIsNotShared(rules, ix, a, b, FailPos(rules, ix, s, a, 0), db0, undo0, s);
      CleanDrop(rules, ix, s, a);
      AgainApplies(rules, ix, root, base, b, db0, undo0, Dropped(rules, ix, s, a, FailPos(rules, ix, s, a, 0)));
    }
  }

  /** A clean switch that fails brings back a database like it was, and a history as long as before. */
  lemma CleanBack<S(!new), L(!new)>(rules: Rules<S, L>, ix: Index, root: BlockId, base: nat, a: seq<BlockId>,
                                    b: seq<BlockId>,
                                    db0: S, undo0: seq<Frame<S, L>>, db: S, undo: seq<Frame<S, L>>)
    requires Tree(ix, root, base) && a != [] && b != [] && Branches(ix, a[0], b[0], a, b) && b[|b| - 1].num > base
    requires Regular(rules) && History(rules, ix, base, b[0], db0, undo0) && Clean(rules, ix, db0, undo0, a, b)
    requires SwitchedBack(rules, ix, a, b, db0, undo0, db, undo)
    ensures rules.alike(db, db0) && |undo| == |undo0| && undo[..|undo0| - |b|] == undo0[..|undo0| - |b|]
    ensures History(rules, ix, base, b[0], db, undo)
  {
    var s := BackThrough(rules, db0, Newest(undo0, |b|));
    CleanPop(rules, ix, db0, undo0, a, b);
    CleanDrop(rules, ix, s, a);
    AgainApplies(rules, ix, root, base, b, db0, undo0, Dropped(rules, ix, s, a, FailPos(rules, ix, s, a, 0)));
  }

  /** After a clean switch that succeeds the undo stack tells the new branch. */
  lemma CleanOver<S(!new), L(!new)>(rules: Rules<S, L>, ix: Index, root: BlockId, base: nat, a: seq<BlockId>,
                                    b: seq<BlockId>,
                                    db0: S, undo0: seq<Frame<S, L>>, ix': Index, db: S, undo: seq<Frame<S, L>>)
    requires Tree(ix, root, base) && a != [] && b != [] && Branches(ix, a[0], b[0], a, b) && b[|b| - 1].num > base
    requires Regular(rules) && History(rules, ix, base, b[0], db0, undo0) && Clean(rules, ix, db0, undo0, a, b)
    requires SwitchedOver(rules, ix, a, b, db0, undo0, db, undo) && SameButFlags(ix, ix')
    ensures History(rules, ix', base, a[0], db, undo)
  {
    var s := BackThrough(rules, db0, Newest(undo0, |b|));
    CleanPop(rules, ix, db0, undo0, a, b);
    HistoryDown(rules, ix, root, base, b, db0, undo0, |b|);
    HistoryNear(rules, ix, base, ix[b[|b| - 1]].prev, After(db0, undo0, |b|), s, undo0[..|undo0| - |b|]);
    HistoryUp(rules, ix, root, base, a, s, undo0[..|undo0| - |b|], 0);
    HistoryElsewhere(rules, ix, ix', base, a[0], db, undo);
  }

  /** The history is not touched by removing a block the head does not stand on. */
  lemma HistoryWithout<S, L>(rules: Rules<S, L>, ix: Index, base: nat, head: BlockId, db: S, undo: seq<Frame<S, L>>,
                             bad: BlockId)
    requires History(rules, ix, base, head, db, undo) && !Descends(ix, head, bad)
    ensures History(rules, Without(ix, bad), base, head, db, undo)
  {
    forall b | b in ix && Descends(ix, head, b) ensures Keeps(ix, Without(ix, bad), b) {
      if Descends(ix, b, bad) { DescendsTransitive(ix, head, b, bad); }
    }
    HistoryElsewhere(rules, ix, Without(ix, bad), base, head, db, undo);
  }

  /** A child of the head, applied. */
  lemma ExtendedHistory<S(!new), L(!new)>(rules: Rules<S, L>, ix: Index, root: BlockId, base: nat, head: BlockId, db: S,
                                    undo: seq<Frame<S, L>>, b: BlockId, st: Status, r: Attempt<S, L>)
    requires Tree(ix, root, base) && base == root.num + 1 && b in ix && ix[b].prev == head && Regular(rules)
    requires head == root || History(rules, ix, base, head, db, undo)
    requires r == rules.apply(db, b, st) && r.Made?
    ensures History(rules, Accepted(ix, b), base, b, r.after, undo + [Frame(db, r.layer)])
  {
    assert Placed(ix, b, root, base);
    if b.num > base {
      RootOutside(ix, root, base);
      HistoryElsewhere(rules, ix, Accepted(ix, b), base, head, db, undo);
      assert (undo + [Frame(db, r.layer)])[..|undo|] == undo;
    }
  }

  // ------------------------------------------------------------------
  // Revisions
  // ------------------------------------------------------------------

  /** Applying a block adds one to the revision, whether it succeeds or not, and undoing takes one off. */
  ghost predicate Counts<S(!new), L(!new)>(rules: Rules<S, L>) {
    && (forall s, b, st :: rules.revision(rules.apply(s, b, st).after) == rules.revision(s) + 1)
    && (forall l, s :: rules.revision(rules.back(l, s)) == rules.revision(s) - 1)
  }

  lemma {:induction false} BackCounts<S(!new), L(!new)>(rules: Rules<S, L>, s: S, fs: seq<Frame<S, L>>)
    requires Counts(rules)
    ensures rules.revision(BackThrough(rules, s, fs)) == rules.revision(s) - |fs|
    decreases |fs|
  {
    if fs != [] { BackCounts(rules, s, fs[1..]); }
  }

  lemma {:induction false} ApplyCounts<S(!new), L(!new)>(rules: Rules<S, L>, ix: Index, s: S, a: seq<BlockId>, i: nat)
    requires Counts(rules) && i <= |a|
    ensures ApplyAll(rules, ix, s, a, i).Some? ==> rules.revision(ApplyAll(rules, ix, s, a, i).value) == rules.revision(s) + (|a| - i)
    decreases |a| - i
  {
    if i < |a| { ApplyCounts(rules, ix, s, a, i + 1); }
  }

  lemma FailureCounts<S(!new), L(!new)>(rules: Rules<S, L>, ix: Index, a: seq<BlockId>, at: nat,
                                        db0: S, undo0: seq<Frame<S, L>>, db: S, undo: seq<Frame<S, L>>)
    requires Counts(rules) && FailedAt(rules, ix, a, at, db0, undo0, db, undo)
    ensures rules.revision(db) == rules.revision(db0) + (|a| - 1 - at)
  {
    ApplyCounts(rules, ix, db0, a, at + 1);
  }

  lemma DroppedCounts<S(!new), L(!new)>(rules: Rules<S, L>, ix: Index, s: S, a: seq<BlockId>, at: nat)
    requires Counts(rules) && at < |a| && ApplyAll(rules, ix, s, a, at + 1).Some?
    ensures rules.revision(Dropped(rules, ix, s, a, at)) == rules.revision(s)
  {
    var t := ApplyAll(rules, ix, s, a, at + 1).value;
    ApplyCounts(rules, ix, s, a, at + 1);
    FramesLength(rules, ix, s, a, at + 1);
    BackCounts(rules, Undone(rules, rules.apply(t, a[at], StatusOf(ix, a[at]))), FramesOf(rules, ix, s, a, at + 1));
  }

  /** A switch from one block to one other that fails: the old block is applied again to what is left after undoing it
      once and the other block once. */
  lemma OneForOne<S, L>(rules: Rules<S, L>, ix: Index, x: BlockId, y: BlockId, f: Frame<S, L>, db0: S)
    requires x != y && x in ix
    requires var s := rules.back(f.layer, db0);
             var r := rules.apply(s, y, StatusOf(ix, y));
             r.Failed? && rules.apply(Undone(rules, r), x, Validated).Made?
    ensures var s := rules.back(f.layer, db0);
            && BackThrough(rules, db0, Newest([f], 1)) == s && Verdict(rules, ix, s, [y], [x]) == Restored
            && ApplyAll(rules, AllValid(ix), Dropped(rules, ix, s, [y], FailPos(rules, ix, s, [y], 0)), [x], 0) ==
               Some(rules.apply(Undone(rules, rules.apply(s, y, StatusOf(ix, y))), x, Validated).after)
  {
    var s := rules.back(f.layer, db0);
    assert Newest([f], 1) == [f] && [f][1..] == [];
    var r := rules.apply(s, y, StatusOf(ix, y));
    assert ApplyAll(rules, ix, s, [y], 1) == Some(s) && FramesOf(rules, ix, s, [y], 1) == [];
    assert ApplyAll(rules, ix, s, [y], 0).None?;
    var u := Undone(rules, r);
    assert Dropped(rules, ix, s, [y], 0) == u;
    assert ApplyAll(rules, AllValid(ix), u, [x], 1) == Some(u);
  }

  /** When no block ever loses anything, every switch is clean. */
  lemma LosesNothingIsClean<S(!new), L(!new)>(rules: Rules<S, L>, ix: Index, root: BlockId, base: nat, db: S,
                                              undo: seq<Frame<S, L>>, a: seq<BlockId>, b: seq<BlockId>)
    requires Tree(ix, root, base) && a != [] && b != [] && Branches(ix, a[0], b[0], a, b) && b[|b| - 1].num > base
    requires Regular(rules) && History(rules, ix, base, b[0], db, undo) && LosesNothing(rules)
    ensures Clean(rules, ix, db, undo, a, b)
  {
    HistoryDown(rules, ix, root, base, b, db, undo, |b|);
    forall i | 0 <= i < |b| ensures LosslessAt(rules, db, undo, i) {
      var f := undo[|undo| - 1 - i];
      assert Turns(rules, ix, b[i], f, After(db, undo, i));
      assert ExactAt(rules, f.start, b[i], Validated);
      assert rules.near(rules.back(f.layer, After(db, undo, i)), rules.back(f.layer, rules.apply(f.start, b[i], Validated).after));
    }
  }
}
