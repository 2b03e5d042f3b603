/** What the controller does to the database, as runs of its operations: the trace of a transaction, of a
    scheduled transaction and of a block, and what is left when they are undone. */
module Traces {
  import opened Options
  import opened UndoLog
  import opened UndoLaws

  // ------------------------------------------------------------------
  // The changes a transaction makes
  // ------------------------------------------------------------------

  /** A change of objects, as opposed to a session call. */
  predicate IsChange<V>(op: Op<V>) {
    op.Insert? || op.Modify? || op.Remove?
  }

  predicate AreChanges<V>(ops: seq<Op<V>>) {
    forall i :: 0 <= i < |ops| ==> IsChange(ops[i])
  }

  lemma TailOfConcat<T>(a: seq<T>, b: seq<T>)
    requires a != []
    ensures (a + b)[0] == a[0] && (a + b)[1..] == a[1..] + b
  {
  }

  function RunDb<V>(db: Db<V>, ops: seq<Op<V>>): Db<V>
    decreases |ops|
  {
    if ops == [] then db else RunDb(Step(db, ops[0]), ops[1..])
  }

  lemma {:induction false} RunDbSnoc<V>(db: Db<V>, ops: seq<Op<V>>, op: Op<V>)
    ensures RunDb(db, ops + [op]) == Step(RunDb(db, ops), op)
    decreases |ops|
  {
    if ops != [] {
      TailOfConcat(ops, [op]);
      RunDbSnoc(Step(db, ops[0]), ops[1..], op);
    }
  }

  lemma RunDbPrefix<V>(db: Db<V>, ops: seq<Op<V>>, i: nat)
    requires i < |ops|
    ensures RunDb(db, ops[..i + 1]) == Step(RunDb(db, ops[..i]), ops[i])
  {
    assert ops[..i + 1] == ops[..i] + [ops[i]];
    RunDbSnoc(db, ops[..i], ops[i]);
  }

  lemma {:induction false} RunDbConcat<V>(db: Db<V>, a: seq<Op<V>>, b: seq<Op<V>>)
    ensures RunDb(db, a + b) == RunDb(RunDb(db, a), b)
    decreases |a|
  {
    if a == [] {
      assert a + b == b;
    } else {
      TailOfConcat(a, b);
      RunDbConcat(Step(db, a[0]), a[1..], b);
    }
  }

  /** Changes open and close no session. */
  lemma {:induction false} ChangesKeepDepth<V>(db: Db<V>, ops: seq<Op<V>>)
    requires AreChanges(ops)
    ensures |RunDb(db, ops).layers| == |db.layers| && RunDb(db, ops).revision == db.revision
    ensures db.layers != [] ==> Below(RunDb(db, ops)) == Below(db)
    decreases |ops|
  {
    if ops != [] {
      assert IsChange(ops[0]);
      ChangesKeepDepth(Step(db, ops[0]), ops[1..]);
    }
  }

  // ------------------------------------------------------------------
  // Runs that end every session they start
  // ------------------------------------------------------------------

  lemma {:induction false} RunIsRunDb<V>(w: Watched<V>, ops: seq<Op<V>>)
    requires |w.marks| == |w.db.layers|
    ensures Run(w, ops).db == RunDb(w.db, ops)
    decreases |ops|
  {
    if ops != [] { RunIsRunDb(WatchedStep(w, ops[0]), ops[1..]); }
  }

  lemma {:induction false} ChangesStayInside<V>(db: Db<V>, ops: seq<Op<V>>, depth: nat)
    requires AreChanges(ops) && |db.layers| >= depth
    ensures Inside(db, ops, depth)
    decreases |ops|
  {
    if ops != [] {
      assert IsChange(ops[0]);
      ChangesStayInside(Step(db, ops[0]), ops[1..], depth);
    }
  }

  /** Without a removal nothing is ever lost. */
  lemma {:induction false} NoRemovalLosesNothing<V>(w: Watched<V>, ops: seq<Op<V>>)
    requires |w.marks| == |w.db.layers| && AreChanges(ops)
    requires forall i :: 0 <= i < |ops| ==> !ops[i].Remove?
    ensures Run(w, ops).marks == w.marks
    decreases |ops|
  {
    if ops != [] {
      assert IsChange(ops[0]);
      NoRemovalLosesNothing(WatchedStep(w, ops[0]), ops[1..]);
    }
  }

  /** A run that ends every session it starts, and no other. */
  predicate Neutral<V>(db: Db<V>, ops: seq<Op<V>>) {
    && Inside(db, ops, |db.layers|)
    && |RunDb(db, ops).layers| == |db.layers| && RunDb(db, ops).revision == db.revision
  }

  lemma {:induction false} InsideConcat<V>(db: Db<V>, a: seq<Op<V>>, b: seq<Op<V>>, depth: nat)
    requires Inside(db, a, depth) && Inside(RunDb(db, a), b, depth)
    ensures Inside(db, a + b, depth)
    decreases |a|
  {
    if a == [] {
      assert a + b == b;
    } else {
      TailOfConcat(a, b);
      InsideConcat(Step(db, a[0]), a[1..], b, depth);
    }
  }

  lemma {:induction false} InsideDeeper<V>(db: Db<V>, ops: seq<Op<V>>, depth: nat)
    requires Inside(db, ops, depth + 1)
    ensures Inside(db, ops, depth)
    decreases |ops|
  {
    if ops != [] { InsideDeeper(Step(db, ops[0]), ops[1..], depth); }
  }

  lemma ChangesNeutral<V>(db: Db<V>, ops: seq<Op<V>>)
    requires AreChanges(ops)
    ensures Neutral(db, ops)
  {
    ChangesStayInside(db, ops, |db.layers|);
    ChangesKeepDepth(db, ops);
  }

  lemma NeutralConcat<V>(db: Db<V>, a: seq<Op<V>>, b: seq<Op<V>>)
    requires Neutral(db, a) && Neutral(RunDb(db, a), b)
    ensures Neutral(db, a + b) && RunDb(db, a + b) == RunDb(RunDb(db, a), b)
  {
    InsideConcat(db, a, b, |db.layers|);
    RunDbConcat(db, a, b);
  }

  /** A session around a run: squashed into the session below, or undone. */
  function SessionOps<V>(ops: seq<Op<V>>, keep: bool): seq<Op<V>> {
    [Op<V>.Start] + ops + [if keep then Op<V>.Squash else Op<V>.Undo]
  }

  lemma SessionParts<V>(ops: seq<Op<V>>, keep: bool)
    ensures SessionOps(ops, keep)[0] == Op<V>.Start
    ensures SessionOps(ops, keep)[1..] == ops + [if keep then Op<V>.Squash else Op<V>.Undo]
  {
  }

  lemma SessionRun<V>(db: Db<V>, ops: seq<Op<V>>, keep: bool)
    ensures RunDb(db, SessionOps(ops, keep)) ==
            Step(RunDb(Step(db, Op<V>.Start), ops), if keep then Op<V>.Squash else Op<V>.Undo)
  {
    var end := if keep then Op<V>.Squash else Op<V>.Undo;
    SessionParts(ops, keep);
    RunDbSnoc(Step(db, Op<V>.Start), ops, end);
  }

  /** Starting a session and making a neutral run in it leaves that session open. */
  lemma OpenSession<V>(db: Db<V>, ops: seq<Op<V>>)
    requires Neutral(Step(db, Op<V>.Start), ops)
    ensures Inside(db, [Op<V>.Start] + ops, |db.layers|) && RunDb(db, [Op<V>.Start] + ops) == RunDb(Step(db, Op<V>.Start), ops)
  {
    var start := Step(db, Op<V>.Start);
    StartAlone(db);
    InsideDeeper(start, ops, |db.layers|);
    InsideConcat(db, [Op<V>.Start], ops, |db.layers|);
    RunDbConcat(db, [Op<V>.Start], ops);
  }

  lemma StartAlone<V>(db: Db<V>)
    ensures RunDb(db, [Op<V>.Start]) == Step(db, Op<V>.Start) && Inside(db, [Op<V>.Start], |db.layers|)
  {
    assert [Op<V>.Start][1..] == [];
    assert RunDb(db, [Op<V>.Start]) == RunDb(Step(db, Op<V>.Start), []);
    assert Inside(Step(db, Op<V>.Start), [], |db.layers|);
  }

  lemma EndAlone<V>(db: Db<V>, end: Op<V>, depth: nat)
    requires (end == Op<V>.Squash || end == Op<V>.Undo) && |db.layers| == depth + 1
    ensures Inside(db, [end], depth)
  {
    assert [end][1..] == [];
    assert Inside(Step(db, end), [], depth);
  }

  lemma SessionNeutral<V>(db: Db<V>, ops: seq<Op<V>>, keep: bool)
    requires Neutral(Step(db, Op<V>.Start), ops)
    ensures Neutral(db, SessionOps(ops, keep))
  {
    var end := if keep then Op<V>.Squash else Op<V>.Undo;
    OpenSession(db, ops);
    EndAlone(RunDb(db, [Op<V>.Start] + ops), end, |db.layers|);
    InsideConcat(db, [Op<V>.Start] + ops, [end], |db.layers|);
    SessionRun(db, ops, keep);
  }

  // ------------------------------------------------------------------
  // What an undone session leaves
  // ------------------------------------------------------------------

  /** An undone session is taken back, whatever sessions were nested in it: layers and revision are as before,
      and so is each object, except one that was modified and then removed, which keeps its modification. */
  lemma UndoneSession<V>(w: Watched<V>, ops: seq<Op<V>>, k: Key)
    requires Wf(w.db) && Kept(w)
    requires Neutral(Step(w.db, Op<V>.Start), ops) && FaithfulRun(Step(w.db, Op<V>.Start), ops)
    ensures SessionBody(w, ops)
    ensures var u := RunDb(w.db, SessionOps(ops, false));
            var lost := SessionEnd(w, ops).marks[|w.db.layers|].lost;
            && u.layers == w.db.layers && u.revision == w.db.revision
            && Get(u.store, k) == (if k in lost then Some(lost[k]) else Get(w.db.store, k))
  {
    var start := WatchedStep(w, Op<V>.Start);
    RunIsRunDb(start, ops);
    SessionRun(w.db, ops, false);
    SessionUndoes(w, ops, k);
  }

  /** The changes of an undone transaction without a removal are taken back completely. */
  lemma UndoneChanges<V>(w: Watched<V>, ops: seq<Op<V>>, k: Key)
    requires Wf(w.db) && Kept(w) && AreChanges(ops) && FaithfulRun(Step(w.db, Op<V>.Start), ops)
    requires forall i :: 0 <= i < |ops| ==> !ops[i].Remove?
    ensures Get(RunDb(w.db, SessionOps(ops, false)).store, k) == Get(w.db.store, k)
  {
    ChangesNeutral(Step(w.db, Op<V>.Start), ops);
    UndoneSession(w, ops, k);
    NoRemovalLosesNothing(WatchedStep(w, Op<V>.Start), ops);
  }

  // ------------------------------------------------------------------
  // Transactions and blocks
  // ------------------------------------------------------------------

  /** A transaction: what it changes, whether it fails, and whether it carries extensions. */
  datatype Trx<V> = Trx(ops: seq<Op<V>>, fails: bool, extensions: bool)

  /** A scheduled transaction and everything its course depends on: the changes that take it off the
      schedule, whether it is due or expired, the error handler of its sender, whether a failure counts as
      subjective, and the billing of a hard failure. */
  datatype Scheduled<V> = Scheduled(
    removal: seq<Op<V>>, ready: bool, expired: bool, trx: Trx<V>,
    hasSender: bool, onError: seq<Op<V>>, onErrorFails: bool,
    subjective: bool, finallySubjective: bool, billing: seq<Op<V>>, billingThrows: bool)
  {
    predicate HardFails() {
      trx.fails && !(!subjective && hasSender && !onErrorFails) && !finallySubjective
    }

    /** Its own session is started and never ended. */
    predicate Abandons() {
      ready && !expired && trx.extensions
    }

    /** Its changes are squashed into the pending block: those of the transaction, of its error handler, or of
        its billing. */
    predicate Keeps() {
      ready && (expired || !trx.fails || (!subjective && hasSender && !onErrorFails) || (HardFails() && !billingThrows))
    }

    /** Its trace carries an exception. */
    predicate Fails() {
      ready && !expired && trx.fails && !(!subjective && hasSender && !onErrorFails)
    }

    predicate Throws() {
      !ready || (!expired && (trx.extensions || (HardFails() && billingThrows)))
    }
  }

  /** One transaction of a block; `mismatch` says that its receipt is not the one in the block. Only a scheduled
      transaction may fail, and only when the block says so. */
  datatype Item<V> =
    | Plain(trx: Trx<V>, mismatch: bool)
    | Deferred(scheduled: Scheduled<V>, mayFail: bool, mismatch: bool)

  /** A block: the promotion of a proposed schedule, the transaction every block starts with, the other opening
      changes, its transactions, and the changes of its closing (limits, usage, block summary). Each part may throw
      after the changes listed for it. */
  datatype Body<V> = Body(
    promotion: seq<Op<V>>, promotionThrows: bool, onBlock: Trx<V>, opening: seq<Op<V>>, openingThrows: bool,
    items: seq<Item<V>>, closing: seq<Op<V>>, closingThrows: bool)
  {
    predicate OpeningFails() {
      promotionThrows || openingThrows
    }

    predicate SoundOpening() {
      AreChanges(promotion) && AreChanges(onBlock.ops) && AreChanges(opening) && !onBlock.extensions
    }

    /** Transactions change objects. */
    predicate Sound() {
      SoundOpening() && AreChanges(closing) && forall i :: 0 <= i < |items| ==> SoundItem(items[i])
    }
  }

  predicate SoundItem<V>(item: Item<V>) {
    match item
    case Plain(trx, _) => AreChanges(trx.ops)
    case Deferred(t, _, _) =>
      AreChanges(t.removal) && AreChanges(t.trx.ops) && AreChanges(t.onError) && AreChanges(t.billing)
  }

  /** The transaction is refused over its extensions, and leaves a session behind. */
  predicate Leaky<V>(item: Item<V>) {
    match item
    case Plain(trx, _) => trx.extensions
    case Deferred(t, _, _) => t.Abandons()
  }

  /** A transaction in a session of its own. With extensions it is refused after its session was started. */
  function TrxOps<V>(trx: Trx<V>, discard: bool): seq<Op<V>> {
    if trx.extensions then [Op<V>.Start] else SessionOps(trx.ops, !trx.fails && !discard)
  }

  /** A scheduled transaction that is due, with the error handler of its sender and the billing of a failure. */
  function AttemptOps<V>(t: Scheduled<V>): seq<Op<V>> {
    SessionOps(t.trx.ops, !t.trx.fails) + HandlerOps(t) + (if t.HardFails() then t.billing else [])
  }

  function HandlerOps<V>(t: Scheduled<V>): seq<Op<V>> {
    if t.trx.fails && !t.subjective && t.hasSender then SessionOps(t.onError, !t.onErrorFails) else []
  }

  /** What a scheduled transaction does in its outer session. */
  function ScheduledBody<V>(t: Scheduled<V>): seq<Op<V>> {
    t.removal + (if !t.ready || t.expired then [] else AttemptOps(t))
  }

  function ScheduledOps<V>(t: Scheduled<V>): seq<Op<V>> {
    if t.Abandons() then [Op<V>.Start] + t.removal + [Op<V>.Start, Op<V>.Undo] else SessionOps(ScheduledBody(t), t.Keeps())
  }

  function ItemOps<V>(item: Item<V>): seq<Op<V>> {
    match item
    case Plain(trx, _) => TrxOps(trx, false)
    case Deferred(t, _, _) => ScheduledOps(t)
  }

  /** What such a transaction does in the session it leaves behind. */
  function LeakOps<V>(item: Item<V>): seq<Op<V>> {
    match item
    case Plain(trx, _) => []
    case Deferred(t, _, _) => t.removal + [Op<V>.Start, Op<V>.Undo]
  }

  function ItemsOps<V>(items: seq<Item<V>>): seq<Op<V>> {
    if items == [] then [] else ItemsOps(items[..|items| - 1]) + ItemOps(items[|items| - 1])
  }

  /** The transaction throws, fails although it must not, adds no receipt, or one that is not the block's. */
  predicate BadItem<V>(item: Item<V>) {
    match item
    case Plain(trx, mismatch) => trx.extensions || trx.fails || mismatch
    case Deferred(t, mayFail, mismatch) => t.Throws() || (t.Fails() && !mayFail) || !t.Keeps() || mismatch
  }

  /** The position behind the last transaction of a block that is run: the first bad one ends the block. */
  function Reached<V>(items: seq<Item<V>>, i: nat): (r: nat)
    requires i <= |items|
    ensures i <= r <= |items|
    decreases |items| - i
  {
    if i == |items| then i else if BadItem(items[i]) then i + 1 else Reached(items, i + 1)
  }

  predicate AnyBad<V>(items: seq<Item<V>>, i: nat)
    requires i <= |items|
    decreases |items| - i
  {
    i < |items| && (BadItem(items[i]) || AnyBad(items, i + 1))
  }

  /** A block fails when its opening, one of its transactions or its closing does. */
  predicate BlockFails<V>(b: Body<V>) {
    b.OpeningFails() || AnyBad(b.items, 0) || b.closingThrows
  }

  /** One of the transactions that are run leaves a session behind. */
  predicate LeakyRun<V>(items: seq<Item<V>>) {
    exists i :: 0 <= i < Reached(items, 0) && Leaky(items[i])
  }

  predicate Leaks<V>(b: Body<V>) {
    !b.OpeningFails() && LeakyRun(b.items)
  }

  /** Only the last transaction that is run can do that. */
  lemma LeakIsLast<V>(items: seq<Item<V>>)
    ensures forall i :: 0 <= i < Reached(items, 0) - 1 ==> !Leaky(items[i])
    ensures Reached(items, 0) > 0 && Leaky(items[Reached(items, 0) - 1]) ==> AnyBad(items, 0)
    ensures !AnyBad(items, 0) ==> forall i :: 0 <= i < Reached(items, 0) ==> !Leaky(items[i])
  {
    ReachedMeans(items, 0);
    forall i | 0 <= i < |items| && Leaky(items[i]) ensures BadItem(items[i]) {
    }
  }

  /** The run stops at the first bad transaction, or runs them all. */
  lemma {:induction false} ReachedMeans<V>(items: seq<Item<V>>, i: nat)
    requires i <= |items|
    ensures AnyBad(items, i) <==> exists j :: i <= j < |items| && BadItem(items[j])
    ensures forall j :: i <= j < Reached(items, i) - 1 ==> !BadItem(items[j])
    ensures if AnyBad(items, i) then Reached(items, i) > i && BadItem(items[Reached(items, i) - 1]) else Reached(items, i) == |items|
    decreases |items| - i
  {
    if i < |items| { ReachedMeans(items, i + 1); }
  }

  function OpeningOps<V>(b: Body<V>): seq<Op<V>> {
    b.promotion + if b.promotionThrows then [] else TrxOps(b.onBlock, false) + b.opening
  }

  /** What the transactions and the closing of a block do, up to and including the first bad transaction. */
  function RestOps<V>(b: Body<V>): seq<Op<V>> {
    ItemsOps(b.items[..Reached(b.items, 0)]) + if AnyBad(b.items, 0) then [] else b.closing
  }

  /** What a block does in its session. */
  function BlockBody<V>(b: Body<V>): seq<Op<V>> {
    OpeningOps(b) + if b.OpeningFails() then [] else RestOps(b)
  }

  lemma TrxNeutral<V>(db: Db<V>, trx: Trx<V>, discard: bool)
    requires AreChanges(trx.ops) && !trx.extensions
    ensures Neutral(db, TrxOps(trx, discard))
  {
    ChangesNeutral(Step(db, Op<V>.Start), trx.ops);
    SessionNeutral(db, trx.ops, !trx.fails && !discard);
  }

  lemma AttemptNeutral<V>(db: Db<V>, t: Scheduled<V>)
    requires AreChanges(t.trx.ops) && AreChanges(t.onError) && AreChanges(t.billing)
    ensures Neutral(db, AttemptOps(t))
  {
    var first, handler, billing := SessionOps(t.trx.ops, !t.trx.fails), HandlerOps(t), if t.HardFails() then t.billing else [];
    ChangesNeutral(Step(db, Op<V>.Start), t.trx.ops);
    SessionNeutral(db, t.trx.ops, !t.trx.fails);
    var db1 := RunDb(db, first);
    ChangesNeutral(Step(db1, Op<V>.Start), t.onError);
    SessionNeutral(db1, t.onError, !t.onErrorFails);
    ChangesNeutral(db1, []);
    NeutralConcat(db, first, handler);
    ChangesNeutral(RunDb(db, first + handler), billing);
    NeutralConcat(db, first + handler, billing);
  }

  lemma ScheduledBodyNeutral<V>(db: Db<V>, t: Scheduled<V>)
    requires AreChanges(t.removal) && AreChanges(t.trx.ops) && AreChanges(t.onError) && AreChanges(t.billing)
    ensures Neutral(db, ScheduledBody(t))
  {
    var rest := if !t.ready || t.expired then [] else AttemptOps(t);
    ChangesNeutral(db, t.removal);
    AttemptNeutral(RunDb(db, t.removal), t);
    ChangesNeutral(RunDb(db, t.removal), []);
    NeutralConcat(db, t.removal, rest);
  }

  /** Every transaction changes objects, and none leaves a session behind. */
  predicate Tight<V>(items: seq<Item<V>>) {
    forall i :: 0 <= i < |items| ==> SoundItem(items[i]) && !Leaky(items[i])
  }

  lemma ItemNeutral<V>(db: Db<V>, item: Item<V>)
    requires SoundItem(item) && !Leaky(item)
    ensures Neutral(db, ItemOps(item))
  {
    match item
    case Plain(trx, _) => TrxNeutral(db, trx, false);
    case Deferred(t, _, _) =>
      ScheduledBodyNeutral(Step(db, Op<V>.Start), t);
      SessionNeutral(db, ScheduledBody(t), t.Keeps());
  }

  lemma {:induction false} ItemsNeutral<V>(db: Db<V>, items: seq<Item<V>>)
    requires Tight(items)
    ensures Neutral(db, ItemsOps(items))
    decreases |items|
  {
    if items == [] {
      ChangesNeutral(db, []);
    } else {
      var n := |items| - 1;
      ItemsNeutral(db, items[..n]);
      ItemNeutral(RunDb(db, ItemsOps(items[..n])), items[n]);
      NeutralConcat(db, ItemsOps(items[..n]), ItemOps(items[n]));
    }
  }

  lemma OpeningNeutral<V>(db: Db<V>, b: Body<V>)
    requires b.SoundOpening()
    ensures Neutral(db, OpeningOps(b))
  {
    var first, db1 := TrxOps(b.onBlock, false), RunDb(db, b.promotion);
    ChangesNeutral(db, b.promotion);
    TrxNeutral(db1, b.onBlock, false);
    ChangesNeutral(RunDb(db1, first), b.opening);
    NeutralConcat(db1, first, b.opening);
    ChangesNeutral(db1, []);
    NeutralConcat(db, b.promotion, if b.promotionThrows then [] else first + b.opening);
  }

  lemma RestNeutral<V>(db: Db<V>, b: Body<V>)
    requires b.Sound() && forall i :: 0 <= i < Reached(b.items, 0) ==> !Leaky(b.items[i])
    ensures Neutral(db, RestOps(b))
  {
    var run, closing := ItemsOps(b.items[..Reached(b.items, 0)]), if AnyBad(b.items, 0) then [] else b.closing;
    ItemsNeutral(db, b.items[..Reached(b.items, 0)]);
    ChangesNeutral(RunDb(db, run), closing);
    NeutralConcat(db, run, closing);
  }

  lemma LeakNeutral<V>(db: Db<V>, item: Item<V>)
    requires SoundItem(item)
    ensures Neutral(db, LeakOps(item))
  {
    ChangesNeutral(db, []);
    if item.Deferred? {
      var t := item.scheduled;
      ChangesNeutral(db, t.removal);
      var db1 := RunDb(db, t.removal);
      ChangesNeutral(Step(db1, Op<V>.Start), []);
      SessionNeutral(db1, [], false);
      assert SessionOps([], false) == [Op<V>.Start, Op<V>.Undo];
      NeutralConcat(db, t.removal, [Op<V>.Start, Op<V>.Undo]);
    }
  }

  /** What a block that leaves a session behind does before the transaction that does it. */
  function LeadOps<V>(b: Body<V>): seq<Op<V>>
    requires Leaks(b)
  {
    OpeningOps(b) + ItemsOps(b.items[..Reached(b.items, 0) - 1])
  }

  function LeakingItem<V>(b: Body<V>): Item<V>
    requires Leaks(b)
  {
    b.items[Reached(b.items, 0) - 1]
  }

  lemma LeakSplit<V>(b: Body<V>)
    requires Leaks(b)
    ensures Leaky(LeakingItem(b)) && BlockBody(b) == LeadOps(b) + ([Op<V>.Start] + LeakOps(LeakingItem(b)))
  {
    var n := Reached(b.items, 0) - 1;
    LeakIsLast(b.items);
    assert Leaky(b.items[n]);
    LeakyOps(b.items[n]);
    RestIs(b, n);
    Regroup(OpeningOps(b), ItemsOps(b.items[..n]), ItemOps(b.items[n]));
  }

  lemma RestIs<V>(b: Body<V>, n: nat)
    requires n + 1 == Reached(b.items, 0) && AnyBad(b.items, 0)
    ensures RestOps(b) == ItemsOps(b.items[..n]) + ItemOps(b.items[n])
  {
    ItemsSnoc(b.items, n);
    assert ItemsOps(b.items[..n + 1]) + [] == ItemsOps(b.items[..n + 1]);
  }

  lemma ItemsSnoc<V>(items: seq<Item<V>>, n: nat)
    requires n < |items|
    ensures ItemsOps(items[..n + 1]) == ItemsOps(items[..n]) + ItemOps(items[n])
  {
    var run := items[..n + 1];
    assert run[..|run| - 1] == items[..n] && run[|run| - 1] == items[n];
  }

  lemma Regroup<T>(a: seq<T>, b: seq<T>, c: seq<T>)
    ensures a + (b + c) == (a + b) + c
  {
  }

  lemma LeakyOps<V>(item: Item<V>)
    requires Leaky(item)
    ensures ItemOps(item) == [Op<V>.Start] + LeakOps(item)
  {
  }

  lemma LeadSound<V>(items: seq<Item<V>>)
    requires Reached(items, 0) > 0 && forall i :: 0 <= i < |items| ==> SoundItem(items[i])
    ensures Tight(items[..Reached(items, 0) - 1])
  {
    LeakIsLast(items);
  }

  lemma LeadNeutral<V>(db: Db<V>, b: Body<V>)
    requires b.Sound() && Leaks(b)
    ensures Neutral(db, LeadOps(b))
  {
    LeadSound(b.items);
    OpeningThen(db, b, b.items[..Reached(b.items, 0) - 1]);
  }

  lemma OpeningThen<V>(db: Db<V>, b: Body<V>, items: seq<Item<V>>)
    requires b.SoundOpening() && Tight(items)
    ensures Neutral(db, OpeningOps(b) + ItemsOps(items))
  {
    OpeningNeutral(db, b);
    ItemsNeutral(RunDb(db, OpeningOps(b)), items);
    NeutralConcat(db, OpeningOps(b), ItemsOps(items));
  }

  /** A run of a block ends every session it starts, if and only if no transaction that is run leaves one behind;
      otherwise exactly one is left. */
  lemma BlockBodyNeutral<V>(db: Db<V>, b: Body<V>)
    requires b.Sound()
    ensures Inside(db, BlockBody(b), |db.layers|)
    ensures Neutral(db, BlockBody(b)) <==> !Leaks(b)
    ensures var end := RunDb(db, BlockBody(b)); var left := if Leaks(b) then 1 else 0;
            |end.layers| == |db.layers| + left && end.revision == db.revision + left
  {
    if Leaks(b) {
      LeakingBody(db, b);
    } else {
      OpeningNeutral(db, b);
      var db1 := RunDb(db, OpeningOps(b));
      if !b.OpeningFails() { RestNeutral(db1, b); }
      ChangesNeutral(db1, []);
      NeutralConcat(db, OpeningOps(b), if b.OpeningFails() then [] else RestOps(b));
    }
  }

  lemma LeakingBody<V>(db: Db<V>, b: Body<V>)
    requires b.Sound() && Leaks(b)
    ensures Inside(db, BlockBody(b), |db.layers|)
    ensures var end := RunDb(db, BlockBody(b)); |end.layers| == |db.layers| + 1 && end.revision == db.revision + 1
  {
    var lead, leak := LeadOps(b), LeakOps(LeakingItem(b));
    LeakSplit(b);
    LeadNeutral(db, b);
    var db1 := RunDb(db, lead);
    LeakNeutral(Step(db1, Op<V>.Start), LeakingItem(b));
    OpenSession(db1, leak);
    InsideConcat(db, lead, [Op<V>.Start] + leak, |db.layers|);
    RunDbConcat(db, lead, [Op<V>.Start] + leak);
  }

  /** A scheduled transaction that is undone leaves the database as it was, up to lost objects, although its
      error handler and billing may have run in between. */
  lemma UndoneScheduled<V>(w: Watched<V>, t: Scheduled<V>, k: Key)
    requires Wf(w.db) && Kept(w) && SoundItem(Deferred(t, false, false)) && !t.Abandons() && !t.Keeps()
    requires FaithfulRun(Step(w.db, Op<V>.Start), ScheduledBody(t))
    ensures SessionBody(w, ScheduledBody(t))
    ensures var u := RunDb(w.db, ScheduledOps(t));
            var lost := SessionEnd(w, ScheduledBody(t)).marks[|w.db.layers|].lost;
            && u.layers == w.db.layers && u.revision == w.db.revision
            && Get(u.store, k) == (if k in lost then Some(lost[k]) else Get(w.db.store, k))
  {
    ScheduledBodyNeutral(Step(w.db, Op<V>.Start), t);
    UndoneSession(w, ScheduledBody(t), k);
  }

  /** A block that fails, at whatever point, leaves the database as it was, up to objects that the part run so far
      modified and then removed, if and only if no transaction that was run left a session behind. */
  lemma FailedBlockRestores<V>(w: Watched<V>, b: Body<V>, k: Key)
    requires Wf(w.db) && Kept(w) && b.Sound() && FaithfulRun(Step(w.db, Op<V>.Start), BlockBody(b))
    ensures !Leaks(b) ==> SessionBody(w, BlockBody(b))
    ensures var u := RunDb(w.db, SessionOps(BlockBody(b), false));
            && (u.layers == w.db.layers <==> !Leaks(b)) && (u.revision == w.db.revision <==> !Leaks(b))
            && (!Leaks(b) ==> var lost := SessionEnd(w, BlockBody(b)).marks[|w.db.layers|].lost;
                              Get(u.store, k) == (if k in lost then Some(lost[k]) else Get(w.db.store, k)))
  {
    AbortedDepth(w.db, b);
    if !Leaks(b) {
      BlockBodyNeutral(Step(w.db, Op<V>.Start), b);
      UndoneSession(w, BlockBody(b), k);
    }
  }

  lemma AbortedDepth<V>(db: Db<V>, b: Body<V>)
    requires b.Sound()
    ensures var u, left := RunDb(db, SessionOps(BlockBody(b), false)), if Leaks(b) then 1 else 0;
            |u.layers| == |db.layers| + left && u.revision == db.revision + left
  {
    BlockBodyNeutral(Step(db, Op<V>.Start), b);
    SessionRun(db, BlockBody(b), false);
    StepDepth(RunDb(Step(db, Op<V>.Start), BlockBody(b)), Op<V>.Undo);
  }

  lemma {:induction false} FaithfulConcat<V>(db: Db<V>, a: seq<Op<V>>, b: seq<Op<V>>)
    requires FaithfulRun(db, a + b)
    ensures FaithfulRun(db, a) && FaithfulRun(RunDb(db, a), b)
    decreases |a|
  {
    if a == [] {
      assert a + b == b;
    } else {
      TailOfConcat(a, b);
      FaithfulConcat(Step(db, a[0]), a[1..], b);
    }
  }

  lemma LeadFaithful<V>(db: Db<V>, b: Body<V>)
    requires Leaks(b) && FaithfulRun(db, BlockBody(b))
    ensures FaithfulRun(db, LeadOps(b)) && FaithfulRun(Step(RunDb(db, LeadOps(b)), Op<V>.Start), LeakOps(LeakingItem(b)))
  {
    var leak := LeakOps(LeakingItem(b));
    LeakSplit(b);
    FaithfulConcat(db, LeadOps(b), [Op<V>.Start] + leak);
    assert ([Op<V>.Start] + leak)[1..] == leak;
  }

  lemma LeakedRun<V>(db: Db<V>, b: Body<V>)
    requires Leaks(b)
    ensures RunDb(db, SessionOps(BlockBody(b), false)) ==
            RunDb(RunDb(Step(db, Op<V>.Start), LeadOps(b)), SessionOps(LeakOps(LeakingItem(b)), false))
  {
    var start, lead, leak := Step(db, Op<V>.Start), LeadOps(b), LeakOps(LeakingItem(b));
    LeakSplit(b);
    SessionRun(db, BlockBody(b), false);
    RunDbConcat(start, lead, [Op<V>.Start] + leak);
    SessionRun(RunDb(start, lead), leak, false);
    assert ([Op<V>.Start] + leak)[1..] == leak;
  }

  /** A block in which a transaction leaves a session behind: aborting it undoes that session and no more. The session of
      the block stays open, with everything done before that transaction. */
  lemma LeakedBlockStays<V>(w: Watched<V>, b: Body<V>, k: Key)
    requires Wf(w.db) && Kept(w) && b.Sound() && Leaks(b) && FaithfulRun(Step(w.db, Op<V>.Start), BlockBody(b))
    ensures var start := WatchedStep(w, Op<V>.Start); SessionBody(Run(start, LeadOps(b)), LeakOps(LeakingItem(b)))
    ensures var lead := Run(WatchedStep(w, Op<V>.Start), LeadOps(b));
            var u := RunDb(w.db, SessionOps(BlockBody(b), false));
            var lost := SessionEnd(lead, LeakOps(LeakingItem(b))).marks[|lead.db.layers|].lost;
            && u.layers == lead.db.layers && |u.layers| == |w.db.layers| + 1 && u.revision == w.db.revision + 1
            && Get(u.store, k) == (if k in lost then Some(lost[k]) else Get(lead.db.store, k))
  {
    var start := WatchedStep(w, Op<V>.Start);
    StartOpens(w);
    LeadFaithful(start.db, b);
    RunKeepsPromises(start, LeadOps(b));
    RunIsRunDb(start, LeadOps(b));
    LeadNeutral(start.db, b);
    var lead := Run(start, LeadOps(b));
    LeakNeutral(Step(lead.db, Op<V>.Start), LeakingItem(b));
    UndoneSession(lead, LeakOps(LeakingItem(b)), k);
    LeakedRun(w.db, b);
  }
}
