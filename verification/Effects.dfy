/** What transactions and blocks leave in the database, told from their changes alone: the changes of everything that is
    kept, one after the other, as if there were no sessions. A part that is undone appears as a session of its own,
    `SessionOps(ops, false)`, which restores every object up to those it modified and then removed, and uses up ids. */
module Effects {
  import opened Options
  import opened Traces
  import opened UndoLaws
  import opened UndoLog

  /** The same objects, and the same ids to be handed out next. */
  predicate SameFront<V(==)>(db: Db<V>, q: Db<V>) {
    db.store == q.store && db.nextId == q.nextId
  }

  // ------------------------------------------------------------------
  // Changes do not see the layers
  // ------------------------------------------------------------------

  lemma ChangeSame<V>(db: Db<V>, q: Db<V>, op: Op<V>)
    requires SameFront(db, q) && IsChange(op)
    ensures SameFront(Step(db, op), Step(q, op))
  {
  }

  lemma {:induction false} ChangesSame<V>(db: Db<V>, q: Db<V>, ops: seq<Op<V>>)
    requires SameFront(db, q) && AreChanges(ops)
    ensures SameFront(RunDb(db, ops), RunDb(q, ops))
    decreases |ops|
  {
    if ops != [] {
      assert IsChange(ops[0]);
      ChangeSame(db, q, ops[0]);
      ChangesSame(Step(db, ops[0]), Step(q, ops[0]), ops[1..]);
    }
  }

  /** The newest layers hold the same records. */
  ghost predicate SameTop<V>(db: Db<V>, q: Db<V>) {
    && db.layers != [] && q.layers != []
    && Top(db).added == Top(q).added && Top(db).edited == Top(q).edited && Top(db).removed == Top(q).removed
  }

  lemma TopOfRecorded<V>(db: Db<V>, l: Layer<V>)
    requires db.layers != []
    ensures Recorded(db, l) != [] && Recorded(db, l)[|Recorded(db, l)| - 1] == l
  {
  }

  lemma ChangeSameTop<V>(db: Db<V>, q: Db<V>, op: Op<V>)
    requires SameFront(db, q) && SameTop(db, q) && IsChange(op)
    ensures SameFront(Step(db, op), Step(q, op)) && SameTop(Step(db, op), Step(q, op))
  {
    match op
    case Insert(kind, v) =>
      TopOfRecorded(db, AfterInsert(Top(db), FreshKey(db, kind), v));
      TopOfRecorded(q, AfterInsert(Top(q), FreshKey(q, kind), v));
    case Modify(k, was, now) =>
      TopOfRecorded(db, AfterModify(Top(db), k, was, now));
      TopOfRecorded(q, AfterModify(Top(q), k, was, now));
    case Remove(k, copy) =>
      TopOfRecorded(db, AfterRemove(Top(db), k, copy));
      TopOfRecorded(q, AfterRemove(Top(q), k, copy));
  }

  lemma {:induction false} ChangesSameTop<V>(db: Db<V>, q: Db<V>, ops: seq<Op<V>>)
    requires SameFront(db, q) && SameTop(db, q) && AreChanges(ops)
    ensures SameFront(RunDb(db, ops), RunDb(q, ops)) && SameTop(RunDb(db, ops), RunDb(q, ops))
    decreases |ops|
  {
    if ops != [] {
      assert IsChange(ops[0]);
      ChangeSameTop(db, q, ops[0]);
      ChangesSameTop(Step(db, ops[0]), Step(q, ops[0]), ops[1..]);
    }
  }

  lemma UndoSameTop<V>(db: Db<V>, q: Db<V>)
    requires SameFront(db, q) && SameTop(db, q)
    ensures SameFront(Step(db, Op<V>.Undo), Step(q, Op<V>.Undo))
  {
    SameMaps(UndoStore(Top(db), db.store), UndoStore(Top(q), q.store));
  }

  /** An undone session does the same whatever layers are below it. */
  lemma UndoneSame<V>(db: Db<V>, q: Db<V>, ops: seq<Op<V>>)
    requires SameFront(db, q) && AreChanges(ops)
    ensures SameFront(RunDb(db, SessionOps(ops, false)), RunDb(q, SessionOps(ops, false)))
  {
    SessionRun(db, ops, false);
    SessionRun(q, ops, false);
    var x, y := Step(db, Op<V>.Start), Step(q, Op<V>.Start);
    ChangesSameTop(x, y, ops);
    UndoSameTop(RunDb(x, ops), RunDb(y, ops));
  }

  /** Starting and squashing a session moves no object. */
  lemma StartSquashSame<V>(db: Db<V>)
    ensures SameFront(Step(db, Op<V>.Start), db) && SameFront(Step(db, Op<V>.Squash), db)
  {
  }

  /** A squashed session leaves what its changes leave without it. */
  lemma KeptSame<V>(db: Db<V>, q: Db<V>, ops: seq<Op<V>>)
    requires SameFront(db, q) && AreChanges(ops)
    ensures SameFront(RunDb(db, SessionOps(ops, true)), RunDb(q, ops))
  {
    SessionRun(db, ops, true);
    StartSquashSame(db);
    ChangesSame(Step(db, Op<V>.Start), q, ops);
    StartSquashSame(RunDb(Step(db, Op<V>.Start), ops));
  }

  // ------------------------------------------------------------------
  // Transactions
  // ------------------------------------------------------------------

  /** A transaction that neither fails nor is discarded leaves its changes; any other is undone. */
  lemma TrxLeaves<V>(db: Db<V>, q: Db<V>, trx: Trx<V>, discard: bool)
    requires SameFront(db, q) && AreChanges(trx.ops) && !trx.extensions
    ensures SameFront(RunDb(db, TrxOps(trx, discard)), RunDb(q, if trx.fails || discard then SessionOps(trx.ops, false) else trx.ops))
    ensures trx.fails || discard ==> TrxOps(trx, discard) == SessionOps(trx.ops, false)
  {
    if trx.fails || discard { UndoneSame(db, q, trx.ops); } else { KeptSame(db, q, trx.ops); }
  }

  /** A transaction that fails or is discarded leaves every object as it was, up to those it modified and then removed. */
  lemma FailedTrxRestores<V>(w: Watched<V>, trx: Trx<V>, discard: bool, k: Key)
    requires Wf(w.db) && Kept(w) && AreChanges(trx.ops) && !trx.extensions && (trx.fails || discard)
    requires FaithfulRun(Step(w.db, Op<V>.Start), trx.ops)
    ensures SessionBody(w, trx.ops)
    ensures var u := RunDb(w.db, TrxOps(trx, discard));
            var lost := SessionEnd(w, trx.ops).marks[|w.db.layers|].lost;
            && u.layers == w.db.layers && u.revision == w.db.revision
            && Get(u.store, k) == (if k in lost then Some(lost[k]) else Get(w.db.store, k))
  {
    ChangesNeutral(Step(w.db, Op<V>.Start), trx.ops);
    UndoneSession(w, trx.ops, k);
  }

  lemma {:induction false} ModifyingKeepsIds<V>(db: Db<V>, ops: seq<Op<V>>)
    requires forall i :: 0 <= i < |ops| ==> ops[i].Modify?
    ensures RunDb(db, ops).nextId == db.nextId
    decreases |ops|
  {
    if ops != [] { ModifyingKeepsIds(Step(db, ops[0]), ops[1..]); }
  }

  lemma UndoneIds<V>(db: Db<V>, ops: seq<Op<V>>)
    requires forall i :: 0 <= i < |ops| ==> ops[i].Modify?
    ensures RunDb(db, SessionOps(ops, false)).nextId == db.nextId
  {
    SessionRun(db, ops, false);
    ModifyingKeepsIds(Step(db, Op<V>.Start), ops);
  }

  /** A session that only modified objects is undone without a trace. */
  lemma UndoneModifying<V>(w: Watched<V>, ops: seq<Op<V>>)
    requires Wf(w.db) && Kept(w) && FaithfulRun(Step(w.db, Op<V>.Start), ops)
    requires forall i :: 0 <= i < |ops| ==> ops[i].Modify?
    ensures SameFront(RunDb(w.db, SessionOps(ops, false)), w.db)
  {
    var u := RunDb(w.db, SessionOps(ops, false));
    forall k ensures Get(u.store, k) == Get(w.db.store, k) { UndoneChanges(w, ops, k); }
    SameMaps(u.store, w.db.store);
    UndoneIds(w.db, ops);
  }

  // ------------------------------------------------------------------
  // Scheduled transactions
  // ------------------------------------------------------------------

  lemma PartsSame<V>(db: Db<V>, q: Db<V>, a: seq<Op<V>>, b: seq<Op<V>>, a': seq<Op<V>>, b': seq<Op<V>>)
    requires SameFront(RunDb(RunDb(db, a), b), RunDb(RunDb(q, a'), b'))
    ensures SameFront(RunDb(db, a + b), RunDb(q, a' + b'))
  {
    RunDbConcat(db, a, b);
    RunDbConcat(q, a', b');
  }

  /** The changes a scheduled transaction leaves when its result is kept, by the way it ended: expired, executed, failed
      and handled by its sender, failed and billed. */
  function ScheduledChanges<V>(t: Scheduled<V>): seq<Op<V>> {
    if t.expired then t.removal
    else if !t.trx.fails then t.removal + t.trx.ops
    else if !t.subjective && t.hasSender && !t.onErrorFails then t.removal + SessionOps(t.trx.ops, false) + t.onError
    else t.removal + (SessionOps(t.trx.ops, false) + if t.subjective || !t.hasSender then [] else SessionOps(t.onError, false)) + t.billing
  }

  /** The ways a scheduled transaction that is due and not expired can fail, and what is run on the way. */
  lemma AttemptLeaves<V>(db: Db<V>, q: Db<V>, t: Scheduled<V>)
    requires SameFront(db, q) && AreChanges(t.trx.ops) && AreChanges(t.onError) && AreChanges(t.billing)
    ensures var handled := !t.subjective && t.hasSender && !t.onErrorFails;
            var tried := if t.subjective || !t.hasSender then [] else SessionOps(t.onError, false);
            && (!t.trx.fails ==> SameFront(RunDb(db, AttemptOps(t)), RunDb(q, t.trx.ops)))
            && (t.trx.fails && handled ==> SameFront(RunDb(db, AttemptOps(t)), RunDb(RunDb(q, SessionOps(t.trx.ops, false)), t.onError)))
            && (t.trx.fails && !handled ==>
                  AttemptOps(t) == SessionOps(t.trx.ops, false) + tried + (if t.finallySubjective then [] else t.billing))
  {
    var first, handler := SessionOps(t.trx.ops, !t.trx.fails), HandlerOps(t);
    var last := if t.HardFails() then t.billing else [];
    if !t.trx.fails {
      assert AttemptOps(t) == first;
      KeptSame(db, q, t.trx.ops);
    } else if !t.subjective && t.hasSender && !t.onErrorFails {
      assert AttemptOps(t) == first + handler;
      RunDbConcat(db, first, handler);
      UndoneSame(db, q, t.trx.ops);
      KeptSame(RunDb(db, first), RunDb(q, first), t.onError);
    }
  }

  lemma FailedAttempt<V>(db: Db<V>, q: Db<V>, t: Scheduled<V>, tried: seq<Op<V>>)
    requires SameFront(db, q) && AreChanges(t.trx.ops) && AreChanges(t.onError) && AreChanges(t.billing)
    requires tried == if t.subjective || !t.hasSender then [] else SessionOps(t.onError, false)
    ensures var ops := SessionOps(t.trx.ops, false) + tried + t.billing; SameFront(RunDb(db, ops), RunDb(q, ops))
  {
    var first := SessionOps(t.trx.ops, false);
    UndoneSame(db, q, t.trx.ops);
    if tried != [] { UndoneSame(RunDb(db, first), RunDb(q, first), t.onError); }
    PartsSame(db, q, first, tried, first, tried);
    ChangesSame(RunDb(db, first + tried), RunDb(q, first + tried), t.billing);
    PartsSame(db, q, first + tried, t.billing, first + tried, t.billing);
  }

  /** What a scheduled transaction leaves, by the way it ends. Expired, executed, handled and billed ones leave their
      changes; the others are undone. */
  lemma ScheduledExits<V>(db: Db<V>, q: Db<V>, t: Scheduled<V>)
    requires SameFront(db, q) && !(t.ready && !t.expired && t.trx.extensions)
    requires AreChanges(t.removal) && AreChanges(t.trx.ops) && AreChanges(t.onError) && AreChanges(t.billing)
    ensures var due, handled := t.ready && !t.expired, !t.subjective && t.hasSender && !t.onErrorFails;
            var tried := if t.subjective || !t.hasSender then [] else SessionOps(t.onError, false);
            var failed, end := SessionOps(t.trx.ops, false) + tried, RunDb(db, ScheduledOps(t));
            && (!t.ready ==> ScheduledOps(t) == SessionOps(t.removal, false))
            && (t.ready && t.expired ==> SameFront(end, RunDb(q, t.removal)))
            && (due && !t.trx.fails ==> SameFront(end, RunDb(q, t.removal + t.trx.ops)))
            && (due && t.trx.fails && handled ==> SameFront(end, RunDb(q, t.removal + SessionOps(t.trx.ops, false) + t.onError)))
            && (due && t.trx.fails && !handled && !t.finallySubjective && !t.billingThrows ==>
                  SameFront(end, RunDb(q, t.removal + failed + t.billing)))
            && (due && t.trx.fails && !handled && (t.finallySubjective || t.billingThrows) ==>
                  ScheduledOps(t) == SessionOps(t.removal + (failed + (if t.finallySubjective then [] else t.billing)), false))
  {
    var rest := if !t.ready || t.expired then [] else AttemptOps(t);
    var start := Step(db, Op<V>.Start);
    if !t.ready || t.expired { assert ScheduledBody(t) == t.removal; }
    ChangesSame(start, q, t.removal);
    AttemptLeaves(RunDb(start, t.removal), RunDb(q, t.removal), t);
    if t.Keeps() {
      SessionRun(db, ScheduledBody(t), true);
      RunDbConcat(start, t.removal, rest);
      KeptExits(RunDb(start, t.removal), q, t);
      StartSquashSame(RunDb(start, ScheduledBody(t)));
    }
  }

  lemma KeptExits<V>(removed: Db<V>, q: Db<V>, t: Scheduled<V>)
    requires SameFront(removed, RunDb(q, t.removal)) && t.Keeps() && !t.Abandons()
    requires AreChanges(t.removal) && AreChanges(t.trx.ops) && AreChanges(t.onError) && AreChanges(t.billing)
    ensures SameFront(RunDb(removed, if !t.ready || t.expired then [] else AttemptOps(t)), RunDb(q, ScheduledChanges(t)))
  {
    var first := SessionOps(t.trx.ops, false);
    var tried := if t.subjective || !t.hasSender then [] else SessionOps(t.onError, false);
    AttemptLeaves(removed, RunDb(q, t.removal), t);
    if t.expired {
    } else if !t.trx.fails {
      RunDbConcat(q, t.removal, t.trx.ops);
    } else if !t.subjective && t.hasSender && !t.onErrorFails {
      RunDbConcat(q, t.removal, first);
      RunDbConcat(q, t.removal + first, t.onError);
    } else {
      FailedAttempt(removed, RunDb(q, t.removal), t, tried);
      RunDbConcat(q, t.removal, first + tried + t.billing);
      assert t.removal + (first + tried + t.billing) == t.removal + (first + tried) + t.billing;
    }
  }

  /** A failed transaction that only modified objects leaves no trace beside what its sender's handler does: the removal
      from the schedule and the handler's changes remain. */
  lemma HandledExactly<V>(db: Db<V>, w: Watched<V>, t: Scheduled<V>)
    requires w.db == RunDb(db, t.removal) && Wf(w.db) && Kept(w) && FaithfulRun(Step(w.db, Op<V>.Start), t.trx.ops)
    requires AreChanges(t.onError) && forall i :: 0 <= i < |t.trx.ops| ==> t.trx.ops[i].Modify?
    ensures SameFront(RunDb(db, t.removal + SessionOps(t.trx.ops, false) + t.onError), RunDb(db, t.removal + t.onError))
  {
    var first := SessionOps(t.trx.ops, false);
    UndoneModifying(w, t.trx.ops);
    RunDbConcat(db, t.removal, first);
    ChangesSame(RunDb(db, t.removal + first), w.db, t.onError);
    PartsSame(db, db, t.removal + first, t.onError, t.removal, t.onError);
  }

  // ------------------------------------------------------------------
  // Blocks
  // ------------------------------------------------------------------

  /** The changes a transaction of a block leaves, when the block is applied. */
  function ItemChanges<V>(item: Item<V>): seq<Op<V>> {
    match item
    case Plain(trx, _) => trx.ops
    case Deferred(t, _, _) => ScheduledChanges(t)
  }

  function ItemsChanges<V>(items: seq<Item<V>>): seq<Op<V>> {
    if items == [] then [] else ItemsChanges(items[..|items| - 1]) + ItemChanges(items[|items| - 1])
  }

  lemma GrowByOne<V>(items: seq<Item<V>>, item: Item<V>)
    ensures ItemsChanges(items + [item]) == ItemsChanges(items) + ItemChanges(item)
  {
    assert (items + [item])[..|items|] == items;
  }

  /** The changes of one more transaction come last: all of them, when it is a transaction of its own, */
  lemma PlainGrows<V>(items: seq<Item<V>>, trx: Trx<V>, mismatch: bool)
    ensures ItemsChanges(items + [Item<V>.Plain(trx, mismatch)]) == ItemsChanges(items) + trx.ops
  {
    GrowByOne(items, Item<V>.Plain(trx, mismatch));
  }

  /** and by the way it ended, when it is a scheduled one. */
  lemma DeferredGrows<V>(items: seq<Item<V>>, t: Scheduled<V>, mayFail: bool, mismatch: bool)
    ensures var all := ItemsChanges(items + [Item<V>.Deferred(t, mayFail, mismatch)]);
            var failed := SessionOps(t.trx.ops, false);
            && (t.expired ==> all == ItemsChanges(items) + t.removal)
            && (!t.expired && !t.trx.fails ==> all == ItemsChanges(items) + (t.removal + t.trx.ops))
            && (!t.expired && t.trx.fails && !t.subjective && t.hasSender && !t.onErrorFails ==>
                  all == ItemsChanges(items) + (t.removal + failed + t.onError))
            && (!t.expired && t.trx.fails && !t.subjective && t.hasSender && t.onErrorFails ==>
                  all == ItemsChanges(items) + (t.removal + (failed + SessionOps(t.onError, false)) + t.billing))
            && (!t.expired && t.trx.fails && (t.subjective || !t.hasSender) ==>
                  all == ItemsChanges(items) + (t.removal + failed + t.billing))
  {
    GrowByOne(items, Item<V>.Deferred(t, mayFail, mismatch));
    assert SessionOps(t.trx.ops, false) + [] == SessionOps(t.trx.ops, false);
  }

  /** A transaction does not end its block: it carries no extensions, its receipt is the one in the block, it is due, and it
      succeeds, expires, or fails in a way the block allows. */
  predicate GoodItem<V>(item: Item<V>) {
    match item
    case Plain(trx, mismatch) => !mismatch && !trx.extensions && !trx.fails
    case Deferred(t, mayFail, mismatch) =>
      && !mismatch && t.ready
      && (t.expired ||
          (!t.trx.extensions &&
           (!t.trx.fails || (!t.subjective && t.hasSender && !t.onErrorFails) ||
            (mayFail && !t.finallySubjective && !t.billingThrows))))
  }

  lemma GoodMeans<V>(item: Item<V>)
    ensures GoodItem(item) <==> !BadItem(item)
  {
  }

  lemma ItemLeaves<V>(db: Db<V>, q: Db<V>, item: Item<V>)
    requires SameFront(db, q) && SoundItem(item) && GoodItem(item)
    ensures SameFront(RunDb(db, ItemOps(item)), RunDb(q, ItemChanges(item)))
  {
    match item
    case Plain(trx, _) => TrxLeaves(db, q, trx, false);
    case Deferred(t, _, _) => ScheduledExits(db, q, t);
  }

  lemma {:induction false} ItemsLeave<V>(db: Db<V>, q: Db<V>, items: seq<Item<V>>)
    requires SameFront(db, q) && forall i :: 0 <= i < |items| ==> SoundItem(items[i]) && GoodItem(items[i])
    ensures SameFront(RunDb(db, ItemsOps(items)), RunDb(q, ItemsChanges(items)))
    decreases |items|
  {
    if items != [] {
      var n := |items| - 1;
      ItemsLeave(db, q, items[..n]);
      ItemLeaves(RunDb(db, ItemsOps(items[..n])), RunDb(q, ItemsChanges(items[..n])), items[n]);
      PartsSame(db, q, ItemsOps(items[..n]), ItemOps(items[n]), ItemsChanges(items[..n]), ItemChanges(items[n]));
    }
  }

  /** The changes of the transaction every block starts with. */
  function OnBlockChanges<V>(b: Body<V>): seq<Op<V>> {
    if b.onBlock.fails then SessionOps(b.onBlock.ops, false) else b.onBlock.ops
  }

  /** Everything a block changes, in order. */
  function BlockChanges<V>(b: Body<V>): seq<Op<V>> {
    b.promotion + OnBlockChanges(b) + b.opening + ItemsChanges(b.items) + b.closing
  }

  /** None of the parts of the block fails. */
  predicate GoodBlock<V>(b: Body<V>) {
    !b.promotionThrows && !b.openingThrows && !b.closingThrows && forall i :: 0 <= i < |b.items| ==> GoodItem(b.items[i])
  }

  lemma GoodBlockMeans<V>(b: Body<V>)
    ensures GoodBlock(b) <==> !BlockFails(b)
  {
    ReachedMeans(b.items, 0);
    forall i | 0 <= i < |b.items| ensures GoodItem(b.items[i]) <==> !BadItem(b.items[i]) { GoodMeans(b.items[i]); }
  }

  /** A block leaves a session behind exactly when one of its transactions is refused over its extensions, after all those
      before it were good. */
  lemma LeaksMeans<V>(b: Body<V>)
    ensures Leaks(b) <==> && !b.promotionThrows && !b.openingThrows
                          && exists i :: 0 <= i < |b.items| && (forall j :: 0 <= j < i ==> GoodItem(b.items[j])) &&
                                         if b.items[i].Plain? then b.items[i].trx.extensions
                                         else b.items[i].scheduled.ready && !b.items[i].scheduled.expired &&
                                              b.items[i].scheduled.trx.extensions
  {
    ReachedMeans(b.items, 0);
    LeakIsLast(b.items);
    forall i | 0 <= i < |b.items|
      ensures (GoodItem(b.items[i]) <==> !BadItem(b.items[i])) && (Leaky(b.items[i]) ==> BadItem(b.items[i]))
    {
      GoodMeans(b.items[i]);
    }
  }

  lemma PromotedLeaves<V>(db: Db<V>, q: Db<V>, b: Body<V>)
    requires SameFront(db, q) && b.SoundOpening()
    ensures SameFront(RunDb(db, b.promotion + TrxOps(b.onBlock, false)), RunDb(q, b.promotion + OnBlockChanges(b)))
  {
    ChangesSame(db, q, b.promotion);
    TrxLeaves(RunDb(db, b.promotion), RunDb(q, b.promotion), b.onBlock, false);
    PartsSame(db, q, b.promotion, TrxOps(b.onBlock, false), b.promotion, OnBlockChanges(b));
  }

  lemma OpeningLeaves<V>(db: Db<V>, q: Db<V>, b: Body<V>)
    requires SameFront(db, q) && b.SoundOpening() && !b.promotionThrows
    ensures SameFront(RunDb(db, OpeningOps(b)), RunDb(q, b.promotion + OnBlockChanges(b) + b.opening))
  {
    var first, made := b.promotion + TrxOps(b.onBlock, false), b.promotion + OnBlockChanges(b);
    PromotedLeaves(db, q, b);
    ChangesSame(RunDb(db, first), RunDb(q, made), b.opening);
    PartsSame(db, q, first, b.opening, made, b.opening);
    assert OpeningOps(b) == first + b.opening;
  }

  lemma RestLeaves<V>(db: Db<V>, q: Db<V>, b: Body<V>)
    requires SameFront(db, q) && b.Sound() && GoodBlock(b)
    ensures SameFront(RunDb(db, RestOps(b)), RunDb(q, ItemsChanges(b.items) + b.closing))
  {
    GoodBlockMeans(b);
    ReachedMeans(b.items, 0);
    assert b.items[..Reached(b.items, 0)] == b.items;
    ItemsLeave(db, q, b.items);
    ChangesSame(RunDb(db, ItemsOps(b.items)), RunDb(q, ItemsChanges(b.items)), b.closing);
    PartsSame(db, q, ItemsOps(b.items), b.closing, ItemsChanges(b.items), b.closing);
  }

  /** An applied block leaves the changes of all its parts, in their order. */
  lemma BlockLeaves<V>(db: Db<V>, q: Db<V>, b: Body<V>)
    requires SameFront(db, q) && b.Sound() && GoodBlock(b)
    ensures SameFront(RunDb(db, [Op<V>.Start] + BlockBody(b)), RunDb(q, BlockChanges(b)))
  {
    var start, opening := Step(db, Op<V>.Start), b.promotion + OnBlockChanges(b) + b.opening;
    RunDbConcat(db, [Op<V>.Start], BlockBody(b));
    StartAlone(db);
    OpeningLeaves(start, q, b);
    RestLeaves(RunDb(start, OpeningOps(b)), RunDb(q, opening), b);
    PartsSame(start, q, OpeningOps(b), RestOps(b), opening, ItemsChanges(b.items) + b.closing);
    assert opening + (ItemsChanges(b.items) + b.closing) == BlockChanges(b);
  }
}
