/** Sessions of the controller: every block and every transaction works in a database session of its
    own, and the database revision stays in lockstep with the head block number through every way
    these can end. */
module Lockstep {
  import opened Effects
  import opened Options
  import opened Traces
  import opened UndoDatabase
  import opened UndoLaws
  import opened UndoLog

  // ------------------------------------------------------------------
  // Session handles
  // ------------------------------------------------------------------

  /** A handle on a session; it acts at most once. */
  class Session<V> {
    const db: Database<V>
    var attached: bool
    var apply: bool

    constructor (db: Database<V>)
      ensures this.db == db && attached && apply
    {
      this.db, attached, apply := db, true, true;
    }

    method Push()
      modifies this
      ensures !attached && (old(attached) ==> !apply)
    {
      if !attached { return; }
      apply := false;
      attached := false;
    }

    method Squash()
      requires db.Valid() && (attached && apply ==> db.stack != [])
      modifies this, db, db.stack
      ensures db.Valid() && db.nextId == old(db.nextId)
      ensures !(attached && apply)
      ensures old(attached && apply) ==>
                db.stack == old(db.stack)[..|old(db.stack)| - 1] && db.View() == Step(old(db.View()), Op.Squash)
      ensures !old(attached && apply) ==> db.stack == old(db.stack) && db.View() == old(db.View())
    {
      if !attached || !apply { return; }
      db.Squash();
      attached := false;
      apply := false;
    }

    method Undo()
      requires db.Valid()
      modifies this, db
      ensures db.Valid() && db.nextId == old(db.nextId)
      ensures !(attached && apply)
      ensures old(attached && apply) ==>
                && db.stack == (if old(db.stack) == [] then [] else old(db.stack)[..|old(db.stack)| - 1])
                && db.View() == Step(old(db.View()), Op.Undo)
      ensures !old(attached && apply) ==> db.stack == old(db.stack) && db.View() == old(db.View())
    {
      if !attached || !apply { return; }
      db.Undo();
      attached := false;
      apply := false;
    }
  }

  // ------------------------------------------------------------------
  // The controller
  // ------------------------------------------------------------------

  datatype Start = Started | AlreadyPending | OutOfStep | Threw

  /** A commit below the newest layer keeps that layer. */
  lemma {:induction false} KeepsTop<V>(ls: seq<Layer<V>>, r: int)
    requires ls != [] && ls[|ls| - 1].revision > r
    ensures Keep(ls, r) != [] && Keep(ls, r)[|Keep(ls, r)| - 1] == ls[|ls| - 1]
  {
    if ls[0].revision <= r { KeepsTop(ls[1..], r); }
  }

  // How the traces unfold, call by call.

  lemma ScheduledRun<V>(db: Db<V>, t: Scheduled<V>)
    requires AreChanges(t.removal) && AreChanges(t.trx.ops) && AreChanges(t.onError) && AreChanges(t.billing)
    ensures var removed := RunDb(Step(db, Op<V>.Start), t.removal);
            && removed.layers != [] && |removed.layers| == |db.layers| + 1 && removed.revision == db.revision + 1
            && (t.Abandons() ==> RunDb(db, ScheduledOps(t)) == Step(Step(removed, Op<V>.Start), Op<V>.Undo))
            && (!t.Abandons() ==> Neutral(db, ScheduledOps(t)))
            && (!t.Abandons() ==>
                  RunDb(db, ScheduledOps(t)) ==
                  Step(if t.ready && !t.expired then RunDb(removed, AttemptOps(t)) else removed,
                       if t.Keeps() then Op<V>.Squash else Op<V>.Undo))
  {
    var start := Step(db, Op<V>.Start);
    ChangesKeepDepth(start, t.removal);
    if t.Abandons() {
      AbandonedRun(db, t);
    } else {
      SessionRun(db, ScheduledBody(t), t.Keeps());
      RunDbConcat(start, t.removal, if !t.ready || t.expired then [] else AttemptOps(t));
      ScheduledBodyNeutral(start, t);
      SessionNeutral(db, ScheduledBody(t), t.Keeps());
    }
  }

  lemma AbandonedRun<V>(db: Db<V>, t: Scheduled<V>)
    requires t.Abandons()
    ensures RunDb(db, ScheduledOps(t)) == Step(Step(RunDb(Step(db, Op<V>.Start), t.removal), Op<V>.Start), Op<V>.Undo)
  {
    var start, tail := Step(db, Op<V>.Start), [Op<V>.Start, Op<V>.Undo];
    assert ScheduledOps(t)[1..] == t.removal + tail;
    RunDbConcat(start, t.removal, tail);
    assert tail[1..] == [Op<V>.Undo] && tail[1..][1..] == [];
  }

  lemma AttemptRun<V>(db: Db<V>, t: Scheduled<V>)
    requires AreChanges(t.trx.ops) && AreChanges(t.onError) && AreChanges(t.billing)
    ensures var first := RunDb(db, SessionOps(t.trx.ops, !t.trx.fails));
            var second := RunDb(first, HandlerOps(t));
            RunDb(db, AttemptOps(t)) == if t.HardFails() then RunDb(second, t.billing) else second
  {
    var first, handler := SessionOps(t.trx.ops, !t.trx.fails), HandlerOps(t);
    RunDbConcat(db, first, handler);
    RunDbConcat(db, first + handler, if t.HardFails() then t.billing else []);
  }

  lemma OpeningRun<V>(db: Db<V>, b: Body<V>)
    requires b.SoundOpening()
    ensures var start := Step(db, Op<V>.Start);
            var promoted := RunDb(start, b.promotion);
            var begun := if b.promotionThrows then promoted else RunDb(RunDb(promoted, TrxOps(b.onBlock, false)), b.opening);
            && RunDb(db, [Op<V>.Start] + OpeningOps(b)) == begun && begun.revision == db.revision + 1
            && RunDb(db, SessionOps(OpeningOps(b), false)) == Step(begun, Op<V>.Undo)
  {
    var start := Step(db, Op<V>.Start);
    var promoted, first := RunDb(start, b.promotion), TrxOps(b.onBlock, false);
    OpeningNeutral(start, b);
    RunDbConcat(promoted, first, b.opening);
    RunDbConcat(start, b.promotion, if b.promotionThrows then [] else first + b.opening);
    SessionRun(db, OpeningOps(b), false);
    assert ([Op<V>.Start] + OpeningOps(b))[1..] == OpeningOps(b);
  }

  lemma BlockRun<V>(db: Db<V>, b: Body<V>)
    ensures var begun := RunDb(db, [Op<V>.Start] + OpeningOps(b));
            var ended := if b.OpeningFails() then begun else RunDb(begun, RestOps(b));
            && RunDb(db, [Op<V>.Start] + BlockBody(b)) == ended
            && RunDb(db, SessionOps(BlockBody(b), false)) == Step(ended, Op<V>.Undo)
    ensures b.OpeningFails() ==> SessionOps(BlockBody(b), false) == SessionOps(OpeningOps(b), false)
  {
    var start, rest := Step(db, Op<V>.Start), if b.OpeningFails() then [] else RestOps(b);
    RunDbConcat(start, OpeningOps(b), rest);
    SessionRun(db, BlockBody(b), false);
    assert ([Op<V>.Start] + OpeningOps(b))[1..] == OpeningOps(b);
    assert ([Op<V>.Start] + BlockBody(b))[1..] == BlockBody(b);
    if b.OpeningFails() { assert BlockBody(b) == OpeningOps(b); }
  }

  /** The first `i` transactions were run, none of them bad. */
  ghost predicate Progress<V>(before: Db<V>, items: seq<Item<V>>, i: nat, db: Db<V>)
    requires i <= |items|
  {
    && db == RunDb(before, ItemsOps(items[..i]))
    && Reached(items, i) == Reached(items, 0) && AnyBad(items, i) == AnyBad(items, 0)
  }

  /** The stack has grown by one. */
  predicate Pushed<T(==)>(stack: seq<T>, stack': seq<T>) {
    |stack'| == |stack| + 1 && stack'[..|stack|] == stack
  }

  lemma PoppedAgain<T>(stack: seq<T>, stack': seq<T>)
    requires Pushed(stack, stack')
    ensures stack'[..|stack'| - 1] == stack
  {
  }

  lemma LastLeaks<V>(items: seq<Item<V>>, i: nat)
    requires i < |items| && Reached(items, 0) == i + 1
    ensures LeakyRun(items) == Leaky(items[i])
  {
    LeakIsLast(items);
  }

  lemma NextItem<V>(before: Db<V>, items: seq<Item<V>>, i: nat, db: Db<V>)
    requires i < |items| && Progress(before, items, i, db)
    ensures var db' := RunDb(db, ItemOps(items[i]));
            if BadItem(items[i]) then && db' == RunDb(before, ItemsOps(items[..Reached(items, 0)])) && AnyBad(items, 0)
                                      && LeakyRun(items) == Leaky(items[i])
            else Progress(before, items, i + 1, db')
  {
    if BadItem(items[i]) { LastLeaks(items, i); }
    assert items[..i + 1][..i] == items[..i];
    RunDbConcat(before, ItemsOps(items[..i]), ItemOps(items[i]));
  }

  lemma AllItems<V>(before: Db<V>, items: seq<Item<V>>, db: Db<V>)
    requires Progress(before, items, |items|, db)
    ensures db == RunDb(before, ItemsOps(items[..Reached(items, 0)])) && !AnyBad(items, 0) && !LeakyRun(items)
  {
    LeakIsLast(items);
  }

  lemma RestRun<V>(db: Db<V>, b: Body<V>)
    ensures var run := RunDb(db, ItemsOps(b.items[..Reached(b.items, 0)]));
            RunDb(db, RestOps(b)) == if AnyBad(b.items, 0) then run else RunDb(run, b.closing)
    ensures LeakyRun(b.items) ==> AnyBad(b.items, 0)
  {
    LeakIsLast(b.items);
    RunDbConcat(db, ItemsOps(b.items[..Reached(b.items, 0)]), if AnyBad(b.items, 0) then [] else b.closing);
  }

  class Controller<V> {
    const db: Database<V>
    var headNum: nat
    var pending: Session?<V>

    ghost predicate Valid()
      reads this, pending, db, db.stack
    {
      && db.Valid()
      && (pending != null ==> pending.db == db && pending.attached && pending.apply && db.stack != [])
    }

    /** The revision is the head number, and one more while a block is pending. */
    ghost predicate InLockstep()
      reads this, pending, db, db.stack
    {
      Valid() && db.revision == (if pending == null then headNum else headNum + 1)
    }

    constructor (db: Database<V>, headNum: nat)
      requires db.Valid() && db.revision == headNum
      ensures InLockstep() && pending == null && this.db == db && this.headNum == headNum
    {
      this.db, this.headNum, pending := db, headNum, null;
    }

    method StartSession() returns (s: Session<V>)
      requires db.Valid()
      modifies db
      ensures db.Valid() && db.nextId == old(db.nextId)
      ensures |db.stack| == |old(db.stack)| + 1 && db.stack[..|old(db.stack)|] == old(db.stack)
      ensures fresh(db.stack[|db.stack| - 1])
      ensures fresh(s) && s.db == db && s.attached && s.apply
      ensures db.View() == Step(old(db.View()), Op.Start)
    {
      db.StartSession();
      s := new Session<V>(db);
    }

    method Make(op: Op<V>)
      requires db.Valid() && IsChange(op)
      modifies db, db.stack, db.nextId
      ensures db.Valid() && db.stack == old(db.stack) && db.nextId == old(db.nextId)
      ensures db.View() == Step(old(db.View()), op)
    {
      match op {
        case Insert(kind, v) => var _ := db.Insert(kind, v);
        case Modify(k, was, now) => db.Modify(k, was, now);
        case Remove(k, copy) => var _ := db.Remove(k, copy);
      }
    }

    /** Makes the changes of a transaction. */
    method Exec(ops: seq<Op<V>>)
      requires db.Valid() && AreChanges(ops)
      modifies db, db.stack, db.nextId
      ensures db.Valid() && db.stack == old(db.stack) && db.nextId == old(db.nextId)
      ensures db.View() == RunDb(old(db.View()), ops)
    {
      var i := 0;
      while i < |ops|
        invariant 0 <= i <= |ops|
        invariant db.Valid() && db.stack == old(db.stack) && db.nextId == old(db.nextId)
        invariant db.View() == RunDb(old(db.View()), ops[..i])
      {
        RunDbPrefix(old(db.View()), ops, i);
        Make(ops[i]);
        i := i + 1;
      }
      assert ops[..i] == ops;
    }

    /** Makes changes in a session of their own and squashes them into the session below, or undoes them.
        The last call on the handle is the deferred one: it finds the session ended when it was squashed. */
    method RunInSession(ops: seq<Op<V>>, keep: bool)
      requires db.Valid() && AreChanges(ops)
      modifies db, db.stack, db.nextId
      ensures db.Valid() && db.stack == old(db.stack) && db.nextId == old(db.nextId)
      ensures db.View() == RunDb(old(db.View()), SessionOps(ops, keep))
    {
      SessionRun(db.View(), ops, keep);
      var session := StartSession();
      ChangesKeepDepth(db.View(), ops);
      Exec(ops);
      if keep { session.Squash(); }
      session.Undo();
    }

    /** Ends a session that is still open. */
    method Close(s: Session<V>, keep: bool)
      requires db.Valid() && db.stack != [] && s.db == db && s.attached && s.apply
      modifies s, db, db.stack
      ensures db.Valid() && db.nextId == old(db.nextId)
      ensures db.stack == old(db.stack)[..|old(db.stack)| - 1]
      ensures db.View() == Step(old(db.View()), if keep then Op<V>.Squash else Op<V>.Undo)
      ensures !(s.attached && s.apply)
    {
      if keep { s.Squash(); } else { s.Undo(); }
    }

    /** Runs a transaction in a session of its own. A transaction that fails, or whose result is only
        wanted for its trace (`discard`), is undone; the others are squashed into the pending block. A
        transaction with extensions is refused after its session was started, and nobody ends that
        session: the revision is kept exactly when there are no extensions. */
    method PushTransaction(trx: Trx<V>, discard: bool) returns (threw: bool)
      requires InLockstep() && pending != null && AreChanges(trx.ops)
      modifies db, db.stack, db.nextId
      ensures threw == trx.extensions
      ensures Valid() && (InLockstep() <==> !trx.extensions)
      ensures db.nextId == old(db.nextId) && db.View() == RunDb(old(db.View()), TrxOps(trx, discard))
      ensures !trx.extensions ==> db.stack == old(db.stack)
      ensures trx.extensions ==> Pushed(old(db.stack), db.stack) && fresh(db.stack[|db.stack| - 1]) && db.revision == headNum + 2
      ensures trx.extensions ==> db.View() == Step(old(db.View()), Op<V>.Start)
      ensures !trx.extensions && (trx.fails || discard) ==>
                db.View() == RunDb(old(db.View()), [Op<V>.Start] + trx.ops + [Op<V>.Undo])
      ensures !trx.extensions && !trx.fails && !discard ==>
                && db.View().store == RunDb(old(db.View()), trx.ops).store
                && db.View().nextId == RunDb(old(db.View()), trx.ops).nextId
                && |db.View().layers| == |old(db.View()).layers|
    {
      if trx.extensions {
        assert TrxOps(trx, discard)[1..] == [];
        var _ := StartSession();
        return true;
      }
      TrxNeutral(db.View(), trx, discard);
      TrxLeaves(db.View(), db.View(), trx, discard);
      RunInSession(trx.ops, !trx.fails && !discard);
      return false;
    }

    /** Runs a scheduled transaction, its removal included, in a session with the transaction's own session
        inside. Whatever happens, unless the transaction carries extensions, both sessions are ended. */
    method PushScheduled(t: Scheduled<V>) returns (threw: bool)
      requires InLockstep() && pending != null
      requires AreChanges(t.removal) && AreChanges(t.trx.ops) && AreChanges(t.onError) && AreChanges(t.billing)
      modifies db, db.stack, db.nextId
      ensures Valid() && db.nextId == old(db.nextId) && db.View() == RunDb(old(db.View()), ScheduledOps(t))
      ensures InLockstep() <==> !(t.ready && !t.expired && t.trx.extensions)
      ensures InLockstep() ==> db.stack == old(db.stack)
      ensures !InLockstep() ==> Pushed(old(db.stack), db.stack) && fresh(db.stack[|db.stack| - 1]) && db.revision == headNum + 2
      ensures threw <==>
                !t.ready ||
                (!t.expired &&
                 (t.trx.extensions ||
                  (t.trx.fails && (t.subjective || !t.hasSender || t.onErrorFails) && !t.finallySubjective && t.billingThrows)))
      // Not due: undone. Expired: removed from the schedule. Executed: removed, with its changes.
      ensures !t.ready ==> db.View() == RunDb(old(db.View()), SessionOps(t.removal, false))
      ensures t.ready && t.expired ==>
                && db.View().store == RunDb(old(db.View()), t.removal).store
                && db.View().nextId == RunDb(old(db.View()), t.removal).nextId
      ensures t.ready && !t.expired && !t.trx.extensions && !t.trx.fails ==>
                && db.View().store == RunDb(old(db.View()), t.removal + t.trx.ops).store
                && db.View().nextId == RunDb(old(db.View()), t.removal + t.trx.ops).nextId
      // Failed, and handled by its sender: removed, the transaction undone, with the changes of the handler.
      ensures t.ready && !t.expired && !t.trx.extensions && t.trx.fails && !t.subjective && t.hasSender && !t.onErrorFails ==>
                var q := RunDb(old(db.View()), t.removal + SessionOps(t.trx.ops, false) + t.onError);
                db.View().store == q.store && db.View().nextId == q.nextId
      // Failed, not handled: removed and billed, or all undone when the billing throws or the failure is subjective.
      ensures t.ready && !t.expired && !t.trx.extensions && t.trx.fails && (t.subjective || !t.hasSender || t.onErrorFails) ==>
                var tried := if t.subjective || !t.hasSender then [] else SessionOps(t.onError, false);
                var failed := SessionOps(t.trx.ops, false) + tried;
                var billed := if t.finallySubjective then [] else t.billing;
                if t.finallySubjective || t.billingThrows
                then db.View() == RunDb(old(db.View()), SessionOps(t.removal + (failed + billed), false))
                else && db.View().store == RunDb(old(db.View()), t.removal + failed + t.billing).store
                     && db.View().nextId == RunDb(old(db.View()), t.removal + failed + t.billing).nextId
    {
      if !t.Abandons() { ScheduledExits(db.View(), db.View(), t); }
      threw := RunRemoved(t);
    }

    /** The run of a scheduled transaction, call by call. */
    method RunRemoved(t: Scheduled<V>) returns (threw: bool)
      requires InLockstep() && pending != null
      requires AreChanges(t.removal) && AreChanges(t.trx.ops) && AreChanges(t.onError) && AreChanges(t.billing)
      modifies db, db.stack, db.nextId
      ensures Valid() && db.nextId == old(db.nextId) && db.View() == RunDb(old(db.View()), ScheduledOps(t))
      ensures InLockstep() <==> !t.Abandons()
      ensures InLockstep() ==> db.stack == old(db.stack)
      ensures !InLockstep() ==> Pushed(old(db.stack), db.stack) && fresh(db.stack[|db.stack| - 1]) && db.revision == headNum + 2
      ensures threw == t.Throws()
    {
      ghost var before := db.View();
      var outer := StartSession();
      Exec(t.removal);
      ScheduledRun(before, t);
      if t.Abandons() {
        Abandon(outer);
        return true;
      }
      threw := FinishScheduled(t, outer);
    }

    /** The transaction's own session is started and abandoned; what the deferred call undoes is that session. */
    method Abandon(outer: Session<V>)
      requires db.Valid() && db.stack != [] && outer.db == db && outer.attached && outer.apply
      modifies outer, db
      ensures db.Valid() && db.nextId == old(db.nextId) && db.stack == old(db.stack)
      ensures db.View() == Step(Step(old(db.View()), Op<V>.Start), Op<V>.Undo)
    {
      var _ := StartSession();
      outer.Undo();
    }

    /** What follows the removal from the schedule; the deferred call at the end undoes the outer session unless it
        was squashed. */
    method FinishScheduled(t: Scheduled<V>, outer: Session<V>) returns (threw: bool)
      requires db.Valid() && db.stack != [] && outer.db == db && outer.attached && outer.apply
      requires AreChanges(t.trx.ops) && AreChanges(t.onError) && AreChanges(t.billing) && !t.Abandons()
      modifies outer, db, db.stack, db.nextId
      ensures db.Valid() && db.nextId == old(db.nextId) && threw == t.Throws()
      ensures db.stack == old(db.stack)[..|old(db.stack)| - 1]
      ensures db.View() == Step(if t.ready && !t.expired then RunDb(old(db.View()), AttemptOps(t)) else old(db.View()),
                                if t.Keeps() then Op<V>.Squash else Op<V>.Undo)
    {
      if !t.ready {
        threw := true;
      } else if t.expired {
        threw := false;
        Close(outer, true);
      } else {
        threw := RunScheduled(t, outer);
      }
      if outer.attached && outer.apply { Close(outer, false); }
    }

    /** The part of a scheduled transaction inside its outer session, which it squashes or leaves open. */
    method RunScheduled(t: Scheduled<V>, outer: Session<V>) returns (threw: bool)
      requires db.Valid() && db.stack != [] && outer.db == db && outer.attached && outer.apply
      requires AreChanges(t.trx.ops) && AreChanges(t.onError) && AreChanges(t.billing) && t.ready && !t.expired
      modifies outer, db, db.stack, db.nextId
      ensures db.Valid() && db.nextId == old(db.nextId)
      ensures threw == (t.HardFails() && t.billingThrows)
      ensures outer.attached && outer.apply <==> !t.Keeps()
      ensures db.stack == if t.Keeps() then old(db.stack)[..|old(db.stack)| - 1] else old(db.stack)
      ensures var attempted := RunDb(old(db.View()), AttemptOps(t));
              db.View() == if t.Keeps() then Step(attempted, Op<V>.Squash) else attempted
    {
      threw := false;
      AttemptRun(db.View(), t);
      RunInSession(t.trx.ops, !t.trx.fails);
      if !t.trx.fails {
        Close(outer, true);
        return;
      }
      if !t.subjective && t.hasSender {
        RunInSession(t.onError, !t.onErrorFails);
        if !t.onErrorFails {
          Close(outer, true);
          return;
        }
      }
      if t.HardFails() {
        Exec(t.billing);
        if t.billingThrows { return true; }
        Close(outer, true);
      }
    }

    /** Drops the pending block, if there is one, with everything done for it. */
    method AbortBlock()
      requires Valid()
      modifies this`pending, pending, db
      ensures Valid() && pending == null && db.nextId == old(db.nextId)
      ensures old(pending) == null ==> db.stack == old(db.stack) && db.View() == old(db.View())
      ensures old(pending) != null ==>
                db.stack == old(db.stack)[..|old(db.stack)| - 1] && db.View() == Step(old(db.View()), Op<V>.Undo)
      ensures InLockstep() <==> old(InLockstep())
    {
      if pending != null {
        pending.Undo();
        pending := null;
      }
    }

    /** Opens a block: refused while one is pending or when the revision is not that of the head. The
        block's opening transaction and the other opening changes run in its session; when they throw, the
        block is dropped. In lockstep the revision check never fails. */
    method StartBlock(b: Body<V>) returns (r: Start)
      requires Valid() && b.SoundOpening()
      modifies this`pending, pending, db, db.stack, db.nextId
      ensures Valid() && db.nextId == old(db.nextId)
      ensures r == AlreadyPending <==> old(pending) != null
      ensures r == OutOfStep <==> old(pending) == null && old(db.revision) != headNum
      ensures r == Threw <==> old(pending) == null && old(db.revision) == headNum && b.OpeningFails()
      ensures r == AlreadyPending || r == OutOfStep ==> db.View() == old(db.View())
      ensures r == Threw ==> db.View() == RunDb(old(db.View()), SessionOps(OpeningOps(b), false))
      ensures r != Started ==> pending == old(pending) && db.stack == old(db.stack) && db.revision == old(db.revision)
      ensures r == Started ==>
                && fresh(pending) && db.View() == RunDb(old(db.View()), [Op<V>.Start] + OpeningOps(b))
                && db.revision == headNum + 1
                && |db.stack| == |old(db.stack)| + 1 && db.stack[..|old(db.stack)|] == old(db.stack)
                && fresh(db.stack[|db.stack| - 1])
      ensures old(InLockstep()) ==> r != OutOfStep && InLockstep()
    {
      if pending != null { return AlreadyPending; }
      if db.revision != headNum { return OutOfStep; }
      var ok := OpenOrDrop(b);
      return if ok then Started else Threw;
    }

    /** Opens a block, and drops it again when its opening throws. */
    method OpenOrDrop(b: Body<V>) returns (ok: bool)
      requires InLockstep() && pending == null && b.SoundOpening()
      modifies this`pending, db, db.stack, db.nextId
      ensures InLockstep() && db.nextId == old(db.nextId) && ok == !b.OpeningFails()
      ensures !ok ==> && pending == null && db.stack == old(db.stack)
                      && db.View() == RunDb(old(db.View()), SessionOps(OpeningOps(b), false))
      ensures ok ==> && pending != null && fresh(pending) && db.View() == RunDb(old(db.View()), [Op<V>.Start] + OpeningOps(b))
                     && |db.stack| == |old(db.stack)| + 1 && db.stack[..|old(db.stack)|] == old(db.stack)
                     && fresh(db.stack[|db.stack| - 1])
    {
      OpeningRun(db.View(), b);
      OpenBlock(b);
      ok := !b.OpeningFails();
      if !ok { AbortBlock(); }
    }

    method OpenBlock(b: Body<V>)
      requires InLockstep() && pending == null && b.SoundOpening()
      modifies this`pending, db, db.stack, db.nextId
      ensures InLockstep() && pending != null && fresh(pending) && db.nextId == old(db.nextId)
      ensures var promoted := RunDb(Step(old(db.View()), Op<V>.Start), b.promotion);
              db.View() == if b.promotionThrows then promoted
                           else RunDb(RunDb(promoted, TrxOps(b.onBlock, false)), b.opening)
      ensures |db.stack| == |old(db.stack)| + 1 && db.stack[..|old(db.stack)|] == old(db.stack)
      ensures fresh(db.stack[|db.stack| - 1])
    {
      pending := StartSession();
      RunOpening(b);
    }

    /** The promotion, the opening transaction and the other opening changes, in the session of the block. */
    method RunOpening(b: Body<V>)
      requires InLockstep() && pending != null && b.SoundOpening()
      modifies db, db.stack, db.nextId
      ensures InLockstep() && db.stack == old(db.stack) && db.nextId == old(db.nextId)
      ensures var promoted := RunDb(old(db.View()), b.promotion);
              db.View() == if b.promotionThrows then promoted
                           else RunDb(RunDb(promoted, TrxOps(b.onBlock, false)), b.opening)
    {
      Change(b.promotion);
      if b.promotionThrows { return; }
      var _ := PushTransaction(b.onBlock, false);
      Change(b.opening);
    }

    /** Changes outside a transaction, in the session of the pending block. */
    method Change(ops: seq<Op<V>>)
      requires InLockstep() && pending != null && AreChanges(ops)
      modifies db, db.stack, db.nextId
      ensures InLockstep() && db.stack == old(db.stack) && db.nextId == old(db.nextId)
      ensures db.View() == RunDb(old(db.View()), ops)
    {
      ChangesKeepDepth(db.View(), ops);
      Exec(ops);
    }

    /** Closes the pending block. With `addToForkDb` the block was added to the fork database first: that may settle
        an older block, whose session is then committed, and gives a head of number `forkHead`. The block must have
        become that head, or it is dropped, but by then the head has moved. */
    method CommitBlock(addToForkDb: bool, settled: Option<nat>, forkHead: nat, isHead: bool) returns (ok: bool)
      requires InLockstep() && pending != null && (isHead ==> forkHead == headNum + 1)
      requires addToForkDb && settled.Some? ==> settled.value < Top(db.View()).revision
      modifies this, pending, db
      ensures Valid() && pending == null && db.nextId == old(db.nextId)
      ensures ok == (!addToForkDb || isHead)
      ensures headNum == if addToForkDb then forkHead else old(headNum)
      ensures var committed := if addToForkDb && settled.Some? then Step(old(db.View()), Op<V>.Commit(settled.value)) else old(db.View());
              db.View() == if ok then committed else Step(committed, Op<V>.Undo)
      ensures !addToForkDb ==> db.stack == old(db.stack)
      ensures db.revision == if ok then old(headNum) + 1 else old(headNum)
      ensures InLockstep() <==> addToForkDb && (isHead || forkHead == old(headNum))
    {
      if addToForkDb {
        Settle(settled);
        headNum := forkHead;
      }
      ok := !addToForkDb || isHead;
      EndSession(ok);
    }

    /** Leaves the session of the pending block on the undo stack, or undoes it. */
    method EndSession(keep: bool)
      requires Valid() && pending != null
      modifies this`pending, pending, db
      ensures Valid() && pending == null && db.nextId == old(db.nextId)
      ensures keep ==> db.stack == old(db.stack) && db.View() == old(db.View())
      ensures !keep ==> db.stack == old(db.stack)[..|old(db.stack)| - 1] && db.View() == Step(old(db.View()), Op<V>.Undo)
      ensures db.revision == if keep then old(db.revision) else old(db.revision) - 1
    {
      if keep {
        pending.Push();
        pending := null;
      } else {
        AbortBlock();
      }
    }

    /** Commits the session of a block that was settled below the pending one. */
    method Settle(settled: Option<nat>)
      requires InLockstep() && pending != null && (settled.Some? ==> settled.value < Top(db.View()).revision)
      modifies db
      ensures InLockstep() && db.nextId == old(db.nextId)
      ensures |db.stack| <= |old(db.stack)| && db.stack == old(db.stack)[|old(db.stack)| - |db.stack|..]
      ensures db.View() == if settled.Some? then Step(old(db.View()), Op<V>.Commit(settled.value)) else old(db.View())
    {
      if settled.Some? {
        KeepsTop(db.View().layers, settled.value);
        db.Commit(settled.value);
      }
    }

    /** Runs the transactions of a received block as a block of its own. Whatever fails on the way, the block is
        dropped; otherwise the revision is one ahead of the head, for the caller to move the head. A transaction that
        is refused over its extensions leaves a session behind, and dropping the block undoes that session instead of
        the block's: exactly then a failed block breaks lockstep. */
    method ApplyBlock(b: Body<V>) returns (ok: bool)
      requires InLockstep() && b.Sound()
      modifies this, pending, db, db.stack, db.nextId
      ensures Valid() && pending == null && db.nextId == old(db.nextId) && headNum == old(headNum)
      ensures ok <==> old(pending) == null && !BlockFails(b)
      ensures ok <==>
                && old(pending) == null && !b.promotionThrows && !b.openingThrows && !b.closingThrows
                && forall i :: 0 <= i < |b.items| ==>
                     match b.items[i]
                     case Plain(trx, mismatch) => !mismatch && !trx.extensions && !trx.fails
                     case Deferred(t, mayFail, mismatch) =>
                       !mismatch && t.ready &&
                       (t.expired ||
                        (!t.trx.extensions &&
                         (!t.trx.fails || (!t.subjective && t.hasSender && !t.onErrorFails) ||
                          (mayFail && !t.finallySubjective && !t.billingThrows))))
      ensures ok ==>
                var first := if b.onBlock.fails then SessionOps(b.onBlock.ops, false) else b.onBlock.ops;
                var q := RunDb(old(db.View()), b.promotion + first + b.opening + ItemsChanges(b.items) + b.closing);
                db.View().store == q.store && db.View().nextId == q.nextId
      ensures ok ==> db.View() == RunDb(old(db.View()), [Op<V>.Start] + BlockBody(b)) && db.revision == headNum + 1
      ensures ok ==> |db.stack| == |old(db.stack)| + 1 && db.stack[..|old(db.stack)|] == old(db.stack)
      ensures !ok ==> (InLockstep() <==> old(pending) != null || !Leaks(b))
      ensures !ok && old(pending) == null ==> db.View() == RunDb(old(db.View()), SessionOps(BlockBody(b), false))
      ensures !ok && old(pending) == null ==>
                if Leaks(b) then Pushed(old(db.stack), db.stack) else db.stack == old(db.stack)
      ensures !ok && old(pending) == null && Leaks(b) ==> db.revision == headNum + 1
    {
      ghost var before := db.View();
      GoodBlockMeans(b);
      var r := StartBlock(b);
      if r != Started {
        BlockRun(before, b);
        AbortBlock();
        return false;
      }
      ok := FinishBlock(b);
      BlockRun(before, b);
      if ok { BlockLeaves(before, before, b); }
    }

    /** Runs the rest of the pending block and commits it, or drops it when something fails. */
    method FinishBlock(b: Body<V>) returns (ok: bool)
      requires InLockstep() && pending != null && b.Sound()
      modifies this, pending, db, db.stack, db.nextId
      ensures Valid() && pending == null && db.nextId == old(db.nextId) && headNum == old(headNum)
      ensures ok <==> !AnyBad(b.items, 0) && !b.closingThrows
      ensures ok ==> db.stack == old(db.stack) && db.View() == RunDb(old(db.View()), RestOps(b)) && db.revision == headNum + 1
      ensures !ok ==> && db.View() == Step(RunDb(old(db.View()), RestOps(b)), Op<V>.Undo)
                      && db.revision == (if LeakyRun(b.items) then headNum + 1 else headNum)
                      && db.stack == (if LeakyRun(b.items) then old(db.stack) else old(db.stack)[..|old(db.stack)| - 1])
    {
      var bad := RunRest(b);
      ok := !bad && !b.closingThrows;
      if LeakyRun(b.items) { PoppedAgain(old(db.stack), db.stack); }
      EndBlock(ok);
    }

    /** Commits the pending block or drops it. */
    method EndBlock(keep: bool)
      requires Valid() && pending != null && (keep ==> InLockstep())
      modifies this, pending, db
      ensures Valid() && pending == null && db.nextId == old(db.nextId) && headNum == old(headNum)
      ensures keep ==> db.stack == old(db.stack) && db.View() == old(db.View())
      ensures !keep ==> db.stack == old(db.stack)[..|old(db.stack)| - 1] && db.View() == Step(old(db.View()), Op<V>.Undo)
      ensures db.revision == if keep then old(db.revision) else old(db.revision) - 1
    {
      if keep {
        var _ := CommitBlock(false, None, 0, false);
      } else {
        AbortBlock();
      }
    }

    /** Runs the transactions of the pending block and, if none of them is bad, its closing. */
    method RunRest(b: Body<V>) returns (bad: bool)
      requires InLockstep() && pending != null && b.Sound()
      modifies db, db.stack, db.nextId
      ensures Valid() && db.nextId == old(db.nextId) && (InLockstep() <==> !LeakyRun(b.items))
      ensures !LeakyRun(b.items) ==> db.stack == old(db.stack)
      ensures LeakyRun(b.items) ==> Pushed(old(db.stack), db.stack) && fresh(db.stack[|db.stack| - 1]) && db.revision == headNum + 2
      ensures db.View() == RunDb(old(db.View()), RestOps(b)) && bad == AnyBad(b.items, 0)
      ensures LeakyRun(b.items) ==> bad
    {
      RestRun(db.View(), b);
      bad := RunItems(b.items);
      if !bad { Change(b.closing); }
    }

    /** Runs the transactions of the pending block up to and including the first bad one. */
    method RunItems(items: seq<Item<V>>) returns (bad: bool)
      requires InLockstep() && pending != null && forall i :: 0 <= i < |items| ==> SoundItem(items[i])
      modifies db, db.stack, db.nextId
      ensures Valid() && db.nextId == old(db.nextId) && (InLockstep() <==> !LeakyRun(items))
      ensures !LeakyRun(items) ==> db.stack == old(db.stack)
      ensures LeakyRun(items) ==> Pushed(old(db.stack), db.stack) && fresh(db.stack[|db.stack| - 1]) && db.revision == headNum + 2
      ensures db.View() == RunDb(old(db.View()), ItemsOps(items[..Reached(items, 0)]))
      ensures bad == AnyBad(items, 0)
    {
      var i := 0;
      while i < |items|
        invariant 0 <= i <= |items|
        invariant InLockstep() && db.stack == old(db.stack) && db.nextId == old(db.nextId)
        invariant Progress(old(db.View()), items, i, db.View())
      {
        NextItem(old(db.View()), items, i, db.View());
        bad := PushItem(items[i]);
        i := i + 1;
        if bad { return; }
      }
      AllItems(old(db.View()), items, db.View());
      return false;
    }

    method PushItem(item: Item<V>) returns (bad: bool)
      requires InLockstep() && pending != null && SoundItem(item)
      modifies db, db.stack, db.nextId
      ensures Valid() && db.nextId == old(db.nextId) && (InLockstep() <==> !Leaky(item))
      ensures !Leaky(item) ==> db.stack == old(db.stack)
      ensures Leaky(item) ==> Pushed(old(db.stack), db.stack) && fresh(db.stack[|db.stack| - 1]) && db.revision == headNum + 2
      ensures db.View() == RunDb(old(db.View()), ItemOps(item)) && bad == BadItem(item)
      ensures !bad && item.Plain? ==>
                && db.View().store == RunDb(old(db.View()), item.trx.ops).store
                && db.View().nextId == RunDb(old(db.View()), item.trx.ops).nextId
      ensures !bad ==>
                && db.View().store == RunDb(old(db.View()), ItemChanges(item)).store
                && db.View().nextId == RunDb(old(db.View()), ItemChanges(item)).nextId
    {
      GoodMeans(item);
      if GoodItem(item) { ItemLeaves(db.View(), db.View(), item); }
      match item {
        case Plain(trx, mismatch) =>
          var threw := PushTransaction(trx, false);
          bad := threw || trx.fails || mismatch;
        case Deferred(t, mayFail, mismatch) =>
          var threw := PushScheduled(t);
          bad := threw || (t.Fails() && !mayFail) || !t.Keeps() || mismatch;
      }
    }

    /** Applies a block on top of the head and makes it the head. */
    method Extend(b: Body<V>) returns (ok: bool)
      requires InLockstep() && b.Sound()
      modifies this, pending, db, db.stack, db.nextId
      ensures Valid() && pending == null && (InLockstep() <==> ok || old(pending) != null || !Leaks(b))
      ensures ok <==> old(pending) == null && !BlockFails(b)
      ensures ok <==> old(pending) == null && GoodBlock(b)
      ensures ok ==> && db.View().store == RunDb(old(db.View()), BlockChanges(b)).store
                     && db.View().nextId == RunDb(old(db.View()), BlockChanges(b)).nextId
      ensures headNum == if ok then old(headNum) + 1 else old(headNum)
      ensures ok ==> db.View() == RunDb(old(db.View()), [Op<V>.Start] + BlockBody(b))
    {
      GoodBlockMeans(b);
      ok := ApplyBlock(b);
      if ok { headNum := headNum + 1; }
    }

    /** Takes the head block off; the session of that block must still be on the undo stack. */
    method PopBlock()
      requires InLockstep() && pending == null && headNum > 0
      modifies this`headNum, db
      ensures Valid() && headNum == old(headNum) - 1 && db.View() == Step(old(db.View()), Op<V>.Undo)
      ensures InLockstep() <==> old(db.stack) != []
    {
      headNum := headNum - 1;
      db.Undo();
    }
  }
}
