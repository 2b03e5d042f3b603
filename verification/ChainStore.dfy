/** The object store as the database of the chain: what applying a block to it leaves, what undoing the block's session
    brings back, and when that is what was there before. */
module ChainStore {
  import opened ChainRules
  import opened ForkDb
  import opened ForkFlags
  import opened ForkSwitch
  import opened ForkTree
  import opened Options
  import opened Traces
  import opened UndoLaws
  import opened UndoLog

  /** The objects of the database, the next id of each kind, and the revision. */
  datatype Objects<V> = Objects(store: map<Key, V>, nextId: map<string, nat>, revision: int)

  /** The database with these objects and no session open. */
  function Bare<V>(o: Objects<V>): Db<V> {
    Db(o.store, [], o.revision, o.nextId)
  }

  /** A block in a session of its own. */
  function RunBlock<V>(db: Db<V>, body: Body<V>): Db<V> {
    RunDb(Step(db, Op<V>.Start), BlockBody(body))
  }

  function Attempted<V>(o: Objects<V>, body: Body<V>): Attempt<Objects<V>, Layer<V>> {
    var end := RunBlock(Bare(o), body);
    var after := Objects(end.store, end.nextId, end.revision);
    var layer := if end.layers == [] then EmptyLayer(end.revision) else Top(end);
    if BlockFails(body) then Failed(after, layer) else Made(after, layer)
  }

  /** Undoing a session: ids that were handed out are not taken back. */
  function TakenBack<V>(l: Layer<V>, o: Objects<V>): Objects<V> {
    Objects(UndoStore(l, o.store), o.nextId, o.revision - 1)
  }

  ghost predicate SameStore<V>(o: Objects<V>, p: Objects<V>) {
    o.store == p.store
  }

  /** The rules of a chain whose blocks do what `work` says; `alike` tells which states they cannot tell apart. */
  ghost function StoreRules<V(!new)>(work: (Objects<V>, BlockId, Status) -> Body<V>,
                                     alike: (Objects<V>, Objects<V>) -> bool):
    Rules<Objects<V>, Layer<V>>
  {
    Rules((o, b, st) => Attempted(o, work(o, b, st)), (l, o) => TakenBack(l, o), (o, p) => SameStore(o, p), alike, (o: Objects<V>) => o.revision)
  }

  /** Undoing cannot tell stores with the same objects apart. */
  lemma StoresAreNear<V(!new)>(work: (Objects<V>, BlockId, Status) -> Body<V>, alike: (Objects<V>, Objects<V>) -> bool)
    ensures Equivalence(StoreRules(work, alike).near) && BackRespects(StoreRules(work, alike))
  {
  }

  /** Applying a block adds one to the revision and undoing takes one off, if and only if no block leaves a session
      behind. */
  lemma StoreCounts<V(!new)>(work: (Objects<V>, BlockId, Status) -> Body<V>, alike: (Objects<V>, Objects<V>) -> bool)
    requires forall o, b, st :: work(o, b, st).Sound()
    ensures Counts(StoreRules(work, alike)) <==> forall o, b, st :: !Leaks(work(o, b, st))
  {
    var rules := StoreRules(work, alike);
    forall o, b, st ensures rules.revision(rules.apply(o, b, st).after) == o.revision + if Leaks(work(o, b, st)) then 2 else 1 {
      BlockBodyNeutral(Step(Bare(o), Op<V>.Start), work(o, b, st));
    }
    if Counts(rules) {
      forall o, b, st ensures !Leaks(work(o, b, st)) {
        assert rules.revision(rules.apply(o, b, st).after) == rules.revision(o) + 1;
      }
    }
  }

  // ------------------------------------------------------------------
  // A block does not see the sessions below its own
  // ------------------------------------------------------------------

  /** The database with more sessions below its own. */
  function Over<V>(below: seq<Layer<V>>, db: Db<V>): Db<V> {
    db.(layers := below + db.layers)
  }

  lemma TopOver<V>(below: seq<Layer<V>>, db: Db<V>)
    requires db.layers != []
    ensures Top(Over(below, db)) == Top(db) && Below(Over(below, db)) == below + Below(db)
  {
  }

  lemma RecordedOver<V>(below: seq<Layer<V>>, db: Db<V>, top: Layer<V>)
    requires db.layers != []
    ensures Recorded(Over(below, db), top) == below + Recorded(db, top)
  {
    TopOver(below, db);
  }

  /** A database is told by its newest layer and what is below. */
  lemma SameDb<V>(db: Db<V>, q: Db<V>)
    requires db.layers != [] && q.layers != [] && Top(db) == Top(q) && Below(db) == Below(q)
    requires db.store == q.store && db.revision == q.revision && db.nextId == q.nextId
    ensures db == q
  {
    LayersAre(db);
    LayersAre(q);
  }

  lemma LayersAre<V>(db: Db<V>)
    requires db.layers != []
    ensures db.layers == Below(db) + [Top(db)]
  {
  }

  lemma NewestTwoOver<V>(below: seq<Layer<V>>, ls: seq<Layer<V>>)
    requires |ls| > 1
    ensures var full := below + ls;
            && full[|full| - 1] == ls[|ls| - 1] && full[|full| - 2] == ls[|ls| - 2] && full[..|full| - 2] == below + ls[..|ls| - 2]
  {
  }

  lemma SquashOver<V>(below: seq<Layer<V>>, db: Db<V>)
    requires |db.layers| > 1
    ensures Step(Over(below, db), Op<V>.Squash) == Over(below, Step(db, Op<V>.Squash))
  {
    NewestTwoOver(below, db.layers);
    SquashStep(db);
    SquashStep(Over(below, db));
    TopOver(below, Step(db, Op<V>.Squash));
    SameDb(Step(Over(below, db), Op<V>.Squash), Over(below, Step(db, Op<V>.Squash)));
  }

  lemma OverStep<V>(below: seq<Layer<V>>, db: Db<V>, op: Op<V>)
    requires db.layers != [] && !op.Commit? && Step(db, op).layers != []
    ensures Step(Over(below, db), op) == Over(below, Step(db, op))
  {
    TopOver(below, db);
    match op
    case Insert(kind, v) => RecordedOver(below, db, AfterInsert(Top(db), FreshKey(db, kind), v));
    case Modify(k, was, now) => RecordedOver(below, db, AfterModify(Top(db), k, was, now));
    case Remove(k, copy) => RecordedOver(below, db, AfterRemove(Top(db), k, copy));
    case Start => assert below + db.layers + [EmptyLayer(db.revision + 1)] == below + (db.layers + [EmptyLayer(db.revision + 1)]);
    case Undo =>
    case Squash => SquashOver(below, db);
  }

  /** A run that keeps to its own sessions does the same whatever sessions are open below. */
  lemma {:induction false} OverRun<V>(below: seq<Layer<V>>, db: Db<V>, ops: seq<Op<V>>)
    requires Inside(db, ops, 1)
    ensures RunDb(Over(below, db), ops) == Over(below, RunDb(db, ops))
    decreases |ops|
  {
    if ops != [] {
      OverStep(below, db, ops[0]);
      OverRun(below, Step(db, ops[0]), ops[1..]);
    }
  }

  /** A block ends with its own session open. */
  lemma BlockSession<V>(o: Objects<V>, body: Body<V>)
    requires body.Sound() && !Leaks(body)
    ensures Inside(Step(Bare(o), Op<V>.Start), BlockBody(body), 1)
    ensures var r := Attempted(o, body);
            && RunBlock(Bare(o), body) == Db(r.after.store, [r.layer], r.after.revision, r.after.nextId)
            && r.after.revision == o.revision + 1
  {
    StartBare(o);
    BlockBodyNeutral(Step(Bare(o), Op<V>.Start), body);
    OneLayer(RunBlock(Bare(o), body));
  }

  lemma OneLayer<V>(db: Db<V>)
    requires |db.layers| == 1
    ensures db == Db(db.store, [Top(db)], db.revision, db.nextId)
  {
  }

  lemma StartOver<V>(db: Db<V>)
    ensures Step(db, Op<V>.Start) == Over(db.layers, Step(Bare(Objects(db.store, db.nextId, db.revision)), Op<V>.Start))
  {
  }

  /** The session of a block in a database with whatever sessions open: its record, the objects after it, and the objects
      after undoing it are those of the attempt. */
  lemma BlockInDatabase<V>(db: Db<V>, body: Body<V>)
    requires body.Sound() && !Leaks(body)
    ensures var r := Attempted(Objects(db.store, db.nextId, db.revision), body);
            && RunBlock(db, body) == Db(r.after.store, db.layers + [r.layer], r.after.revision, r.after.nextId)
            && Step(RunBlock(db, body), Op<V>.Undo) == Db(TakenBack(r.layer, r.after).store, db.layers, db.revision, r.after.nextId)
  {
    var o := Objects(db.store, db.nextId, db.revision);
    var r := Attempted(o, body);
    BlockSession(o, body);
    StartOver(db);
    OverRun(db.layers, Step(Bare(o), Op<V>.Start), BlockBody(body));
    UndoTop(r.after.store, db.layers, r.layer, r.after.revision, r.after.nextId);
  }

  // ------------------------------------------------------------------
  // When undoing a block brings the objects back
  // ------------------------------------------------------------------

  /** The database is well formed, and the calls of the block pass objects as they are stored. */
  ghost predicate Proper<V>(o: Objects<V>, body: Body<V>) {
    && body.Sound() && !Leaks(body) && (forall k {:trigger k in o.store} :: k in o.store ==> Issued(Bare(o), k))
    && FaithfulRun(Step(Bare(o), Op<V>.Start), BlockBody(body))
  }

  lemma BareWf<V>(o: Objects<V>)
    requires forall k {:trigger k in o.store} :: k in o.store ==> Issued(Bare(o), k)
    ensures Wf(Bare(o)) && UndoLaws.Kept(Watched(Bare(o), []))
  {
  }

  lemma ProperSession<V>(o: Objects<V>, body: Body<V>)
    requires Proper(o, body)
    ensures Wf(Bare(o)) && UndoLaws.Kept(Watched(Bare(o), [])) && SessionBody(Watched(Bare(o), []), BlockBody(body))
    ensures SessionEnd(Watched(Bare(o), []), BlockBody(body)).db == RunBlock(Bare(o), body)
    ensures |SessionEnd(Watched(Bare(o), []), BlockBody(body)).marks| == 1
  {
    BareWf(o);
    BlockSession(o, body);
    RunIsRunDb(WatchedStep(Watched(Bare(o), []), Op<V>.Start), BlockBody(body));
  }

  /** The objects a block modifies and then removes, with the values they have when they are removed. */
  ghost function LostBy<V>(o: Objects<V>, body: Body<V>): map<Key, V>
    requires Proper(o, body)
  {
    ProperSession(o, body);
    SessionEnd(Watched(Bare(o), []), BlockBody(body)).marks[0].lost
  }

  lemma UndoneBlock<V>(o: Objects<V>, body: Body<V>)
    requires body.Sound() && !Leaks(body)
    ensures var r := Attempted(o, body); Step(RunBlock(Bare(o), body), Op<V>.Undo).store == TakenBack(r.layer, r.after).store
  {
    BlockSession(o, body);
  }

  /** What a popped block leaves: every object as it was, except those it had modified and then removed. */
  lemma PoppedBlock<V>(o: Objects<V>, body: Body<V>, k: Key)
    requires Proper(o, body)
    ensures var r := Attempted(o, body);
            Get(TakenBack(r.layer, r.after).store, k) == if k in LostBy(o, body) then Some(LostBy(o, body)[k]) else Get(o.store, k)
  {
    ProperSession(o, body);
    UndoneBlock(o, body);
    SessionUndoes(Watched(Bare(o), []), BlockBody(body), k);
  }

  /** Every object the block modifies and then removes has its first value again when it is removed. */
  ghost predicate RemovesAsFound<V>(o: Objects<V>, body: Body<V>)
    requires Proper(o, body)
  {
    forall k :: k in LostBy(o, body) ==> Get(o.store, k) == Some(LostBy(o, body)[k])
  }

  /** Undoing a block, whether it is popped or has failed, brings the objects back if and only if it removes what it has
      modified as it found it. */
  lemma ExactExactly<V(!new)>(work: (Objects<V>, BlockId, Status) -> Body<V>, alike: (Objects<V>, Objects<V>) -> bool,
                              o: Objects<V>, b: BlockId, st: Status)
    requires Proper(o, work(o, b, st))
    ensures ExactAt(StoreRules(work, alike), o, b, st) <==> RemovesAsFound(o, work(o, b, st))
  {
    var body := work(o, b, st);
    var r := Attempted(o, body);
    var back := TakenBack(r.layer, r.after).store;
    SameMaps(back, o.store);
    forall k ensures Get(back, k) == if k in LostBy(o, body) then Some(LostBy(o, body)[k]) else Get(o.store, k) {
      PoppedBlock(o, body, k);
    }
  }

  /** The sessions of a branch are those of proper blocks. */
  ghost predicate ProperBranch<V>(work: (Objects<V>, BlockId, Status) -> Body<V>, b: seq<BlockId>,
                                  undo: seq<Frame<Objects<V>, Layer<V>>>)
    requires |b| <= |undo|
  {
    forall i :: 0 <= i < |b| ==> var o := undo[|undo| - 1 - i].start; Proper(o, work(o, b[i], Validated))
  }

  /** One session of an applied branch is lossless if and only if its block removes what it has modified as it found it. */
  lemma LosslessBlock<V(!new)>(work: (Objects<V>, BlockId, Status) -> Body<V>, alike: (Objects<V>, Objects<V>) -> bool,
                               ix: Index, b: BlockId, db: Objects<V>, undo: seq<Frame<Objects<V>, Layer<V>>>, i: nat)
    requires i < |undo| && Turns(StoreRules(work, alike), ix, b, undo[|undo| - 1 - i], After(db, undo, i))
    requires var o := undo[|undo| - 1 - i].start; Proper(o, work(o, b, Validated))
    ensures var o := undo[|undo| - 1 - i].start;
            LosslessAt(StoreRules(work, alike), db, undo, i) <==> RemovesAsFound(o, work(o, b, Validated))
  {
    ExactExactly(work, alike, undo[|undo| - 1 - i].start, b, Validated);
  }

  /** Popping a branch passes, block by block, through the objects each block was applied to, if and only if every block
      removes what it has modified as it found it. */
  lemma PoppedBranch<V(!new)>(work: (Objects<V>, BlockId, Status) -> Body<V>, alike: (Objects<V>, Objects<V>) -> bool,
                              ix: Index, b: seq<BlockId>, db: Objects<V>, undo: seq<Frame<Objects<V>, Layer<V>>>)
    requires |b| <= |undo| && BranchApplied(StoreRules(work, alike), ix, b, db, undo, |b|) && ProperBranch(work, b, undo)
    ensures (forall i :: 0 <= i <= |b| ==> BackAt(StoreRules(work, alike), db, undo, i)) <==>
            (forall i :: 0 <= i < |b| ==> var o := undo[|undo| - 1 - i].start; RemovesAsFound(o, work(o, b[i], Validated)))
  {
    var rules := StoreRules(work, alike);
    StoresAreNear(work, alike);
    PopsExactly(rules, db, undo, |b|);
    forall i | 0 <= i < |b|
      ensures var o := undo[|undo| - 1 - i].start; LosslessAt(rules, db, undo, i) <==> RemovesAsFound(o, work(o, b[i], Validated))
    {
      assert Turns(rules, ix, b[i], undo[|undo| - 1 - i], After(db, undo, i));
      LosslessBlock(work, alike, ix, b[i], db, undo, i);
    }
  }

  // ------------------------------------------------------------------
  // A switch that does not come back
  // ------------------------------------------------------------------

  const COUNTER := Key("counter", 0)
  const COPY := Key("counter", 1)

  /** A block that copies a counter, counts one up and removes the counter. */
  function CountingBody(o: Objects<int>): Body<int> {
    Body(if COUNTER in o.store && COPY in o.store
         then [Modify(COPY, o.store[COPY], o.store[COUNTER]),
               Modify(COUNTER, o.store[COUNTER], o.store[COUNTER] + 1),
               Remove(COUNTER, o.store[COUNTER] + 1)] else [],
         false, Trx([], false, false), [], false, [], [], false)
  }

  /** A block that fails at once. */
  const FAILING: Body<int> := Body([], true, Trx([], false, false), [], false, [], [], false)

  lemma CountingOps(o: Objects<int>)
    requires COUNTER in o.store && COPY in o.store
    ensures BlockBody(CountingBody(o)) ==
            [Modify(COPY, o.store[COPY], o.store[COUNTER]), Modify(COUNTER, o.store[COUNTER], o.store[COUNTER] + 1),
             Remove(COUNTER, o.store[COUNTER] + 1), Op<int>.Start, Op<int>.Squash]
  {
    assert RestOps(CountingBody(o)) == [];
  }

  lemma RunTwo<V>(db: Db<V>, a: Op<V>, b: Op<V>)
    ensures RunDb(db, [a, b]) == Step(Step(db, a), b)
  {
    assert [a, b][1..] == [b] && [b][1..] == [];
    assert RunDb(Step(db, a), [b]) == RunDb(Step(Step(db, a), b), []);
  }

  lemma RunThree<V>(db: Db<V>, a: Op<V>, b: Op<V>, c: Op<V>)
    ensures RunDb(db, [a, b, c]) == Step(Step(Step(db, a), b), c)
  {
    assert [a, b, c][1..] == [b, c];
    RunTwo(Step(db, a), b, c);
  }

  lemma RunFive<V>(db: Db<V>, a: Op<V>, b: Op<V>, c: Op<V>, d: Op<V>, e: Op<V>)
    ensures RunDb(db, [a, b, c, d, e]) == Step(Step(Step(Step(Step(db, a), b), c), d), e)
  {
    assert [a, b, c, d, e][1..] == [b, c, d, e];
    assert [b, c, d, e][1..] == [c, d, e];
    RunThree(Step(Step(db, a), b), c, d, e);
  }

  /** The record of the counting block. */
  function CountingLayer(o: Objects<int>): Layer<int>
    requires COUNTER in o.store && COPY in o.store
  {
    Layer(map[], map[COPY := Edit(o.store[COPY], o.store[COUNTER])], map[COUNTER := o.store[COUNTER] + 1], o.revision + 1)
  }

  /** The objects after the counting block, and after undoing it: the counter is then one higher. */
  function Counted(o: Objects<int>): Objects<int>
    requires COUNTER in o.store && COPY in o.store
  {
    Objects((o.store - {COUNTER})[COPY := o.store[COUNTER]], o.nextId, o.revision + 1)
  }

  function Raised(o: Objects<int>): Objects<int>
    requires COUNTER in o.store
  {
    o.(store := o.store[COUNTER := o.store[COUNTER] + 1])
  }

  lemma StartBare<V>(o: Objects<V>)
    ensures Step(Bare(o), Op<V>.Start) == Db(o.store, [EmptyLayer(o.revision + 1)], o.revision + 1, o.nextId)
  {
  }

  lemma CountingMaps(o: Objects<int>, c: int, e: Edit<int>, f: Edit<int>)
    ensures o.store[COPY := c][COUNTER := c + 1] - {COUNTER} == (o.store - {COUNTER})[COPY := c]
    ensures map[][COPY := e][COUNTER := f] - {COUNTER} == map[COPY := e]
    ensures map[][COUNTER := c + 1] == map[COUNTER := c + 1]
  {
  }

  lemma CountingSteps(o: Objects<int>)
    requires COUNTER in o.store && COPY in o.store
    ensures var start := Step(Bare(o), Op<int>.Start);
            var db := Step(Step(Step(start, Modify(COPY, o.store[COPY], o.store[COUNTER])),
                                Modify(COUNTER, o.store[COUNTER], o.store[COUNTER] + 1)), Remove(COUNTER, o.store[COUNTER] + 1));
            db == Db(Counted(o).store, [CountingLayer(o)], o.revision + 1, o.nextId)
  {
    var c, rev := o.store[COUNTER], o.revision + 1;
    var e, f := Edit(o.store[COPY], c), Edit(c, c + 1);
    StartBare(o);
    ModifyStep(Db(o.store, [EmptyLayer(rev)], rev, o.nextId), EmptyLayer(rev), COPY, o.store[COPY], c);
    var first := Layer(map[], map[][COPY := e], map[], rev);
    ModifyStep(Db(o.store[COPY := c], [first], rev, o.nextId), first, COUNTER, c, c + 1);
    var second := Layer(map[], map[][COPY := e][COUNTER := f], map[], rev);
    RemoveStep(Db(o.store[COPY := c][COUNTER := c + 1], [second], rev, o.nextId), second, COUNTER, c + 1);
    CountingMaps(o, c, e, f);
  }

  lemma SquashEmpty<V>(l: Layer<V>, revision: int)
    ensures SquashLayer(EmptyLayer(revision), l) == l
  {
    var q := SquashLayer(EmptyLayer(revision), l);
    assert q.added == l.added && q.edited == l.edited && q.removed == l.removed;
  }

  /** An empty session squashed into the one below leaves no trace. */
  lemma EmptySession<V>(store: map<Key, V>, l: Layer<V>, revision: int, nextId: map<string, nat>)
    ensures var db := Db(store, [l], revision, nextId); Step(Step(db, Op<V>.Start), Op<V>.Squash) == db
  {
    var db := Db(store, [l], revision, nextId);
    var start := Step(db, Op<V>.Start);
    assert start.layers == [l, EmptyLayer(revision + 1)] && start.layers[..0] == [];
    SquashStep(start);
    SquashEmpty(l, revision + 1);
    SameDb(Step(start, Op<V>.Squash), db);
  }

  lemma CountingUndone(o: Objects<int>)
    requires COUNTER in o.store && COPY in o.store
    ensures UndoStore(CountingLayer(o), (o.store - {COUNTER})[COPY := o.store[COUNTER]]) == o.store[COUNTER := o.store[COUNTER] + 1]
  {
    SameMaps(UndoStore(CountingLayer(o), (o.store - {COUNTER})[COPY := o.store[COUNTER]]), o.store[COUNTER := o.store[COUNTER] + 1]);
  }

  lemma CountingRun(o: Objects<int>)
    requires COUNTER in o.store && COPY in o.store
    ensures RunBlock(Bare(o), CountingBody(o)) == Db(Counted(o).store, [CountingLayer(o)], o.revision + 1, o.nextId)
  {
    CountingOps(o);
    RunFive(Step(Bare(o), Op<int>.Start), Modify(COPY, o.store[COPY], o.store[COUNTER]),
            Modify(COUNTER, o.store[COUNTER], o.store[COUNTER] + 1), Remove(COUNTER, o.store[COUNTER] + 1), Op<int>.Start, Op<int>.Squash);
    CountingSteps(o);
    EmptySession(Counted(o).store, CountingLayer(o), o.revision + 1, o.nextId);
  }

  lemma CountingBlock(o: Objects<int>)
    requires COUNTER in o.store && COPY in o.store
    ensures Attempted(o, CountingBody(o)) == Made(Counted(o), CountingLayer(o))
    ensures TakenBack(CountingLayer(o), Counted(o)) == Raised(o)
  {
    CountingRun(o);
    CountingUndone(o);
  }

  lemma FailingBlock(o: Objects<int>)
    ensures var r := Attempted(o, FAILING);
            r == Failed(o.(revision := o.revision + 1), EmptyLayer(o.revision + 1)) && TakenBack(r.layer, r.after) == o
  {
  }

  const PARENT := BlockId(1, 0)
  const OLD := BlockId(2, 0)
  const NEW := BlockId(2, 1)

  /** A block of the current chain, applied and valid, or one that was only received. */
  function Stored(id: BlockId, prev: BlockId, dpos: nat, current: bool): Block {
    Block(id, prev, id.num, dpos, 0, current, current, {}, {})
  }

  /** Two blocks on one parent. The chain stands at the old one; the new one ranks higher. */
  const TWO: Index := map[PARENT := Stored(PARENT, BlockId(0, 0), 0, true), OLD := Stored(OLD, PARENT, 0, true),
                          NEW := Stored(NEW, PARENT, 1, false)]

  /** The old block counts, the new one fails. */
  ghost predicate CountsThenFails(work: (Objects<int>, BlockId, Status) -> Body<int>) {
    forall o, st :: work(o, OLD, st) == CountingBody(o) && work(o, NEW, st) == FAILING
  }

  lemma TwoBranches()
    ensures Tree(TWO, BlockId(0, 0), 1) && Branches(TWO, NEW, OLD, [NEW], [OLD]) && Joined(TWO, NEW, OLD)
    ensures FlagsFollow(TWO, OLD) && Best(TWO, NEW) && Better(TWO[NEW], TWO[OLD]) && !Passed(TWO, 1)
  {
    assert Descends(TWO, NEW, PARENT) && Descends(TWO, OLD, PARENT);
    assert FlagFollows(TWO, OLD, PARENT) && FlagFollows(TWO, OLD, OLD) && FlagFollows(TWO, OLD, NEW);
  }

  lemma OldApplies(work: (Objects<int>, BlockId, Status) -> Body<int>, alike: (Objects<int>, Objects<int>) -> bool,
                   o: Objects<int>, st: Status)
    requires COUNTER in o.store && COPY in o.store && CountsThenFails(work)
    ensures var rules := StoreRules(work, alike);
            rules.apply(o, OLD, st) == Made(Counted(o), CountingLayer(o)) && rules.back(CountingLayer(o), Counted(o)) == Raised(o)
  {
    assert work(o, OLD, st) == CountingBody(o);
    CountingBlock(o);
  }

  lemma NewFails(work: (Objects<int>, BlockId, Status) -> Body<int>, alike: (Objects<int>, Objects<int>) -> bool,
                 o: Objects<int>, st: Status)
    requires CountsThenFails(work)
    ensures var r := StoreRules(work, alike).apply(o, NEW, st); r.Failed? && Undone(StoreRules(work, alike), r) == o
  {
    assert work(o, NEW, st) == FAILING;
    FailingBlock(o);
  }

  lemma OldHistory(work: (Objects<int>, BlockId, Status) -> Body<int>, alike: (Objects<int>, Objects<int>) -> bool,
                   o: Objects<int>)
    requires COUNTER in o.store && COPY in o.store && CountsThenFails(work)
    ensures History(StoreRules(work, alike), TWO, 1, OLD, Counted(o), [Frame(o, CountingLayer(o))])
  {
    var f := Frame(o, CountingLayer(o));
    OldApplies(work, alike, o, Validated);
    OldApplies(work, alike, o, Complete);
    assert Turns(StoreRules(work, alike), TWO, OLD, f, Counted(o));
    assert History(StoreRules(work, alike), TWO, 1, PARENT, o, [f][..0]);
  }

  lemma CountedAgain(rules: Rules<Objects<int>, Layer<int>>, o: Objects<int>)
    requires COUNTER in o.store && COPY in o.store && rules.back(CountingLayer(o), Counted(o)) == Raised(o)
    requires var r := rules.apply(Raised(o), NEW, Complete); r.Failed? && Undone(rules, r) == Raised(o)
    requires rules.apply(Raised(o), OLD, Validated) == Made(Counted(Raised(o)), CountingLayer(Raised(o)))
    ensures var s := BackThrough(rules, Counted(o), Newest([Frame(o, CountingLayer(o))], 1));
            && Verdict(rules, TWO, s, [NEW], [OLD]) == Restored
            && ApplyAll(rules, AllValid(TWO), Dropped(rules, TWO, s, [NEW], FailPos(rules, TWO, s, [NEW], 0)), [OLD], 0) ==
               Some(Counted(Raised(o)))
  {
    assert StatusOf(TWO, NEW) == Complete;
    OneForOne(rules, TWO, OLD, NEW, Frame(o, CountingLayer(o)), Counted(o));
  }

  /** The old block was applied to the objects of `o`. The switch to the new block fails and the old branch is applied
      again, but to a counter one higher than at first: the copy it leaves is one too high. */
  lemma SwitchDoesNotRestore(work: (Objects<int>, BlockId, Status) -> Body<int>, alike: (Objects<int>, Objects<int>) -> bool,
                             o: Objects<int>, rules: Rules<Objects<int>, Layer<int>>)
    requires COUNTER in o.store && COPY in o.store && CountsThenFails(work) && rules == StoreRules(work, alike)
    ensures Tree(TWO, BlockId(0, 0), 1) && Branches(TWO, NEW, OLD, [NEW], [OLD]) && Joined(TWO, NEW, OLD)
    ensures FlagsFollow(TWO, OLD) && Best(TWO, NEW) && Better(TWO[NEW], TWO[OLD]) && !Passed(TWO, 1)
    ensures History(rules, TWO, 1, OLD, Counted(o), [Frame(o, CountingLayer(o))])
    ensures var s := BackThrough(rules, Counted(o), Newest([Frame(o, CountingLayer(o))], 1));
            && Verdict(rules, TWO, s, [NEW], [OLD]) == Restored
            && ApplyAll(rules, AllValid(TWO), Dropped(rules, TWO, s, [NEW], FailPos(rules, TWO, s, [NEW], 0)), [OLD], 0) ==
               Some(Counted(Raised(o)))
    ensures Counted(Raised(o)).store[COPY] == Counted(o).store[COPY] + 1
  {
    TwoBranches();
    OldHistory(work, alike, o);
    OldApplies(work, alike, o, Validated);
    NewFails(work, alike, Raised(o), Complete);
    OldApplies(work, alike, Raised(o), Validated);
    CountedAgain(rules, o);
  }

  /** The same on a controller: its head is the old one again, and its database is not. */
  method FailedSwitch(c: Controller<Objects<int>, Layer<int>>, st: Status,
                      ghost work: (Objects<int>, BlockId, Status) -> Body<int>,
                      ghost alike: (Objects<int>, Objects<int>) -> bool, ghost o: Objects<int>)
    requires COUNTER in o.store && COPY in o.store && CountsThenFails(work) && c.rules == StoreRules(work, alike)
    requires c.InStep() && c.fork.index == TWO && c.fork.head == NEW && c.head == OLD
    requires c.db == Counted(o) && c.undo == [Frame(o, CountingLayer(o))]
    modifies c`db, c`undo, c`head, c.fork`index, c.fork`head
    ensures c.head == OLD && c.fork.index == Without(TWO, NEW)
    ensures COPY in c.db.store && c.db.store[COPY] == Counted(o).store[COPY] + 1
  {
    ghost var root, base := c.fork.root, c.fork.base;
    var e;
    ghost var a, b, bad;
    e, a, b, bad := c.MaybeSwitchForks(st);
    CountedOnceMore(c.rules, work, alike, o, root, base, st, e, a, b, bad, c.fork.index, c.fork.head, c.head, c.db, c.undo);
  }

  lemma CountedOnceMore(rules: Rules<Objects<int>, Layer<int>>, work: (Objects<int>, BlockId, Status) -> Body<int>,
                        alike: (Objects<int>, Objects<int>) -> bool, o: Objects<int>, root: BlockId, base: nat, st: Status,
                        e: Ending, a: seq<BlockId>, b: seq<BlockId>, bad: BlockId,
                        ix': Index, best': BlockId, head': BlockId, db': Objects<int>, undo': seq<Frame<Objects<int>, Layer<int>>>)
    requires COUNTER in o.store && COPY in o.store && CountsThenFails(work) && rules == StoreRules(work, alike) && Tree(TWO, root, base)
    requires Decided(rules, TWO, OLD, Counted(o), [Frame(o, CountingLayer(o))], NEW, st, e, a, b)
    requires Followed(rules, TWO, OLD, Counted(o), [Frame(o, CountingLayer(o))], NEW, st, e, a, b, bad, ix', best', head', db', undo')
    ensures head' == OLD && ix' == Without(TWO, NEW) && db' == Counted(Raised(o))
  {
    var undo := [Frame(o, CountingLayer(o))];
    SwitchDoesNotRestore(work, alike, o, rules);
    OldIsNoParent();
    BranchesUnique(TWO, root, base, NEW, OLD, a, b, [NEW], [OLD]);
    OneRestored(rules, TWO, OLD, NEW, Counted(o), undo, st, e, bad, ix', best', head', db', undo');
  }

  lemma OldIsNoParent()
    ensures NEW in TWO && OLD in TWO && NEW != OLD && TWO[NEW].prev != OLD
  {
  }

  // ------------------------------------------------------------------
  // Ids are not taken back
  // ------------------------------------------------------------------

  /** A block that inserts one object. */
  function InsertingBody<V>(kind: string, v: V): Body<V> {
    Body([Insert(kind, v)], false, Trx([], false, false), [], false, [], [], false)
  }

  lemma InsertingOps<V>(kind: string, v: V)
    ensures BlockBody(InsertingBody(kind, v)) == [Insert(kind, v), Op<V>.Start, Op<V>.Squash]
  {
    assert RestOps(InsertingBody(kind, v)) == [];
  }

  /** The record of the inserting block. */
  function InsertingLayer<V>(o: Objects<V>, kind: string, v: V): Layer<V> {
    AfterInsert(EmptyLayer(o.revision + 1), FreshKey(Bare(o), kind), v)
  }

  lemma InsertingSteps<V>(o: Objects<V>, kind: string, v: V)
    ensures RunBlock(Bare(o), InsertingBody(kind, v)) ==
            Step(Step(Step(Db(o.store, [EmptyLayer(o.revision + 1)], o.revision + 1, o.nextId), Insert(kind, v)), Op<V>.Start), Op<V>.Squash)
  {
    StartBare(o);
    InsertingOps(kind, v);
    RunThree(Step(Bare(o), Op<V>.Start), Insert(kind, v), Op<V>.Start, Op<V>.Squash);
  }

  function InsertedDb<V>(o: Objects<V>, kind: string, v: V): Db<V> {
    var k := FreshKey(Bare(o), kind);
    Db(o.store[k := v], [InsertingLayer(o, kind, v)], o.revision + 1, o.nextId[kind := k.id + 1])
  }

  lemma InsertedFirst<V>(o: Objects<V>, kind: string, v: V)
    ensures Step(Db(o.store, [EmptyLayer(o.revision + 1)], o.revision + 1, o.nextId), Insert(kind, v)) == InsertedDb(o, kind, v)
  {
    InsertStep(Db(o.store, [EmptyLayer(o.revision + 1)], o.revision + 1, o.nextId), EmptyLayer(o.revision + 1), kind, v);
  }

  lemma InsertingRun<V>(o: Objects<V>, kind: string, v: V)
    ensures RunBlock(Bare(o), InsertingBody(kind, v)) == InsertedDb(o, kind, v)
  {
    InsertingSteps(o, kind, v);
    InsertedFirst(o, kind, v);
    var db := InsertedDb(o, kind, v);
    EmptySession(db.store, InsertingLayer(o, kind, v), db.revision, db.nextId);
  }

  lemma InsertUndone<V>(store: map<Key, V>, k: Key, v: V, revision: int)
    requires k !in store
    ensures UndoStore(AfterInsert(EmptyLayer(revision), k, v), store[k := v]) == store
  {
    SameMaps(UndoStore(AfterInsert(EmptyLayer(revision), k, v), store[k := v]), store);
  }

  /** Undoing a block that inserts an object brings the objects back, but not the id: applied again, the block stores its
      object under the next one. The two databases hold the same objects up to that id, and are not equal. */
  lemma InsertedAgain<V>(o: Objects<V>, kind: string, v: V)
    requires FreshKey(Bare(o), kind) !in o.store
    ensures var k, body := FreshKey(Bare(o), kind), InsertingBody(kind, v);
            var first := Attempted(o, body);
            var back := TakenBack(first.layer, first.after);
            && back.store == o.store && back.nextId == o.nextId[kind := k.id + 1]
            && first.after.store == o.store[k := v] && Attempted(back, body).after.store == o.store[Key(kind, k.id + 1) := v]
  {
    InsertingRun(o, kind, v);
    var k, body := FreshKey(Bare(o), kind), InsertingBody(kind, v);
    var first := Attempted(o, body);
    InsertUndone(o.store, k, v, o.revision + 1);
    InsertingRun(TakenBack(first.layer, first.after), kind, v);
  }

  // ------------------------------------------------------------------
  // Blocks that insert nothing
  // ------------------------------------------------------------------

  /** The same objects and the same records, whatever the ids and revisions. */
  ghost predicate SameRecords<V>(db: Db<V>, q: Db<V>) {
    db.store == q.store && SameLayers(db.layers, q.layers)
  }

  ghost predicate SameLayers<V>(ls: seq<Layer<V>>, ms: seq<Layer<V>>) {
    |ls| == |ms| && forall i :: 0 <= i < |ls| ==> SameMapsIn(ls[i], ms[i])
  }

  ghost predicate SameMapsIn<V>(l: Layer<V>, m: Layer<V>) {
    l.added == m.added && l.edited == m.edited && l.removed == m.removed
  }

  ghost predicate InsertsNothing<V>(ops: seq<Op<V>>) {
    forall i :: 0 <= i < |ops| ==> !ops[i].Insert? && !ops[i].Commit?
  }

  lemma SameJoined<V>(ls: seq<Layer<V>>, ms: seq<Layer<V>>, l: Layer<V>, m: Layer<V>)
    requires SameLayers(ls, ms) && SameMapsIn(l, m)
    ensures SameLayers(ls + [l], ms + [m])
  {
  }

  lemma SameCut<V>(ls: seq<Layer<V>>, ms: seq<Layer<V>>, n: nat)
    requires SameLayers(ls, ms) && n <= |ls|
    ensures SameLayers(ls[..n], ms[..n]) && (n < |ls| ==> SameMapsIn(ls[n], ms[n]))
  {
  }

  lemma RecordSame<V>(db: Db<V>, q: Db<V>, l: Layer<V>, m: Layer<V>)
    requires SameRecords(db, q) && db.layers != [] && SameMapsIn(l, m)
    ensures SameLayers(Recorded(db, l), Recorded(q, m))
  {
    SameCut(db.layers, q.layers, |db.layers| - 1);
    SameJoined(Below(db), Below(q), l, m);
  }

  lemma SquashSame<V>(l: Layer<V>, m: Layer<V>, pre: Layer<V>, pre': Layer<V>)
    requires SameMapsIn(l, m) && SameMapsIn(pre, pre')
    ensures SameMapsIn(SquashLayer(l, pre), SquashLayer(m, pre'))
  {
  }

  lemma SquashSameRecords<V>(db: Db<V>, q: Db<V>)
    requires SameRecords(db, q) && |db.layers| > 1
    ensures SameRecords(Step(db, Op<V>.Squash), Step(q, Op<V>.Squash))
  {
    var n := |db.layers|;
    SquashStep(db);
    SquashStep(q);
    SameCut(db.layers, q.layers, n - 1);
    SameCut(db.layers, q.layers, n - 2);
    SquashSame(db.layers[n - 1], q.layers[n - 1], db.layers[n - 2], q.layers[n - 2]);
    LayersAre(Step(db, Op<V>.Squash));
    LayersAre(Step(q, Op<V>.Squash));
    SameJoined(db.layers[..n - 2], q.layers[..n - 2], Top(Step(db, Op<V>.Squash)), Top(Step(q, Op<V>.Squash)));
  }

  lemma UndoSame<V>(db: Db<V>, q: Db<V>)
    requires SameRecords(db, q) && db.layers != []
    ensures SameRecords(Step(db, Op<V>.Undo), Step(q, Op<V>.Undo))
  {
    SameCut(db.layers, q.layers, |db.layers| - 1);
    SameMaps(UndoStore(Top(db), db.store), UndoStore(Top(q), q.store));
  }

  lemma StepSameRecords<V>(db: Db<V>, q: Db<V>, op: Op<V>)
    requires SameRecords(db, q) && !op.Insert? && !op.Commit?
    ensures SameRecords(Step(db, op), Step(q, op))
  {
    if op.Start? {
      SameJoined(db.layers, q.layers, EmptyLayer(db.revision + 1), EmptyLayer(q.revision + 1));
    } else if db.layers != [] {
      SameCut(db.layers, q.layers, |db.layers| - 1);
      match op
      case Modify(k, was, now) => RecordSame(db, q, AfterModify(Top(db), k, was, now), AfterModify(Top(q), k, was, now));
      case Remove(k, copy) => RecordSame(db, q, AfterRemove(Top(db), k, copy), AfterRemove(Top(q), k, copy));
      case Undo => UndoSame(db, q);
      case Squash => if |db.layers| > 1 { SquashSameRecords(db, q); }
    }
  }

  lemma {:induction false} RunSameRecords<V>(db: Db<V>, q: Db<V>, ops: seq<Op<V>>)
    requires SameRecords(db, q) && InsertsNothing(ops)
    ensures SameRecords(RunDb(db, ops), RunDb(q, ops))
    decreases |ops|
  {
    if ops != [] {
      StepSameRecords(db, q, ops[0]);
      RunSameRecords(Step(db, ops[0]), Step(q, ops[0]), ops[1..]);
    }
  }

  /** If what a block does depends on the objects alone, not on its status, and it inserts nothing, the rules are regular
      with states alike exactly when they hold the same objects. */
  lemma InsertFreeIsRegular<V(!new)>(work: (Objects<V>, BlockId, Status) -> Body<V>)
    requires forall o, p, b, st, st' :: SameStore(o, p) ==> work(o, b, st) == work(p, b, st')
    requires forall o, b, st :: InsertsNothing(BlockBody(work(o, b, st)))
    ensures Regular(StoreRules(work, (o, p) => SameStore(o, p)))
  {
    var rules := StoreRules(work, (o, p) => SameStore(o, p));
    StoresAreNear(work, (o, p) => SameStore(o, p));
    forall o, p, b, st | rules.alike(o, p) ensures SameEffect(rules, o, p, b, st) {
      assert SameStore(o, p);
      RunSameRecords(Step(Bare(o), Op<V>.Start), Step(Bare(p), Op<V>.Start), BlockBody(work(o, b, st)));
    }
    forall o, b ensures rules.apply(o, b, Validated) == rules.apply(o, b, Complete) {
      assert SameStore(o, o);
    }
  }
}
