/** The laws of the undo log over every run of the database's operations. */
module UndoLaws {
  import opened Options
  import opened UndoLog

  // ------------------------------------------------------------------
  // Well-formed databases
  // ------------------------------------------------------------------

  predicate Untouched<V>(ls: seq<Layer<V>>, k: Key) {
    forall i :: 0 <= i < |ls| ==> !Records(ls[i], k)
  }

  /** At most one of the three maps of a layer records a key. */
  predicate DisjointAt<V>(l: Layer<V>, k: Key) {
    !(k in l.added && k in l.edited) && !(k in l.added && k in l.removed) && !(k in l.edited && k in l.removed)
  }

  /** What layer `l` records of `k` fits the value `v` that `k` had when the next layer was opened. */
  predicate TopOk<V>(l: Layer<V>, k: Key, v: Option<V>) {
    && DisjointAt(l, k)
    && (k in l.added || k in l.edited ==> v.Some?)
    && (k in l.removed ==> v.None?)
  }

  predicate KeyOk<V>(ls: seq<Layer<V>>, k: Key, v: Option<V>) {
    ls == [] ||
    var top, below := ls[|ls| - 1], ls[..|ls| - 1];
    && TopOk(top, k, v)
    && (k in top.added ==> Untouched(below, k))
    && KeyOk(below, k, UndoAt(top, k, v))
  }

  /** An id that was handed out. */
  predicate Issued<V>(db: Db<V>, k: Key) {
    k.kind in db.nextId && k.id < db.nextId[k.kind]
  }

  ghost predicate Wf<V>(db: Db<V>) {
    && (forall k {:trigger KeyOk(db.layers, k, Get(db.store, k))} :: KeyOk(db.layers, k, Get(db.store, k)))
    && (forall k {:trigger k in db.store} :: k in db.store ==> Issued(db, k))
    && (forall k {:trigger Untouched(db.layers, k)} :: !Issued(db, k) ==> Untouched(db.layers, k))
    && (forall i :: 0 <= i < |db.layers| ==> db.layers[i].revision == db.revision - (|db.layers| - 1 - i))
  }

  // ------------------------------------------------------------------
  // Promises: what each open session will bring back
  // ------------------------------------------------------------------

  /** For one open session: the store when it started, and the keys that will come back
      with another value than they had then. */
  datatype Mark<V> = Mark(snapshot: map<Key, V>, lost: map<Key, V>)

  datatype Watched<V> = Watched(db: Db<V>, marks: seq<Mark<V>>)

  function Promise<V>(m: Mark<V>, k: Key): Option<V> {
    if k in m.lost then Some(m.lost[k]) else Get(m.snapshot, k)
  }

  /** `k` now comes back as `v` at the newest session, and at each older one down to the
      first whose own layer records `k`. */
  function Lose<V>(marks: seq<Mark<V>>, below: seq<Layer<V>>, k: Key, v: V): (r: seq<Mark<V>>)
    requires |marks| == |below| + 1
    ensures |r| == |marks|
  {
    seq(|marks|, i requires 0 <= i < |marks| =>
      if Untouched(below[i..], k) then marks[i].(lost := marks[i].lost[k := v]) else marks[i])
  }

  /** The same for every key that `top` removed after `pre` had modified it. */
  function LoseSquashed<V>(marks: seq<Mark<V>>, below: seq<Layer<V>>, top: Layer<V>, pre: Layer<V>): (r: seq<Mark<V>>)
    requires |marks| == |below| + 1
    ensures |r| == |marks|
  {
    seq(|marks|, i requires 0 <= i < |marks| =>
      marks[i].(lost := marks[i].lost +
        map k | k in top.removed && k in pre.edited && Untouched(below[i..], k) :: top.removed[k]))
  }

  function RemoveMarks<V>(w: Watched<V>, k: Key, copy: V): (r: seq<Mark<V>>)
    requires |w.marks| == |w.db.layers|
    ensures |r| == |w.marks|
  {
    if w.db.layers != [] && k in w.db.store && k in Top(w.db).edited && k !in Top(w.db).added
    then Lose(w.marks, Below(w.db), k, copy) else w.marks
  }

  function SquashMarks<V>(w: Watched<V>): (r: seq<Mark<V>>)
    requires |w.marks| == |w.db.layers|
    ensures |r| == if w.marks == [] then 0 else |w.marks| - 1
  {
    var n := |w.marks|;
    if n <= 1 then []
    else LoseSquashed(w.marks[..n - 1], w.db.layers[..n - 2], w.db.layers[n - 1], w.db.layers[n - 2])
  }

  function MarksAfter<V>(w: Watched<V>, op: Op<V>): seq<Mark<V>>
    requires |w.marks| == |w.db.layers|
  {
    match op
    case Insert(_, _) => w.marks
    case Modify(_, _, _) => w.marks
    case Remove(k, copy) => RemoveMarks(w, k, copy)
    case Start => w.marks + [Mark(w.db.store, map[])]
    case Undo => if w.marks == [] then [] else w.marks[..|w.marks| - 1]
    case Squash => SquashMarks(w)
    case Commit(r) => w.marks[|w.marks| - |Keep(w.db.layers, r)|..]
  }

  function WatchedStep<V>(w: Watched<V>, op: Op<V>): (r: Watched<V>)
    requires |w.marks| == |w.db.layers|
    ensures |r.marks| == |r.db.layers|
    ensures r.db == Step(w.db, op)
  {
    StepDepth(w.db, op);
    Watched(Step(w.db, op), MarksAfter(w, op))
  }

  lemma StepDepth<V>(db: Db<V>, op: Op<V>)
    ensures |Step(db, op).layers| ==
            match op
            case Start => |db.layers| + 1
            case Undo => if db.layers == [] then 0 else |db.layers| - 1
            case Squash => if db.layers == [] then 0 else |db.layers| - 1
            case Commit(r) => |Keep(db.layers, r)|
            case _ => |db.layers|
  {
  }

  ghost predicate Kept<V>(w: Watched<V>) {
    && |w.marks| == |w.db.layers|
    && forall i, k {:trigger Promise(w.marks[i], k)} :: 0 <= i < |w.marks| ==>
         HorizonAt(w.db.layers[i..], k, Get(w.db.store, k)) == Promise(w.marks[i], k)
  }

  /** The caller hands in the object as it is stored; `Modify` is called on live objects. */
  predicate Faithful<V(==)>(db: Db<V>, op: Op<V>) {
    match op
    case Modify(k, was, _) => k in db.store && db.store[k] == was
    case Remove(k, copy) => k in db.store ==> db.store[k] == copy
    case Squash => db.layers != []
    case _ => true
  }

  // ------------------------------------------------------------------
  // One key, one layer
  // ------------------------------------------------------------------

  /** Only whether the key is live matters to well-formedness. */
  lemma {:induction false} KeyOkLiveness<V>(ls: seq<Layer<V>>, k: Key, v: Option<V>, v': Option<V>)
    requires KeyOk(ls, k, v) && (v.Some? <==> v'.Some?)
    ensures KeyOk(ls, k, v')
  {
    if ls != [] {
      var top := ls[|ls| - 1];
      KeyOkLiveness(ls[..|ls| - 1], k, UndoAt(top, k, v), UndoAt(top, k, v'));
    }
  }

  /** A changed value at the top shows through exactly the layers that do not record the key. */
  lemma {:induction false} HorizonThrough<V>(ls: seq<Layer<V>>, k: Key, v: Option<V>, v': Option<V>)
    ensures HorizonAt(ls, k, v') == if Untouched(ls, k) then v' else HorizonAt(ls, k, v)
    ensures Untouched(ls, k) ==> HorizonAt(ls, k, v) == v
  {
    if ls != [] {
      var top, below := ls[|ls| - 1], ls[..|ls| - 1];
      HorizonThrough(below, k, UndoAt(top, k, v), UndoAt(top, k, v'));
    }
  }

  lemma HorizonSplit<V>(below: seq<Layer<V>>, top: Layer<V>, i: nat, k: Key, v: Option<V>)
    requires i <= |below|
    ensures HorizonAt((below + [top])[i..], k, v) == HorizonAt(below[i..], k, UndoAt(top, k, v))
  {
    var ls := (below + [top])[i..];
    assert ls[..|ls| - 1] == below[i..] && ls[|ls| - 1] == top;
  }

  lemma KeyOkSplit<V>(below: seq<Layer<V>>, top: Layer<V>, k: Key, v: Option<V>)
    ensures KeyOk(below + [top], k, v) <==>
            TopOk(top, k, v) && (k in top.added ==> Untouched(below, k)) && KeyOk(below, k, UndoAt(top, k, v))
  {
    var ls := below + [top];
    assert ls[..|ls| - 1] == below && ls[|ls| - 1] == top;
  }

  /** Squashing composes undoing: one undo of the merged layer brings `k` back as the two
      undos would have, exactly unless the lower layer modified `k`, the upper removed it,
      and the two recorded values differ. */
  lemma SquashComposes<V>(top: Layer<V>, pre: Layer<V>, k: Key, v: Option<V>)
    requires TopOk(top, k, v) && TopOk(pre, k, UndoAt(top, k, v))
    requires k in top.added ==> !Records(pre, k)
    ensures UndoAt(SquashLayer(top, pre), k, v) ==
            if k in pre.edited && k in top.removed then Some(top.removed[k])
            else UndoAt(pre, k, UndoAt(top, k, v))
    ensures UndoAt(SquashLayer(top, pre), k, v) == UndoAt(pre, k, UndoAt(top, k, v)) <==>
            !(k in pre.edited && k in top.removed && top.removed[k] != pre.edited[k].was)
    ensures TopOk(SquashLayer(top, pre), k, v)
    ensures Records(SquashLayer(top, pre), k) ==> Records(top, k) || Records(pre, k)
    ensures k in SquashLayer(top, pre).added ==> k in top.added || k in pre.added
  {
  }

  // ------------------------------------------------------------------
  // Each operation keeps well-formedness and every promise
  // ------------------------------------------------------------------

  /** The two layers agree on every key but `k`. */
  ghost predicate AgreeOff<V>(l: Layer<V>, l': Layer<V>, k: Key) {
    && l.revision == l'.revision
    && l'.added - {k} == l.added - {k}
    && l'.edited - {k} == l.edited - {k}
    && l'.removed - {k} == l.removed - {k}
  }

  lemma AgreeAt<V>(l: Layer<V>, l': Layer<V>, k: Key, j: Key)
    requires AgreeOff(l, l', k) && j != k
    ensures j in l.added <==> j in l'.added
    ensures j in l.edited <==> j in l'.edited
    ensures j in l.removed <==> j in l'.removed
    ensures forall v: Option<V> :: UndoAt(l', j, v) == UndoAt(l, j, v)
    ensures forall v: Option<V> :: TopOk(l, j, v) <==> TopOk(l', j, v)
  {
    assert j in l.added <==> j in l.added - {k};
    assert j in l'.added <==> j in l'.added - {k};
    assert j in l.edited <==> j in l.edited - {k};
    assert j in l'.edited <==> j in l'.edited - {k};
    assert j in l.removed <==> j in l.removed - {k};
    assert j in l'.removed <==> j in l'.removed - {k};
    assert j in l.edited ==> l.edited[j] == (l.edited - {k})[j] == (l'.edited - {k})[j] == l'.edited[j];
    assert j in l.removed ==> l.removed[j] == (l.removed - {k})[j] == (l'.removed - {k})[j] == l'.removed[j];
  }

  /** An operation on one key that keeps the newest layer fit for that key. */
  lemma TouchKeepsWf<V>(db: Db<V>, db': Db<V>, k: Key)
    requires Wf(db) && db.layers != [] && db'.layers != []
    requires Below(db') == Below(db) && AgreeOff(Top(db), Top(db'), k)
    requires db'.revision == db.revision
    requires db'.store - {k} == db.store - {k}
    requires Issued(db', k) && forall j :: Issued(db, j) ==> Issued(db', j)
    requires TopOk(Top(db'), k, Get(db'.store, k))
    requires k in Top(db').added ==> Untouched(Below(db), k)
    requires UndoAt(Top(db'), k, Get(db'.store, k)).Some? <==> UndoAt(Top(db), k, Get(db.store, k)).Some?
    ensures Wf(db')
  {
    var below, top, top' := Below(db), Top(db), Top(db');
    assert db.layers == below + [top] && db'.layers == below + [top'];
    forall j ensures KeyOk(db'.layers, j, Get(db'.store, j)) {
      KeyOkSplit(below, top, j, Get(db.store, j));
      KeyOkSplit(below, top', j, Get(db'.store, j));
      if j == k {
        KeyOkLiveness(below, k, UndoAt(top, k, Get(db.store, k)), UndoAt(top', k, Get(db'.store, k)));
      } else {
        AgreeAt(top, top', k, j);
        StoreOff(db.store, db'.store, k, j);
      }
    }
    forall j | !Issued(db', j) ensures Untouched(db'.layers, j) {
      assert Untouched(db.layers, j);
      AgreeAt(top, top', k, j);
      forall i | 0 <= i < |db'.layers| ensures !Records(db'.layers[i], j) {
        assert !Records(db.layers[i], j);
      }
    }
    forall j | j in db'.store ensures Issued(db', j) {
      if j != k { StoreOff(db.store, db'.store, k, j); }
    }
  }

  lemma StoreOff<V>(s: map<Key, V>, s': map<Key, V>, k: Key, j: Key)
    requires s' - {k} == s - {k} && j != k
    ensures Get(s', j) == Get(s, j)
    ensures j in s' <==> j in s
  {
    assert j in s <==> j in s - {k};
    assert j in s' <==> j in s' - {k};
    assert j in s ==> s[j] == (s - {k})[j] == (s' - {k})[j] == s'[j];
  }

  lemma InsertKeepsWf<V>(db: Db<V>, kind: string, v: V)
    requires Wf(db)
    ensures Wf(Step(db, Insert(kind, v)))
  {
    var db', k := Step(db, Insert(kind, v)), FreshKey(db, kind);
    assert !Issued(db, k) && Untouched(db.layers, k);
    assert db'.store - {k} == db.store - {k};
    if db.layers != [] {
      assert db.layers == Below(db) + [Top(db)];
      KeyOkSplit(Below(db), Top(db), k, Get(db.store, k));
      assert !Records(db.layers[|db.layers| - 1], k);
      InsertAgreesOff(Top(db), k, v);
      TouchKeepsWf(db, db', k);
    } else {
      assert forall j :: j in db'.store ==> j == k || j in db.store;
    }
  }

  lemma InsertAgreesOff<V>(l: Layer<V>, k: Key, v: V)
    ensures AgreeOff(l, AfterInsert(l, k, v), k)
  {
  }

  lemma ModifyAgreesOff<V>(l: Layer<V>, k: Key, was: V, now: V)
    ensures AgreeOff(l, AfterModify(l, k, was, now), k)
  {
  }

  lemma RemoveAgreesOff<V>(l: Layer<V>, k: Key, copy: V)
    ensures AgreeOff(l, AfterRemove(l, k, copy), k)
  {
  }

  lemma ModifyKeepsWf<V>(db: Db<V>, k: Key, was: V, now: V)
    requires Wf(db) && k in db.store
    ensures Wf(Step(db, Modify(k, was, now)))
  {
    var db' := Step(db, Modify(k, was, now));
    assert db'.store - {k} == db.store - {k};
    if db.layers != [] {
      assert db.layers == Below(db) + [Top(db)];
      KeyOkSplit(Below(db), Top(db), k, Get(db.store, k));
      ModifyAgreesOff(Top(db), k, was, now);
      TouchKeepsWf(db, db', k);
    }
  }

  lemma RemoveKeepsWf<V>(db: Db<V>, k: Key, copy: V)
    requires Wf(db)
    ensures Wf(Step(db, Remove(k, copy)))
  {
    var db' := Step(db, Remove(k, copy));
    assert db'.store - {k} == db.store - {k};
    if db.layers != [] && k in db.store {
      assert db.layers == Below(db) + [Top(db)];
      KeyOkSplit(Below(db), Top(db), k, Get(db.store, k));
      RemoveAgreesOff(Top(db), k, copy);
      TouchKeepsWf(db, db', k);
    }
  }

  lemma StartKeepsWf<V>(db: Db<V>)
    requires Wf(db)
    ensures Wf(Step(db, Op<V>.Start))
  {
    var db' := Step(db, Op<V>.Start);
    forall k ensures KeyOk(db'.layers, k, Get(db'.store, k)) {
      KeyOkSplit(db.layers, EmptyLayer(db.revision + 1), k, Get(db.store, k));
    }
    forall k | !Issued(db', k) ensures Untouched(db'.layers, k) {
      assert Untouched(db.layers, k);
    }
  }

  /** Every operation called on live objects keeps the database well formed: the three maps
      of each layer disjoint, ids never reissued, revisions consecutive. */
  lemma StepKeepsWf<V>(db: Db<V>, op: Op<V>)
    requires Wf(db) && (op.Modify? ==> op.key in db.store) && (op.Squash? ==> db.layers != [])
    ensures Wf(Step(db, op))
  {
    match op
    case Insert(kind, v) => InsertKeepsWf(db, kind, v);
    case Modify(k, was, now) => ModifyKeepsWf(db, k, was, now);
    case Remove(k, copy) => RemoveKeepsWf(db, k, copy);
    case Start => StartKeepsWf(db);
    case Undo => UndoKeepsWf(db);
    case Squash => if |db.layers| > 1 { SquashKeepsWf(db); }
    case Commit(r) => CommitKeepsWf(db, r);
  }

  lemma UndoKeepsWf<V>(db: Db<V>)
    requires Wf(db)
    ensures Wf(Step(db, Op<V>.Undo))
  {
    if db.layers != [] {
      var db' := Step(db, Op<V>.Undo);
      assert db.layers == Below(db) + [Top(db)];
      forall k ensures KeyOk(db'.layers, k, Get(db'.store, k)) {
        KeyOkSplit(Below(db), Top(db), k, Get(db.store, k));
      }
      forall k | !Issued(db', k) ensures Untouched(db'.layers, k) && k !in db'.store {
        assert Untouched(db.layers, k);
        assert !Records(db.layers[|db.layers| - 1], k);
        assert Get(db'.store, k) == UndoAt(Top(db), k, Get(db.store, k));
      }
    }
  }

  lemma SquashKeepsKeyOk<V>(rest: seq<Layer<V>>, pre: Layer<V>, top: Layer<V>, k: Key, v: Option<V>)
    requires KeyOk((rest + [pre]) + [top], k, v)
    ensures KeyOk(rest + [SquashLayer(top, pre)], k, v)
  {
    var merged := SquashLayer(top, pre);
    KeyOkSplit(rest + [pre], top, k, v);
    KeyOkSplit(rest, pre, k, UndoAt(top, k, v));
    KeyOkSplit(rest, merged, k, v);
    if k in top.added {
      assert !Records((rest + [pre])[|rest|], k);
      forall i | 0 <= i < |rest| ensures !Records(rest[i], k) { assert !Records((rest + [pre])[i], k); }
    }
    SquashComposes(top, pre, k, v);
    KeyOkLiveness(rest, k, UndoAt(pre, k, UndoAt(top, k, v)), UndoAt(merged, k, v));
  }

  lemma SquashKeepsWf<V>(db: Db<V>)
    requires Wf(db) && |db.layers| > 1
    ensures Wf(Step(db, Op<V>.Squash))
  {
    var db', n := Step(db, Op<V>.Squash), |db.layers|;
    var rest, pre, top := db.layers[..n - 2], db.layers[n - 2], db.layers[n - 1];
    var merged := SquashLayer(top, pre);
    assert db.layers == (rest + [pre]) + [top] && db'.layers == rest + [merged];
    forall k ensures KeyOk(db'.layers, k, Get(db'.store, k)) {
      SquashKeepsKeyOk(rest, pre, top, k, Get(db.store, k));
    }
    forall k | !Issued(db', k) ensures Untouched(db'.layers, k) {
      assert Untouched(db.layers, k);
      SquashUntouched(rest, pre, top, k);
    }
  }

  lemma SquashUntouched<V>(rest: seq<Layer<V>>, pre: Layer<V>, top: Layer<V>, k: Key)
    requires Untouched((rest + [pre]) + [top], k)
    ensures Untouched(rest + [SquashLayer(top, pre)], k)
  {
    var ls := (rest + [pre]) + [top];
    assert !Records(ls[|rest|], k) && !Records(ls[|rest| + 1], k);
    forall i | 0 <= i < |rest| ensures !Records(rest[i], k) {
      assert !Records(ls[i], k);
    }
  }

  lemma {:induction false} KeyOkSuffix<V>(ls: seq<Layer<V>>, i: nat, k: Key, v: Option<V>)
    requires i <= |ls| && KeyOk(ls, k, v)
    ensures KeyOk(ls[i..], k, v)
  {
    if i < |ls| {
      var below, top := ls[..|ls| - 1], ls[|ls| - 1];
      KeyOkSuffix(below, i, k, UndoAt(top, k, v));
      KeyOkSplit(below[i..], top, k, v);
      assert ls[i..] == below[i..] + [top];
      assert k in top.added ==> Untouched(below, k);
    }
  }

  lemma CommitKeepsWf<V>(db: Db<V>, r: int)
    requires Wf(db)
    ensures Wf(Step(db, Op<V>.Commit(r)))
  {
    var db' := Step(db, Op<V>.Commit(r));
    KeepIsSuffix(db.layers, r);
    var d := |db.layers| - |db'.layers|;
    forall k ensures KeyOk(db'.layers, k, Get(db'.store, k)) {
      KeyOkSuffix(db.layers, d, k, Get(db.store, k));
    }
    forall k | !Issued(db', k) ensures Untouched(db'.layers, k) {
      assert Untouched(db.layers, k);
      forall i | 0 <= i < |db'.layers| ensures !Records(db'.layers[i], k) {
        assert !Records(db.layers[d + i], k);
      }
    }
  }

  // ------------------------------------------------------------------

  /** An operation on one key moves the horizon of no other key, and of that key as far as the
      change shows through older layers. */
  lemma TouchMovesHorizon<V>(db: Db<V>, db': Db<V>, k: Key, i: nat, j: Key)
    requires i < |db.layers| == |db'.layers|
    requires Below(db') == Below(db) && AgreeOff(Top(db), Top(db'), k)
    requires db'.store - {k} == db.store - {k}
    ensures HorizonAt(db'.layers[i..], j, Get(db'.store, j)) ==
            if j == k && Untouched(Below(db)[i..], k) then UndoAt(Top(db'), k, Get(db'.store, k))
            else HorizonAt(db.layers[i..], j, Get(db.store, j))
    ensures Untouched(Below(db)[i..], k) ==>
            HorizonAt(db.layers[i..], k, Get(db.store, k)) == UndoAt(Top(db), k, Get(db.store, k))
  {
    var below, top, top' := Below(db), Top(db), Top(db');
    assert db.layers == below + [top] && db'.layers == below + [top'];
    HorizonSplit(below, top, i, j, Get(db.store, j));
    HorizonSplit(below, top', i, j, Get(db'.store, j));
    HorizonSplit(below, top, i, k, Get(db.store, k));
    HorizonThrough(below[i..], k, UndoAt(top, k, Get(db.store, k)), UndoAt(top', k, Get(db'.store, k)));
    if j != k {
      AgreeAt(top, top', k, j);
      StoreOff(db.store, db'.store, k, j);
    }
  }

  lemma InsertKeepsPromises<V>(w: Watched<V>, kind: string, v: V)
    requires Wf(w.db) && Kept(w)
    ensures Kept(WatchedStep(w, Insert(kind, v)))
  {
    var w', k := WatchedStep(w, Insert(kind, v)), FreshKey(w.db, kind);
    assert !Issued(w.db, k) && Untouched(w.db.layers, k);
    assert w'.db.store - {k} == w.db.store - {k};
    forall i, j | 0 <= i < |w'.marks|
      ensures HorizonAt(w'.db.layers[i..], j, Get(w'.db.store, j)) == Promise(w'.marks[i], j)
    {
      assert !Records(w.db.layers[|w.db.layers| - 1], k);
      assert AgreeOff(Top(w.db), Top(w'.db), k);
      TouchMovesHorizon(w.db, w'.db, k, i, j);
      assert HorizonAt(w.db.layers[i..], j, Get(w.db.store, j)) == Promise(w.marks[i], j);
    }
  }

  lemma ModifyKeepsPromises<V>(w: Watched<V>, k: Key, was: V, now: V)
    requires Wf(w.db) && Kept(w) && k in w.db.store && w.db.store[k] == was
    ensures Kept(WatchedStep(w, Modify(k, was, now)))
  {
    var w' := WatchedStep(w, Modify(k, was, now));
    assert w'.db.store - {k} == w.db.store - {k};
    forall i, j | 0 <= i < |w'.marks|
      ensures HorizonAt(w'.db.layers[i..], j, Get(w'.db.store, j)) == Promise(w'.marks[i], j)
    {
      assert AgreeOff(Top(w.db), Top(w'.db), k);
      TouchMovesHorizon(w.db, w'.db, k, i, j);
      assert HorizonAt(w.db.layers[i..], j, Get(w.db.store, j)) == Promise(w.marks[i], j);
    }
  }

  lemma RemoveKeepsPromises<V>(w: Watched<V>, k: Key, copy: V)
    requires Wf(w.db) && Kept(w) && (k in w.db.store ==> w.db.store[k] == copy)
    ensures Kept(WatchedStep(w, Remove(k, copy)))
  {
    var w' := WatchedStep(w, Remove(k, copy));
    assert w'.db.store - {k} == w.db.store - {k};
    if k in w.db.store {
      forall i, j | 0 <= i < |w'.marks|
        ensures HorizonAt(w'.db.layers[i..], j, Get(w'.db.store, j)) == Promise(w'.marks[i], j)
      {
        assert AgreeOff(Top(w.db), Top(w'.db), k);
        assert w.db.layers == Below(w.db) + [Top(w.db)];
        KeyOkSplit(Below(w.db), Top(w.db), k, Get(w.db.store, k));
        TouchMovesHorizon(w.db, w'.db, k, i, j);
        assert HorizonAt(w.db.layers[i..], j, Get(w.db.store, j)) == Promise(w.marks[i], j);
      }
    }
  }

  lemma StartKeepsPromises<V>(w: Watched<V>)
    requires Kept(w)
    ensures Kept(WatchedStep(w, Op<V>.Start))
  {
    var w' := WatchedStep(w, Op<V>.Start);
    var newest := EmptyLayer<V>(w.db.revision + 1);
    forall i, k | 0 <= i < |w'.marks|
      ensures HorizonAt(w'.db.layers[i..], k, Get(w'.db.store, k)) == Promise(w'.marks[i], k)
    {
      HorizonSplit(w.db.layers, newest, i, k, Get(w.db.store, k));
      if i < |w.marks| {
        assert HorizonAt(w.db.layers[i..], k, Get(w.db.store, k)) == Promise(w.marks[i], k);
      }
    }
  }

  lemma UndoKeepsPromises<V>(w: Watched<V>)
    requires Kept(w)
    ensures Kept(WatchedStep(w, Op<V>.Undo))
  {
    var w' := WatchedStep(w, Op<V>.Undo);
    forall i, k | 0 <= i < |w'.marks|
      ensures HorizonAt(w'.db.layers[i..], k, Get(w'.db.store, k)) == Promise(w'.marks[i], k)
    {
      assert w.db.layers == Below(w.db) + [Top(w.db)];
      HorizonSplit(Below(w.db), Top(w.db), i, k, Get(w.db.store, k));
      assert HorizonAt(w.db.layers[i..], k, Get(w.db.store, k)) == Promise(w.marks[i], k);
    }
  }

  /** A squash moves the horizon of a key only if the lower layer modified it and the upper removed
      it, and only as far as the change shows through older layers. */
  lemma SquashMovesHorizon<V>(rest: seq<Layer<V>>, pre: Layer<V>, top: Layer<V>, i: nat, k: Key, v: Option<V>)
    requires i <= |rest| && KeyOk(rest + [pre] + [top], k, v)
    ensures HorizonAt((rest + [SquashLayer(top, pre)])[i..], k, v) ==
            if k in pre.edited && k in top.removed && Untouched(rest[i..], k) then Some(top.removed[k])
            else HorizonAt((rest + [pre] + [top])[i..], k, v)
  {
    KeyOkSplit(rest + [pre], top, k, v);
    KeyOkSplit(rest, pre, k, UndoAt(top, k, v));
    if k in top.added { assert !Records((rest + [pre])[|rest|], k); }
    SquashComposes(top, pre, k, v);
    HorizonSplit(rest + [pre], top, i, k, v);
    HorizonSplit(rest, pre, i, k, UndoAt(top, k, v));
    HorizonSplit(rest, SquashLayer(top, pre), i, k, v);
    HorizonThrough(rest[i..], k, UndoAt(pre, k, UndoAt(top, k, v)), UndoAt(SquashLayer(top, pre), k, v));
  }

  lemma SquashedPromise<V>(marks: seq<Mark<V>>, below: seq<Layer<V>>, top: Layer<V>, pre: Layer<V>, i: nat, k: Key)
    requires |marks| == |below| + 1 && i < |marks|
    ensures Promise(LoseSquashed(marks, below, top, pre)[i], k) ==
            if k in pre.edited && k in top.removed && Untouched(below[i..], k) then Some(top.removed[k])
            else Promise(marks[i], k)
  {
  }

  lemma SquashKeepsPromises<V>(w: Watched<V>)
    requires Wf(w.db) && Kept(w) && |w.db.layers| > 1
    ensures Kept(WatchedStep(w, Op<V>.Squash))
  {
    var w', db, n := WatchedStep(w, Op<V>.Squash), w.db, |w.db.layers|;
    var rest, pre, top := db.layers[..n - 2], db.layers[n - 2], db.layers[n - 1];
    assert db.layers == rest + [pre] + [top] && w'.db.layers == rest + [SquashLayer(top, pre)];
    forall i, k | 0 <= i < |w'.marks|
      ensures HorizonAt(w'.db.layers[i..], k, Get(w'.db.store, k)) == Promise(w'.marks[i], k)
    {
      assert KeyOk(db.layers, k, Get(db.store, k));
      SquashedPromise(w.marks[..n - 1], rest, top, pre, i, k);
      SquashMovesHorizon(rest, pre, top, i, k, Get(db.store, k));
      assert HorizonAt(db.layers[i..], k, Get(db.store, k)) == Promise(w.marks[i], k);
    }
  }

  lemma CommitKeepsPromises<V>(w: Watched<V>, r: int)
    requires Kept(w)
    ensures Kept(WatchedStep(w, Op<V>.Commit(r)))
  {
    var w' := WatchedStep(w, Op<V>.Commit(r));
    KeepIsSuffix(w.db.layers, r);
    var d := |w.db.layers| - |w'.db.layers|;
    forall i, k | 0 <= i < |w'.marks|
      ensures HorizonAt(w'.db.layers[i..], k, Get(w'.db.store, k)) == Promise(w'.marks[i], k)
    {
      assert w'.db.layers[i..] == w.db.layers[d + i..];
      assert HorizonAt(w.db.layers[d + i..], k, Get(w.db.store, k)) == Promise(w.marks[d + i], k);
    }
  }

  lemma StepKeepsPromises<V>(w: Watched<V>, op: Op<V>)
    requires Wf(w.db) && Kept(w) && Faithful(w.db, op)
    ensures Kept(WatchedStep(w, op))
  {
    match op
    case Insert(kind, v) => InsertKeepsPromises(w, kind, v);
    case Modify(k, was, now) => ModifyKeepsPromises(w, k, was, now);
    case Remove(k, copy) => RemoveKeepsPromises(w, k, copy);
    case Start => StartKeepsPromises(w);
    case Undo => UndoKeepsPromises(w);
    case Squash => if |w.db.layers| > 1 { SquashKeepsPromises(w); }
    case Commit(r) => CommitKeepsPromises(w, r);
  }

  // ------------------------------------------------------------------
  // Whole runs
  // ------------------------------------------------------------------

  function Run<V>(w: Watched<V>, ops: seq<Op<V>>): (r: Watched<V>)
    requires |w.marks| == |w.db.layers|
    ensures |r.marks| == |r.db.layers|
    decreases |ops|
  {
    if ops == [] then w else Run(WatchedStep(w, ops[0]), ops[1..])
  }

  predicate FaithfulRun<V(==)>(db: Db<V>, ops: seq<Op<V>>)
    decreases |ops|
  {
    ops == [] || (Faithful(db, ops[0]) && FaithfulRun(Step(db, ops[0]), ops[1..]))
  }

  /** Every run of faithful calls, whatever its nesting of sessions, keeps the database well
      formed and every open session's promise. */
  lemma {:induction false} RunKeepsPromises<V>(w: Watched<V>, ops: seq<Op<V>>)
    requires Wf(w.db) && Kept(w) && FaithfulRun(w.db, ops)
    ensures Wf(Run(w, ops).db) && Kept(Run(w, ops))
    decreases |ops|
  {
    if ops != [] {
      StepKeepsWf(w.db, ops[0]);
      StepKeepsPromises(w, ops[0]);
      RunKeepsPromises(WatchedStep(w, ops[0]), ops[1..]);
    }
  }

  /** The calls of `ops` stay inside the session at depth `depth`: they never end it and never commit. */
  predicate Inside<V>(db: Db<V>, ops: seq<Op<V>>, depth: nat)
    decreases |ops|
  {
    && |db.layers| >= depth
    && (ops == [] ||
        (!ops[0].Commit? && Inside(Step(db, ops[0]), ops[1..], depth)))
  }

  lemma StepKeepsBelow<V>(w: Watched<V>, op: Op<V>, depth: nat)
    requires |w.marks| == |w.db.layers| > depth && !op.Commit?
    ensures var r := WatchedStep(w, op);
            |r.db.layers| > depth ==>
              && r.db.layers[..depth] == w.db.layers[..depth]
              && r.marks[depth].snapshot == w.marks[depth].snapshot
              && r.db.revision - |r.db.layers| == w.db.revision - |w.db.layers|
  {
  }

  /** Inside a session, the layers below it and the store it remembers do not change. */
  lemma {:induction false} InsideKeepsBelow<V>(w: Watched<V>, ops: seq<Op<V>>, depth: nat)
    requires |w.marks| == |w.db.layers| && Inside(w.db, ops, depth + 1)
    ensures var r := Run(w, ops);
            && |r.db.layers| > depth
            && r.db.layers[..depth] == w.db.layers[..depth]
            && r.marks[depth].snapshot == w.marks[depth].snapshot
            && r.db.revision - |r.db.layers| == w.db.revision - |w.db.layers|
    decreases |ops|
  {
    if ops != [] {
      StepKeepsBelow(w, ops[0], depth);
      InsideKeepsBelow(WatchedStep(w, ops[0]), ops[1..], depth);
    }
  }

  /** `ops` is a whole session body: faithful calls that stay inside the session started at `w`
      and leave it open, with every nested session closed. */
  predicate SessionBody<V(==)>(w: Watched<V>, ops: seq<Op<V>>)
    requires |w.marks| == |w.db.layers|
  {
    var start := WatchedStep(w, Op<V>.Start);
    && FaithfulRun(start.db, ops)
    && Inside(start.db, ops, |w.db.layers| + 1)
    && |Run(start, ops).db.layers| == |w.db.layers| + 1
  }

  ghost function SessionEnd<V>(w: Watched<V>, ops: seq<Op<V>>): Watched<V>
    requires |w.marks| == |w.db.layers| && SessionBody(w, ops)
  {
    Run(WatchedStep(w, Op<V>.Start), ops)
  }

  /** A session undoes itself: start a session, make any faithful calls inside it (sessions nested
      and closed at will), then undo. The layers and the revision are back, and each key holds what
      it held at the start, except the keys in `lost`: those come back as the value they had when
      they were removed. */
  lemma SessionUndoes<V>(w: Watched<V>, ops: seq<Op<V>>, k: Key)
    requires Wf(w.db) && Kept(w) && SessionBody(w, ops)
    ensures var r := SessionEnd(w, ops);
            var lost, u := r.marks[|w.db.layers|].lost, Step(r.db, Op<V>.Undo);
            && u.layers == w.db.layers && u.revision == w.db.revision
            && Get(u.store, k) == if k in lost then Some(lost[k]) else Get(w.db.store, k)
  {
    SessionKeeps(w, ops);
    UndoKeepsPromise(SessionEnd(w, ops), k);
  }

  lemma SessionKeeps<V>(w: Watched<V>, ops: seq<Op<V>>)
    requires Wf(w.db) && Kept(w) && SessionBody(w, ops)
    ensures var r, n := SessionEnd(w, ops), |w.db.layers|;
            && Kept(r)
            && |r.marks| == n + 1 && Below(r.db) == w.db.layers
            && r.marks[n].snapshot == w.db.store
            && r.db.revision == w.db.revision + 1
  {
    var start := WatchedStep(w, Op<V>.Start);
    StartOpens(w);
    RunKeepsPromises(start, ops);
    InsideKeepsBelow(start, ops, |w.db.layers|);
  }

  lemma StartOpens<V>(w: Watched<V>)
    requires Wf(w.db) && Kept(w)
    ensures var start, n := WatchedStep(w, Op<V>.Start), |w.db.layers|;
            && Wf(start.db) && Kept(start) && |start.db.layers| == n + 1 && start.db.layers[..n] == w.db.layers
            && start.marks[n].snapshot == w.db.store && start.db.revision == w.db.revision + 1
  {
    StartKeepsWf(w.db);
    StartKeepsPromises(w);
  }

  /** The store as a whole is restored exactly when every lost key was removed with the value it
      had at the start of the session. */
  lemma SessionRestores<V>(w: Watched<V>, ops: seq<Op<V>>)
    requires Wf(w.db) && Kept(w) && SessionBody(w, ops)
    ensures var r := SessionEnd(w, ops);
            var lost, u := r.marks[|w.db.layers|].lost, Step(r.db, Op<V>.Undo);
            u.store == w.db.store <==> forall k :: k in lost ==> Get(w.db.store, k) == Some(lost[k])
  {
    var r := SessionEnd(w, ops);
    var lost, u := r.marks[|w.db.layers|].lost, Step(r.db, Op<V>.Undo);
    forall k ensures Get(u.store, k) == if k in lost then Some(lost[k]) else Get(w.db.store, k) {
      SessionUndoes(w, ops, k);
    }
    SameMaps(u.store, w.db.store);
  }

  /** Undo makes the newest promise true. */
  lemma UndoKeepsPromise<V>(w: Watched<V>, k: Key)
    requires Kept(w) && w.db.layers != []
    ensures Get(Step(w.db, Op<V>.Undo).store, k) == Promise(w.marks[|w.marks| - 1], k)
  {
    var n := |w.db.layers|;
    assert w.db.layers == Below(w.db) + [Top(w.db)];
    HorizonSplit(Below(w.db), Top(w.db), n - 1, k, Get(w.db.store, k));
    assert HorizonAt(w.db.layers[n - 1..], k, Get(w.db.store, k)) == Promise(w.marks[n - 1], k);
  }

  lemma SameMaps<V>(s: map<Key, V>, t: map<Key, V>)
    ensures s == t <==> forall k :: Get(s, k) == Get(t, k)
  {
    if forall k :: Get(s, k) == Get(t, k) {
      assert forall k :: k in s <==> Get(s, k).Some?;
      assert forall k :: k in t <==> Get(t, k).Some?;
      assert forall k | k in s :: Some(s[k]) == Get(s, k) == Get(t, k) == Some(t[k]);
    }
  }

  // ------------------------------------------------------------------
  // Squash, Commit, fresh ids
  // ------------------------------------------------------------------

  /** Modified in the lower layer, and removed in the upper with another value than the lower recorded. */
  ghost predicate SquashLoses<V>(pre: Layer<V>, top: Layer<V>, k: Key) {
    k in pre.edited && k in top.removed && top.removed[k] != pre.edited[k].was
  }

  /** The layer below the newest. */
  function Second<V>(db: Db<V>): Layer<V>
    requires |db.layers| >= 2
  {
    db.layers[|db.layers| - 2]
  }

  /** Squash then Undo reaches, at each key, the value that two Undos reach, exactly unless the
      squash loses that key. */
  lemma SquashThenUndo<V>(db: Db<V>, k: Key)
    requires Wf(db) && |db.layers| >= 2
    ensures var once := Step(Step(db, Op<V>.Squash), Op<V>.Undo);
            var twice := Step(Step(db, Op<V>.Undo), Op<V>.Undo);
            && once.layers == twice.layers && once.revision == twice.revision
            && (Get(once.store, k) == Get(twice.store, k) <==> !SquashLoses(Second(db), Top(db), k))
            && (SquashLoses(Second(db), Top(db), k) ==>
                  Get(once.store, k) == Some(Top(db).removed[k]))
  {
    var n := |db.layers|;
    var pre, top, v := db.layers[n - 2], db.layers[n - 1], Get(db.store, k);
    TwoLayersOk(db, k);
    SquashComposes(top, pre, k, v);
    SquashStep(db);
    UndoStep(db, k);
    UndoStep(Step(db, Op<V>.Squash), k);
    UndoStep(Step(db, Op<V>.Undo), k);
  }

  lemma UndoStep<V>(db: Db<V>, k: Key)
    requires db.layers != []
    ensures var db' := Step(db, Op<V>.Undo);
            db'.layers == Below(db) && db'.revision == db.revision - 1 &&
            Get(db'.store, k) == UndoAt(Top(db), k, Get(db.store, k))
  {
  }

  lemma SquashStep<V>(db: Db<V>)
    requires |db.layers| >= 2
    ensures var db', n := Step(db, Op<V>.Squash), |db.layers|;
            && db'.store == db.store && db'.revision == db.revision - 1 && db'.nextId == db.nextId && db'.layers != []
            && Top(db') == SquashLayer(db.layers[n - 1], db.layers[n - 2]) && Below(db') == db.layers[..n - 2]
  {
  }

  lemma TwoLayersOk<V>(db: Db<V>, k: Key)
    requires Wf(db) && |db.layers| >= 2
    ensures var n, v := |db.layers|, Get(db.store, k); var pre, top := db.layers[n - 2], db.layers[n - 1];
            TopOk(top, k, v) && TopOk(pre, k, UndoAt(top, k, v)) && (k in top.added ==> !Records(pre, k))
  {
    var n, v := |db.layers|, Get(db.store, k);
    var rest, pre, top := db.layers[..n - 2], db.layers[n - 2], db.layers[n - 1];
    assert db.layers == (rest + [pre]) + [top];
    KeyOkSplit(rest + [pre], top, k, v);
    KeyOkSplit(rest, pre, k, UndoAt(top, k, v));
    if k in top.added { assert !Records((rest + [pre])[n - 2], k); }
  }

  /** Squashing two layers and undoing once equals undoing twice, as whole stores, exactly when
      the squash loses no key. */
  lemma SquashThenUndoStores<V>(db: Db<V>)
    requires Wf(db) && |db.layers| >= 2
    ensures Step(Step(db, Op<V>.Squash), Op<V>.Undo).store == Step(Step(db, Op<V>.Undo), Op<V>.Undo).store <==>
            forall k :: !SquashLoses(Second(db), Top(db), k)
  {
    var once := Step(Step(db, Op<V>.Squash), Op<V>.Undo).store;
    var twice := Step(Step(db, Op<V>.Undo), Op<V>.Undo).store;
    forall k ensures Get(once, k) == Get(twice, k) <==> !SquashLoses(Second(db), Top(db), k) {
      SquashThenUndo(db, k);
    }
    SameMaps(once, twice);
  }

  /** Commit drops exactly the layers up to the given revision and keeps the store and the other
      layers, so every surviving session still undoes to what it did before. */
  lemma CommitDropsUpTo<V>(db: Db<V>, r: int)
    requires Wf(db)
    ensures var db' := Step(db, Op<V>.Commit(r));
            var d := |db.layers| - |db'.layers|;
            && db'.store == db.store && db'.revision == db.revision
            && 0 <= d && db'.layers == db.layers[d..]
            && (forall i :: 0 <= i < |db.layers| ==> (i < d <==> db.layers[i].revision <= r))
  {
    KeepDrops(db.layers, r);
    KeepIsSuffix(db.layers, r);
  }

  lemma {:induction false} KeepDrops<V>(ls: seq<Layer<V>>, r: int)
    requires forall i, j :: 0 <= i < j < |ls| ==> ls[i].revision < ls[j].revision
    ensures forall i :: 0 <= i < |ls| ==> (i < |ls| - |Keep(ls, r)| <==> ls[i].revision <= r)
  {
    if ls != [] && ls[0].revision <= r {
      KeepDrops(ls[1..], r);
      forall i | 0 <= i < |ls| ensures i < |ls| - |Keep(ls, r)| <==> ls[i].revision <= r {
        if i > 0 { assert ls[i] == ls[1..][i - 1]; }
      }
    }
  }

  /** Ids are never handed out twice: an id issued at any point stays issued through undos and
      squashes, and a fresh key is never an issued one nor one the store or any layer knows. */
  lemma {:induction false} IdsStayIssued<V>(w: Watched<V>, ops: seq<Op<V>>, k: Key, kind: string)
    requires Wf(w.db) && Kept(w) && FaithfulRun(w.db, ops)
    requires Issued(w.db, k)
    ensures Issued(Run(w, ops).db, k)
    ensures FreshKey(Run(w, ops).db, kind) != k
    ensures FreshKey(Run(w, ops).db, kind) !in Run(w, ops).db.store
    ensures Untouched(Run(w, ops).db.layers, FreshKey(Run(w, ops).db, kind))
    decreases |ops|
  {
    if ops == [] {
      assert !Issued(w.db, FreshKey(w.db, kind));
    } else {
      StepKeepsWf(w.db, ops[0]);
      StepKeepsPromises(w, ops[0]);
      IdsStayIssued(WatchedStep(w, ops[0]), ops[1..], k, kind);
    }
  }

  // Single steps on a database with one layer.

  lemma StartStep<V>(store: map<Key, V>, revision: int, nextId: map<string, nat>)
    ensures Step(Db(store, [], revision, nextId), Op<V>.Start) == Db(store, [EmptyLayer(revision + 1)], revision + 1, nextId)
  {
  }

  lemma InsertStep<V>(db: Db<V>, l: Layer<V>, kind: string, v: V)
    requires db.layers == [l]
    ensures var k := FreshKey(db, kind);
            Step(db, Insert(kind, v)) == Db(db.store[k := v], [AfterInsert(l, k, v)], db.revision, db.nextId[kind := k.id + 1])
  {
    assert Below(db) == [] && Top(db) == l;
  }

  lemma ModifyStep<V>(db: Db<V>, l: Layer<V>, k: Key, was: V, now: V)
    requires db.layers == [l] && k !in l.added && k !in l.edited
    ensures Step(db, Modify(k, was, now)) ==
            Db(db.store[k := now], [l.(edited := l.edited[k := Edit(was, now)])], db.revision, db.nextId)
  {
    assert Below(db) == [] && Top(db) == l;
  }

  lemma RemoveStep<V>(db: Db<V>, l: Layer<V>, k: Key, copy: V)
    requires db.layers == [l] && k in db.store && k !in l.added && k in l.edited
    ensures Step(db, Remove(k, copy)) ==
            Db(db.store - {k}, [l.(edited := l.edited - {k}, removed := l.removed[k := copy])], db.revision, db.nextId)
  {
    assert Below(db) == [] && Top(db) == l;
  }

  lemma OneObjectWf(k: Key, a: int)
    ensures Wf(Db(map[k := a], [], 0, map[k.kind := k.id + 1]))
  {
  }

  lemma UndoTop<V>(store: map<Key, V>, below: seq<Layer<V>>, l: Layer<V>, revision: int, nextId: map<string, nat>)
    ensures Step(Db(store, below + [l], revision, nextId), Op<V>.Undo) == Db(UndoStore(l, store), below, revision - 1, nextId)
  {
  }

  lemma RemovedMaps(k: Key, a: int, b: int, e: Edit<int>)
    ensures map[k := a][k := b] - {k} == map[]
    ensures map[][k := e] - {k} == map[] && map[][k := b] == map[k := b]
  {
  }

  lemma ModifiedAndRemoved(k: Key, a: int, b: int, nextId: map<string, nat>)
    ensures Step(Step(Step(Db(map[k := a], [], 0, nextId), Op<int>.Start), Modify(k, a, b)), Remove(k, b)) ==
            Db(map[], [Layer(map[], map[], map[k := b], 1)], 1, nextId)
  {
    StartStep(map[k := a], 0, nextId);
    ModifyStep(Db(map[k := a], [EmptyLayer(1)], 1, nextId), EmptyLayer(1), k, a, b);
    var first := Layer(map[], map[][k := Edit(a, b)], map[], 1);
    RemoveStep(Db(map[k := a][k := b], [first], 1, nextId), first, k, b);
    RemovedMaps(k, a, b, Edit(a, b));
  }

  lemma UndoneRemoval(k: Key, b: int)
    ensures UndoStore(Layer(map[], map[], map[k := b], 1), map[]) == map[k := b]
  {
    SameMaps(UndoStore(Layer(map[], map[], map[k := b], 1), map[]), map[k := b]);
  }

  /** Modified, then removed, inside one session: undo brings the object back as modified, and the
      whole-store law fails. */
  lemma LostUpdate(k: Key, a: int, b: int)
    requires a != b
    ensures var db := Db(map[k := a], [], 0, map[k.kind := k.id + 1]);
            var s := Step(Step(Step(db, Op<int>.Start), Modify(k, a, b)), Remove(k, b));
            Wf(db) && Step(s, Op<int>.Undo).store == map[k := b] != db.store
  {
    var nextId, l := map[k.kind := k.id + 1], Layer(map[], map[], map[k := b], 1);
    OneObjectWf(k, a);
    ModifiedAndRemoved(k, a, b, nextId);
    UndoTop(map[], [], l, 1, nextId);
    assert [] + [l] == [l];
    UndoneRemoval(k, b);
    assert map[k := b][k] != map[k := a][k];
  }
}
