/** The secondary index entries of the objects, and what undoing a session makes of them.

    Each stored object owns one entry per index, whose key is made of its fields: `keys(v)` are the entry
    keys of an object with value `v`. It is assumed that entries of different objects have different keys (the
    store lets two objects with equal index fields share an entry); the entries are therefore kept here object
    by object. An undo record keeps the entries of the first modified version only, so
    undoing can leave entries of later versions behind. */
module UndoIndex {
  import opened Options
  import opened UndoLog
  import opened UndoLaws

  type Entries<X> = map<Key, set<X>>

  function At<X>(e: Entries<X>, k: Key): set<X> {
    if k in e then e[k] else {}
  }

  /** The entries an object should have. */
  function Proper<V, X>(keys: V -> set<X>, v: Option<V>): set<X> {
    match v
    case None => {}
    case Some(x) => keys(x)
  }

  ghost predicate Consistent<V, X>(keys: V -> set<X>, store: map<Key, V>, e: Entries<X>) {
    forall k :: At(e, k) == Proper(keys, Get(store, k))
  }

  /** Inserting puts the entries of the object; modifying deletes those of the caller's copy and puts those
      of the new value; removing deletes those of the stored object. */
  function EntriesStep<V, X>(keys: V -> set<X>, db: Db<V>, e: Entries<X>, op: Op<V>): Entries<X> {
    match op
    case Insert(kind, v) => var k := FreshKey(db, kind); e[k := At(e, k) + keys(v)]
    case Modify(k, was, now) => e[k := At(e, k) - keys(was) + keys(now)]
    case Remove(k, _) => if k in db.store then e[k := At(e, k) - keys(db.store[k])] else e
    case _ => e
  }

  /** What undoing layer `l` makes of the entries of one object. */
  function UndoEntries<V, X>(keys: V -> set<X>, l: Layer<V>, k: Key, es: set<X>): set<X> {
    var edited := if k in l.edited then es - keys(l.edited[k].now) + keys(l.edited[k].was) else es;
    var added := if k in l.added then edited - keys(l.added[k]) else edited;
    if k in l.removed then added + keys(l.removed[k]) else added
  }

  /** Faithful changes keep every object's entries proper. */
  lemma ChangeKeepsConsistent<V, X>(keys: V -> set<X>, db: Db<V>, e: Entries<X>, op: Op<V>)
    requires Wf(db) && Consistent(keys, db.store, e)
    requires op.Insert? || op.Remove? || (op.Modify? && op.key in db.store && db.store[op.key] == op.was)
    ensures Consistent(keys, Step(db, op).store, EntriesStep(keys, db, e, op))
  {
    var store', e' := Step(db, op).store, EntriesStep(keys, db, e, op);
    forall j ensures At(e', j) == Proper(keys, Get(store', j)) {
      assert At(e, j) == Proper(keys, Get(db.store, j));
      if op.Insert? {
        assert FreshKey(db, op.kind) !in db.store;
      }
    }
  }

  /** An entry of the current version that neither the first modified version nor the version restored has. */
  ghost predicate LeavesStale<V, X>(keys: V -> set<X>, l: Layer<V>, store: map<Key, V>, k: Key) {
    || (k in l.added && k in store && !(keys(store[k]) <= keys(l.added[k])))
    || (k in l.edited && k in store && !(keys(store[k]) <= keys(l.edited[k].now) + keys(l.edited[k].was)))
  }

  /** Undo leaves the entries of an object proper exactly when no entry of its current version is left
      behind: an object inserted and then modified, or modified twice, in the session must not have gained
      an entry in a later version. */
  lemma UndoEntriesProper<V, X>(keys: V -> set<X>, db: Db<V>, e: Entries<X>, k: Key)
    requires Wf(db) && db.layers != [] && Consistent(keys, db.store, e)
    ensures UndoEntries(keys, Top(db), k, At(e, k)) == Proper(keys, Get(Step(db, Op<V>.Undo).store, k)) <==>
            !LeavesStale(keys, Top(db), db.store, k)
  {
    assert db.layers == Below(db) + [Top(db)];
    assert At(e, k) == Proper(keys, Get(db.store, k));
    KeyOkSplit(Below(db), Top(db), k, Get(db.store, k));
    UndoStep(db, k);
    var es, l := At(e, k), Top(db);
    if k in l.edited {
      ReplacedSet(es, keys(l.edited[k].now), keys(l.edited[k].was));
    } else if k in l.added {
      EmptiedSet(es, keys(l.added[k]));
    } else if k in l.removed {
      assert es == {};
    }
  }

  lemma EmptiedSet<X>(a: set<X>, b: set<X>)
    ensures a - b == {} <==> a <= b
  {
    if a - b == {} {
      forall x | x in a ensures x in b { assert x !in a - b; }
    }
  }

  lemma ReplacedSet<X>(a: set<X>, b: set<X>, c: set<X>)
    ensures a - b + c == c <==> a <= b + c
  {
    if a - b + c == c {
      forall x | x in a ensures x in b + c { assert x in b || x in a - b + c; }
    }
    if a <= b + c {
      forall x | x in a - b ensures x in c { assert x in b + c; }
    }
  }

  /** Two modifications of an indexed field in one session: undo restores the object but leaves the entry of
      its last version. */
  lemma StaleEntry(k: Key, db: Db<int>, keys: int -> set<int>)
    requires db == Db(map[k := 1], [], 0, map[k.kind := k.id + 1])
    requires keys(1) == {1} && keys(2) == {2} && keys(3) == {3}
    ensures var s := Step(Step(Step(db, Op<int>.Start), Modify(k, 1, 2)), Modify(k, 2, 3));
            && |s.layers| == 1 && s.store == map[k := 3]
            && Get(Step(s, Op<int>.Undo).store, k) == Some(1)
            && UndoEntries(keys, s.layers[0], k, keys(3)) == {1, 3}
  {
    var l := Layer(map[], map[k := Edit(1, 2)], map[], 1);
    var s := Step(Step(Step(db, Op<int>.Start), Modify(k, 1, 2)), Modify(k, 2, 3));
    ModifiedTwice(k, db, l);
    UndoStep(s, k);
    assert UndoAt(l, k, Some(3)) == Some(1);
  }

  lemma ModifiedTwice(k: Key, db: Db<int>, l: Layer<int>)
    requires db.store == map[k := 1] && db.layers == [] && db.revision == 0
    requires l == Layer(map[], map[k := Edit(1, 2)], map[], 1)
    ensures var s := Step(Step(Step(db, Op<int>.Start), Modify(k, 1, 2)), Modify(k, 2, 3));
            s.layers == [l] && s.store == map[k := 3]
  {
    StartStep(db.store, 0, db.nextId);
    ModifyStep(Db(db.store, [EmptyLayer(1)], 1, db.nextId), EmptyLayer(1), k, 1, 2);
    assert map[][k := Edit(1, 2)] == map[k := Edit(1, 2)];
    ModifiedAgain(Db(db.store[k := 2], [l], 1, db.nextId), l, k, 2, 3);
    assert db.store[k := 2][k := 3] == map[k := 3];
  }

  /** A further modification of an object leaves the record as it is. */
  lemma ModifiedAgain<V>(db: Db<V>, l: Layer<V>, k: Key, was: V, now: V)
    requires db.layers == [l] && k in l.edited
    ensures Step(db, Modify(k, was, now)) == Db(db.store[k := now], [l], db.revision, db.nextId)
  {
    assert Below(db) == [] && Top(db) == l;
  }
}
