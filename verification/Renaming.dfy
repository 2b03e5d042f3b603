/** Databases that hold the same objects under different ids: a block whose calls agree up to the ids leads from two such
    databases to two such databases, however many objects it inserts. */
module Renaming {
  import opened ChainRules
  import opened ChainStore
  import opened ForkTree
  import opened Options
  import opened Traces
  import opened UndoLaws
  import opened UndoLog

  // ------------------------------------------------------------------
  // Maps that are the same under a pairing of keys
  // ------------------------------------------------------------------

  /** Every key is paired with at most one other. */
  ghost predicate Pairing(rel: (Key, Key) -> bool) {
    && (forall j, k, l :: rel(j, k) && rel(j, l) ==> k == l)
    && (forall j, k, l :: rel(j, l) && rel(k, l) ==> j == k)
  }

  ghost predicate SameOption<V>(same: (V, V) -> bool, v: Option<V>, w: Option<V>) {
    if v.Some? then w.Some? && same(v.value, w.value) else w.None?
  }

  ghost predicate Paired(rel: (Key, Key) -> bool, j: Key) {
    exists k :: rel(j, k)
  }

  ghost predicate PairedBack(rel: (Key, Key) -> bool, k: Key) {
    exists j :: rel(j, k)
  }

  /** The two maps agree at paired keys, and hold paired keys only. */
  ghost predicate SameUnder<V>(rel: (Key, Key) -> bool, same: (V, V) -> bool, m: map<Key, V>, n: map<Key, V>) {
    && (forall j, k {:trigger rel(j, k)} :: rel(j, k) ==> SameOption(same, Get(m, j), Get(n, k)))
    && (forall j :: j in m ==> Paired(rel, j))
    && (forall k :: k in n ==> PairedBack(rel, k))
  }

  lemma SameAt<V>(rel: (Key, Key) -> bool, same: (V, V) -> bool, m: map<Key, V>, n: map<Key, V>, j: Key, k: Key)
    requires SameUnder(rel, same, m, n) && rel(j, k)
    ensures (j in m <==> k in n) && (j in m ==> same(m[j], n[k]))
  {
    assert SameOption(same, Get(m, j), Get(n, k));
  }

  lemma PutSame<V>(rel: (Key, Key) -> bool, same: (V, V) -> bool, m: map<Key, V>, n: map<Key, V>, j: Key, k: Key, v: V, w: V)
    requires Pairing(rel) && SameUnder(rel, same, m, n) && rel(j, k) && same(v, w)
    ensures SameUnder(rel, same, m[j := v], n[k := w])
  {
    assert Paired(rel, j) && PairedBack(rel, k);
    forall i, l | rel(i, l) ensures SameOption(same, Get(m[j := v], i), Get(n[k := w], l)) {
      assert i == j <==> l == k;
      assert SameOption(same, Get(m, i), Get(n, l));
    }
  }

  lemma DropSame<V>(rel: (Key, Key) -> bool, same: (V, V) -> bool, m: map<Key, V>, n: map<Key, V>, j: Key, k: Key)
    requires Pairing(rel) && SameUnder(rel, same, m, n) && rel(j, k)
    ensures SameUnder(rel, same, m - {j}, n - {k})
  {
    forall i, l | rel(i, l) ensures SameOption(same, Get(m - {j}, i), Get(n - {k}, l)) {
      assert i == j <==> l == k;
      assert SameOption(same, Get(m, i), Get(n, l));
    }
  }

  // ------------------------------------------------------------------
  // Layers and databases
  // ------------------------------------------------------------------

  ghost function EditSame<V>(same: (V, V) -> bool): (Edit<V>, Edit<V>) -> bool {
    (e: Edit<V>, f: Edit<V>) => same(e.was, f.was) && same(e.now, f.now)
  }

  ghost predicate LayerSame<V>(rel: (Key, Key) -> bool, same: (V, V) -> bool, l: Layer<V>, m: Layer<V>) {
    && SameUnder(rel, same, l.added, m.added)
    && SameUnder(rel, EditSame(same), l.edited, m.edited)
    && SameUnder(rel, same, l.removed, m.removed)
  }

  ghost predicate LayersSame<V>(rel: (Key, Key) -> bool, same: (V, V) -> bool, ls: seq<Layer<V>>, ms: seq<Layer<V>>) {
    |ls| == |ms| && forall i :: 0 <= i < |ls| ==> LayerSame(rel, same, ls[i], ms[i])
  }

  function Next(nextId: map<string, nat>, kind: string): nat {
    if kind in nextId then nextId[kind] else 0
  }

  ghost predicate FreshPair(rel: (Key, Key) -> bool, n: map<string, nat>, n': map<string, nat>, kind: string, i: nat) {
    rel(Key(kind, Next(n, kind) + i), Key(kind, Next(n', kind) + i))
  }

  /** The ids still to be handed out are paired in their order. */
  ghost predicate FreshSame(rel: (Key, Key) -> bool, n: map<string, nat>, n': map<string, nat>) {
    forall kind, i: nat {:trigger FreshPair(rel, n, n', kind, i)} :: FreshPair(rel, n, n', kind, i)
  }

  ghost predicate DbSame<V>(rel: (Key, Key) -> bool, same: (V, V) -> bool, db: Db<V>, q: Db<V>) {
    && Pairing(rel) && SameUnder(rel, same, db.store, q.store) && LayersSame(rel, same, db.layers, q.layers)
    && FreshSame(rel, db.nextId, q.nextId)
  }

  /** The same call, on paired objects. */
  ghost predicate OpSame<V>(rel: (Key, Key) -> bool, same: (V, V) -> bool, x: Op<V>, y: Op<V>) {
    match x
    case Insert(kind, v) => y.Insert? && y.kind == kind && same(v, y.v)
    case Modify(k, was, now) => y.Modify? && rel(k, y.key) && same(was, y.was) && same(now, y.now)
    case Remove(k, copy) => y.Remove? && rel(k, y.key) && same(copy, y.copy)
    case Commit(_) => false
    case _ => x == y
  }

  ghost predicate OpsSame<V>(rel: (Key, Key) -> bool, same: (V, V) -> bool, xs: seq<Op<V>>, ys: seq<Op<V>>) {
    |xs| == |ys| && forall i :: 0 <= i < |xs| ==> OpSame(rel, same, xs[i], ys[i])
  }

  lemma EmptySame<V>(rel: (Key, Key) -> bool, same: (V, V) -> bool, r: int, s: int)
    ensures LayerSame(rel, same, EmptyLayer(r), EmptyLayer(s))
  {
  }

  lemma AfterInsertSame<V>(rel: (Key, Key) -> bool, same: (V, V) -> bool, l: Layer<V>, m: Layer<V>, j: Key, k: Key,
                           v: V, w: V)
    requires Pairing(rel) && LayerSame(rel, same, l, m) && rel(j, k) && same(v, w)
    ensures LayerSame(rel, same, AfterInsert(l, j, v), AfterInsert(m, k, w))
  {
    PutSame(rel, same, l.added, m.added, j, k, v, w);
  }

  lemma AfterModifySame<V>(rel: (Key, Key) -> bool, same: (V, V) -> bool, l: Layer<V>, m: Layer<V>, j: Key, k: Key,
                           was: V, now: V, was': V, now': V)
    requires Pairing(rel) && LayerSame(rel, same, l, m) && rel(j, k) && same(was, was') && same(now, now')
    ensures LayerSame(rel, same, AfterModify(l, j, was, now), AfterModify(m, k, was', now'))
  {
    SameAt(rel, same, l.added, m.added, j, k);
    SameAt(rel, EditSame(same), l.edited, m.edited, j, k);
    PutSame(rel, EditSame(same), l.edited, m.edited, j, k, Edit(was, now), Edit(was', now'));
  }

  lemma AfterRemoveSame<V>(rel: (Key, Key) -> bool, same: (V, V) -> bool, l: Layer<V>, m: Layer<V>, j: Key, k: Key,
                           v: V, w: V)
    requires Pairing(rel) && LayerSame(rel, same, l, m) && rel(j, k) && same(v, w)
    ensures LayerSame(rel, same, AfterRemove(l, j, v), AfterRemove(m, k, w))
  {
    SameAt(rel, same, l.added, m.added, j, k);
    SameAt(rel, EditSame(same), l.edited, m.edited, j, k);
    SameAt(rel, same, l.removed, m.removed, j, k);
    DropSame(rel, same, l.added, m.added, j, k);
    DropSame(rel, EditSame(same), l.edited, m.edited, j, k);
    PutSame(rel, same, l.removed, m.removed, j, k, v, w);
  }

  lemma UndoAtSame<V>(rel: (Key, Key) -> bool, same: (V, V) -> bool, l: Layer<V>, m: Layer<V>, j: Key, k: Key,
                      v: Option<V>, w: Option<V>)
    requires LayerSame(rel, same, l, m) && rel(j, k) && SameOption(same, v, w)
    ensures SameOption(same, UndoAt(l, j, v), UndoAt(m, k, w))
  {
    SameAt(rel, same, l.added, m.added, j, k);
    SameAt(rel, EditSame(same), l.edited, m.edited, j, k);
    SameAt(rel, same, l.removed, m.removed, j, k);
  }

  lemma UndoStoreSame<V>(rel: (Key, Key) -> bool, same: (V, V) -> bool, l: Layer<V>, m: Layer<V>, s: map<Key, V>,
                         t: map<Key, V>)
    requires LayerSame(rel, same, l, m) && SameUnder(rel, same, s, t)
    ensures SameUnder(rel, same, UndoStore(l, s), UndoStore(m, t))
  {
    forall j, k | rel(j, k) ensures SameOption(same, Get(UndoStore(l, s), j), Get(UndoStore(m, t), k)) {
      assert SameOption(same, Get(s, j), Get(t, k));
      UndoAtSame(rel, same, l, m, j, k, Get(s, j), Get(t, k));
    }
    forall j | j in UndoStore(l, s) ensures Paired(rel, j) {
      assert j in s || j in l.edited || j in l.removed;
    }
    forall k | k in UndoStore(m, t) ensures PairedBack(rel, k) {
      assert k in t || k in m.edited || k in m.removed;
    }
  }

  /** The three maps of a squashed layer, key by key. */
  lemma SquashGets<V>(top: Layer<V>, pre: Layer<V>, k: Key)
    ensures var q := SquashLayer(top, pre);
            var added := if k in top.added then Some(top.added[k]) else Get(pre.added, k);
            && Get(q.added, k) == (if k in top.removed then None else added)
            && Get(q.removed, k) == (if k in top.removed && added.None? then Some(top.removed[k]) else Get(pre.removed, k))
            && (k in q.edited <==> (k in pre.edited || MergesEdit(top, pre, k)) && (added.Some? || k !in top.removed))
            && (k in q.edited ==> q.edited[k] == if MergesEdit(top, pre, k) then top.edited[k] else pre.edited[k])
  {
  }

  lemma SquashAt<V>(rel: (Key, Key) -> bool, same: (V, V) -> bool, top: Layer<V>, pre: Layer<V>, top': Layer<V>,
                    pre': Layer<V>,
                    j: Key, k: Key)
    requires LayerSame(rel, same, top, top') && LayerSame(rel, same, pre, pre') && rel(j, k)
    ensures var q, q' := SquashLayer(top, pre), SquashLayer(top', pre');
            && SameOption(same, Get(q.added, j), Get(q'.added, k)) && SameOption(same, Get(q.removed, j), Get(q'.removed, k))
            && (j in q.edited <==> k in q'.edited) && (j in q.edited ==> EditSame(same)(q.edited[j], q'.edited[k]))
  {
    SquashGets(top, pre, j);
    SquashGets(top', pre', k);
    SameAt(rel, same, top.added, top'.added, j, k);
    SameAt(rel, same, pre.added, pre'.added, j, k);
    SameAt(rel, EditSame(same), top.edited, top'.edited, j, k);
    SameAt(rel, EditSame(same), pre.edited, pre'.edited, j, k);
    SameAt(rel, same, top.removed, top'.removed, j, k);
    SameAt(rel, same, pre.removed, pre'.removed, j, k);
  }

  lemma SquashHolds<V>(top: Layer<V>, pre: Layer<V>, k: Key)
    requires Records(SquashLayer(top, pre), k)
    ensures Records(top, k) || Records(pre, k)
  {
    SquashGets(top, pre, k);
  }

  lemma RecordsPaired<V>(rel: (Key, Key) -> bool, same: (V, V) -> bool, l: Layer<V>, m: Layer<V>, k: Key)
    requires LayerSame(rel, same, l, m)
    ensures Records(l, k) ==> Paired(rel, k)
    ensures Records(m, k) ==> PairedBack(rel, k)
  {
  }

  lemma SquashLayerSame<V>(rel: (Key, Key) -> bool, same: (V, V) -> bool, top: Layer<V>, pre: Layer<V>, top': Layer<V>,
                           pre': Layer<V>)
    requires LayerSame(rel, same, top, top') && LayerSame(rel, same, pre, pre')
    ensures LayerSame(rel, same, SquashLayer(top, pre), SquashLayer(top', pre'))
  {
    var q, q' := SquashLayer(top, pre), SquashLayer(top', pre');
    forall j, k | rel(j, k)
      ensures SameOption(same, Get(q.added, j), Get(q'.added, k)) && SameOption(same, Get(q.removed, j), Get(q'.removed, k))
      ensures SameOption(EditSame(same), Get(q.edited, j), Get(q'.edited, k))
    {
      SquashAt(rel, same, top, pre, top', pre', j, k);
    }
    forall j | Records(q, j) ensures Paired(rel, j) {
      SquashHolds(top, pre, j);
      RecordsPaired(rel, same, top, top', j);
      RecordsPaired(rel, same, pre, pre', j);
    }
    forall k | Records(q', k) ensures PairedBack(rel, k) {
      SquashHolds(top', pre', k);
      RecordsPaired(rel, same, top, top', k);
      RecordsPaired(rel, same, pre, pre', k);
    }
  }

  // ------------------------------------------------------------------
  // Runs
  // ------------------------------------------------------------------

  lemma JoinedSame<V>(rel: (Key, Key) -> bool, same: (V, V) -> bool, ls: seq<Layer<V>>, ms: seq<Layer<V>>, l: Layer<V>,
                      m: Layer<V>)
    requires LayersSame(rel, same, ls, ms) && LayerSame(rel, same, l, m)
    ensures LayersSame(rel, same, ls + [l], ms + [m])
  {
  }

  lemma CutSame<V>(rel: (Key, Key) -> bool, same: (V, V) -> bool, ls: seq<Layer<V>>, ms: seq<Layer<V>>, n: nat)
    requires LayersSame(rel, same, ls, ms) && n <= |ls|
    ensures LayersSame(rel, same, ls[..n], ms[..n]) && (n < |ls| ==> LayerSame(rel, same, ls[n], ms[n]))
  {
  }

  lemma RecordedSame<V>(rel: (Key, Key) -> bool, same: (V, V) -> bool, db: Db<V>, q: Db<V>, l: Layer<V>, m: Layer<V>)
    requires LayersSame(rel, same, db.layers, q.layers) && LayerSame(rel, same, l, m)
    ensures LayersSame(rel, same, Recorded(db, l), Recorded(q, m))
  {
    if db.layers != [] {
      CutSame(rel, same, db.layers, q.layers, |db.layers| - 1);
      JoinedSame(rel, same, Below(db), Below(q), l, m);
    }
  }

  lemma TopSame<V>(rel: (Key, Key) -> bool, same: (V, V) -> bool, db: Db<V>, q: Db<V>)
    requires LayersSame(rel, same, db.layers, q.layers) && db.layers != []
    ensures q.layers != [] && LayerSame(rel, same, Top(db), Top(q)) && LayersSame(rel, same, Below(db), Below(q))
  {
    CutSame(rel, same, db.layers, q.layers, |db.layers| - 1);
  }

  lemma FreshAgain(rel: (Key, Key) -> bool, n: map<string, nat>, n': map<string, nat>, kind: string)
    requires FreshSame(rel, n, n')
    ensures FreshSame(rel, n[kind := Next(n, kind) + 1], n'[kind := Next(n', kind) + 1])
  {
    var m, m' := n[kind := Next(n, kind) + 1], n'[kind := Next(n', kind) + 1];
    forall other, i: nat ensures FreshPair(rel, m, m', other, i) {
      assert FreshPair(rel, n, n', other, if other == kind then i + 1 else i);
    }
  }

  lemma InsertSame<V>(rel: (Key, Key) -> bool, same: (V, V) -> bool, db: Db<V>, q: Db<V>, kind: string, v: V, w: V)
    requires DbSame(rel, same, db, q) && same(v, w)
    ensures DbSame(rel, same, Step(db, Insert(kind, v)), Step(q, Insert(kind, w)))
  {
    var j, k := FreshKey(db, kind), FreshKey(q, kind);
    assert FreshPair(rel, db.nextId, q.nextId, kind, 0);
    assert rel(j, k);
    FreshAgain(rel, db.nextId, q.nextId, kind);
    PutSame(rel, same, db.store, q.store, j, k, v, w);
    if db.layers != [] {
      TopSame(rel, same, db, q);
      AfterInsertSame(rel, same, Top(db), Top(q), j, k, v, w);
      RecordedSame(rel, same, db, q, AfterInsert(Top(db), j, v), AfterInsert(Top(q), k, w));
    }
  }

  lemma ModifySame<V>(rel: (Key, Key) -> bool, same: (V, V) -> bool, db: Db<V>, q: Db<V>, x: Op<V>, y: Op<V>)
    requires DbSame(rel, same, db, q) && x.Modify? && OpSame(rel, same, x, y)
    ensures DbSame(rel, same, Step(db, x), Step(q, y))
  {
    PutSame(rel, same, db.store, q.store, x.key, y.key, x.now, y.now);
    if db.layers != [] {
      TopSame(rel, same, db, q);
      AfterModifySame(rel, same, Top(db), Top(q), x.key, y.key, x.was, x.now, y.was, y.now);
      RecordedSame(rel, same, db, q, AfterModify(Top(db), x.key, x.was, x.now), AfterModify(Top(q), y.key, y.was, y.now));
    }
  }

  lemma RemoveSame<V>(rel: (Key, Key) -> bool, same: (V, V) -> bool, db: Db<V>, q: Db<V>, x: Op<V>, y: Op<V>)
    requires DbSame(rel, same, db, q) && x.Remove? && OpSame(rel, same, x, y)
    ensures DbSame(rel, same, Step(db, x), Step(q, y))
  {
    SameAt(rel, same, db.store, q.store, x.key, y.key);
    DropSame(rel, same, db.store, q.store, x.key, y.key);
    if db.layers != [] {
      TopSame(rel, same, db, q);
      AfterRemoveSame(rel, same, Top(db), Top(q), x.key, y.key, x.copy, y.copy);
      RecordedSame(rel, same, db, q, AfterRemove(Top(db), x.key, x.copy), AfterRemove(Top(q), y.key, y.copy));
    }
  }

  lemma SquashDbSame<V>(rel: (Key, Key) -> bool, same: (V, V) -> bool, db: Db<V>, q: Db<V>)
    requires DbSame(rel, same, db, q) && |db.layers| > 1
    ensures DbSame(rel, same, Step(db, Op<V>.Squash), Step(q, Op<V>.Squash))
  {
    var n := |db.layers|;
    SquashStep(db);
    SquashStep(q);
    CutSame(rel, same, db.layers, q.layers, n - 1);
    CutSame(rel, same, db.layers, q.layers, n - 2);
    SquashLayerSame(rel, same, db.layers[n - 1], db.layers[n - 2], q.layers[n - 1], q.layers[n - 2]);
    LayersAre(Step(db, Op<V>.Squash));
    LayersAre(Step(q, Op<V>.Squash));
    JoinedSame(rel, same, db.layers[..n - 2], q.layers[..n - 2], Top(Step(db, Op<V>.Squash)), Top(Step(q, Op<V>.Squash)));
  }

  lemma UndoDbSame<V>(rel: (Key, Key) -> bool, same: (V, V) -> bool, db: Db<V>, q: Db<V>)
    requires DbSame(rel, same, db, q) && db.layers != []
    ensures DbSame(rel, same, Step(db, Op<V>.Undo), Step(q, Op<V>.Undo))
  {
    TopSame(rel, same, db, q);
    UndoStoreSame(rel, same, Top(db), Top(q), db.store, q.store);
    UndoIs(db, UndoStore(Top(db), db.store));
    UndoIs(q, UndoStore(Top(q), q.store));
  }

  lemma UndoIs<V>(db: Db<V>, store: map<Key, V>)
    requires db.layers != [] && store == UndoStore(Top(db), db.store)
    ensures Step(db, Op<V>.Undo) == Db(store, Below(db), db.revision - 1, db.nextId)
  {
  }

  lemma StartDbSame<V>(rel: (Key, Key) -> bool, same: (V, V) -> bool, db: Db<V>, q: Db<V>)
    requires DbSame(rel, same, db, q)
    ensures DbSame(rel, same, Step(db, Op<V>.Start), Step(q, Op<V>.Start))
  {
    EmptySame(rel, same, db.revision + 1, q.revision + 1);
    JoinedSame(rel, same, db.layers, q.layers, EmptyLayer(db.revision + 1), EmptyLayer(q.revision + 1));
  }

  lemma StepSame<V>(rel: (Key, Key) -> bool, same: (V, V) -> bool, db: Db<V>, q: Db<V>, x: Op<V>, y: Op<V>)
    requires DbSame(rel, same, db, q) && OpSame(rel, same, x, y)
    ensures DbSame(rel, same, Step(db, x), Step(q, y))
  {
    match x
    case Insert(kind, v) => InsertSame(rel, same, db, q, kind, v, y.v);
    case Modify(_, _, _) => ModifySame(rel, same, db, q, x, y);
    case Remove(_, _) => RemoveSame(rel, same, db, q, x, y);
    case Start => StartDbSame(rel, same, db, q);
    case Undo => if db.layers != [] { UndoDbSame(rel, same, db, q); }
    case Squash => if |db.layers| > 1 { SquashDbSame(rel, same, db, q); }
  }

  /** Runs of the same calls on databases that are the same under a pairing end in such databases. */
  lemma {:induction false} RunSame<V>(rel: (Key, Key) -> bool, same: (V, V) -> bool, db: Db<V>, q: Db<V>,
                                      xs: seq<Op<V>>, ys: seq<Op<V>>)
    requires DbSame(rel, same, db, q) && OpsSame(rel, same, xs, ys)
    ensures DbSame(rel, same, RunDb(db, xs), RunDb(q, ys))
    decreases |xs|
  {
    if xs != [] {
      assert OpSame(rel, same, xs[0], ys[0]);
      StepSame(rel, same, db, q, xs[0], ys[0]);
      RunSame(rel, same, Step(db, xs[0]), Step(q, ys[0]), xs[1..], ys[1..]);
    }
  }

  // ------------------------------------------------------------------
  // The same objects under different ids
  // ------------------------------------------------------------------

  /** An object: its data, and the ids of other objects it holds. */
  datatype Object<A> = Object(data: A, refs: seq<Key>)

  /** The store holds an object under the key, or one that holds the key. */
  ghost predicate Mentions<A>(s: map<Key, Object<A>>, k: Key) {
    k in s || exists j :: j in s && k in s[j].refs
  }

  ghost function Mentioned<A>(s: map<Key, Object<A>>): (r: set<Key>)
    ensures forall k :: k in r <==> Mentions(s, k)
  {
    s.Keys + set j, k | j in s && k in s[j].refs :: k
  }

  /** The same data, and the ids it holds renamed. */
  predicate SameObject<A(==)>(m: map<Key, Key>, v: Object<A>, w: Object<A>) {
    v.data == w.data && |v.refs| == |w.refs| && forall i :: 0 <= i < |v.refs| ==> v.refs[i] in m && m[v.refs[i]] == w.refs[i]
  }

  /** Each of the two renamings undoes the other, and keeps the kind of a key. */
  predicate Mutual(m: map<Key, Key>, w: map<Key, Key>) {
    && (forall k :: k in m ==> m[k] in w && w[m[k]] == k && m[k].kind == k.kind)
    && (forall k :: k in w ==> w[k] in m && m[w[k]] == k)
  }

  ghost predicate Exactly<A>(m: map<Key, Key>, s: map<Key, Object<A>>) {
    forall k :: k in m <==> Mentions(s, k)
  }

  ghost predicate Carries<A>(m: map<Key, Key>, s: map<Key, Object<A>>, t: map<Key, Object<A>>) {
    forall k :: k in s ==> k in m && m[k] in t && SameObject(m, s[k], t[m[k]])
  }

  /** `m` renames every id in the store `s`, and thereby turns `s` into `t`; `w` does the reverse. */
  ghost predicate Renames<A>(m: map<Key, Key>, w: map<Key, Key>, s: map<Key, Object<A>>, t: map<Key, Object<A>>) {
    Mutual(m, w) && Exactly(m, s) && Exactly(w, t) && Carries(m, s, t) && Carries(w, t, s)
  }

  ghost predicate UpToIds<A>(o: Objects<Object<A>>, p: Objects<Object<A>>) {
    exists m, w :: Renames(m, w, o.store, p.store)
  }

  lemma RenamesSelf<A>(s: map<Key, Object<A>>)
    ensures var m := map k | k in Mentioned(s) :: k; Renames(m, m, s, s)
  {
    var m := map k | k in Mentioned(s) :: k;
    forall k | k in s ensures SameObject(m, s[k], s[k]) {
      forall i | 0 <= i < |s[k].refs| ensures s[k].refs[i] in m { assert Mentions(s, s[k].refs[i]); }
    }
  }

  ghost function Composed(m: map<Key, Key>, n: map<Key, Key>): map<Key, Key> {
    map k | k in m && m[k] in n :: n[m[k]]
  }

  /** Renamings of the same middle store compose. */
  lemma ComposedCarries<A>(m: map<Key, Key>, n: map<Key, Key>, s: map<Key, Object<A>>, t: map<Key, Object<A>>,
                           u: map<Key, Object<A>>)
    requires Carries(m, s, t) && Carries(n, t, u)
    ensures Carries(Composed(m, n), s, u)
  {
    var c := Composed(m, n);
    forall k | k in s ensures k in c && c[k] in u && SameObject(c, s[k], u[c[k]]) {
      assert SameObject(m, s[k], t[m[k]]) && SameObject(n, t[m[k]], u[n[m[k]]]);
    }
  }

  lemma MentionsMoved<A>(m: map<Key, Key>, s: map<Key, Object<A>>, t: map<Key, Object<A>>, k: Key)
    requires Carries(m, s, t) && Mentions(s, k)
    ensures k in m && Mentions(t, m[k])
  {
    if k !in s {
      var j :| j in s && k in s[j].refs;
      assert SameObject(m, s[j], t[m[j]]);
      var i :| 0 <= i < |s[j].refs| && s[j].refs[i] == k;
      assert t[m[j]].refs[i] in t[m[j]].refs;
    }
  }

  lemma ComposedExactly<A>(m: map<Key, Key>, n: map<Key, Key>, s: map<Key, Object<A>>, t: map<Key, Object<A>>)
    requires Exactly(m, s) && Exactly(n, t) && Carries(m, s, t)
    ensures Exactly(Composed(m, n), s) && forall k :: k in m ==> k in Composed(m, n)
  {
    forall k | k in m ensures k in Composed(m, n) {
      MentionsMoved(m, s, t, k);
    }
  }

  lemma RenamesOn<A>(m: map<Key, Key>, w: map<Key, Key>, n: map<Key, Key>, x: map<Key, Key>,
                     s: map<Key, Object<A>>, t: map<Key, Object<A>>, u: map<Key, Object<A>>)
    requires Renames(m, w, s, t) && Renames(n, x, t, u)
    ensures Renames(Composed(m, n), Composed(x, w), s, u)
  {
    ComposedCarries(m, n, s, t, u);
    ComposedCarries(x, w, u, t, s);
    ComposedExactly(m, n, s, t);
    ComposedExactly(x, w, u, t);
    ComposedMutual(m, w, n, x);
  }

  lemma ComposedMutual(m: map<Key, Key>, w: map<Key, Key>, n: map<Key, Key>, x: map<Key, Key>)
    requires Mutual(m, w) && Mutual(n, x)
    ensures Mutual(Composed(m, n), Composed(x, w))
  {
  }

  lemma UpToIdsIsEquivalence<A(!new)>()
    ensures Equivalence((o: Objects<Object<A>>, p: Objects<Object<A>>) => UpToIds(o, p))
    ensures forall o: Objects<Object<A>>, p :: SameStore(o, p) ==> UpToIds(o, p)
  {
    forall o: Objects<Object<A>>, p | SameStore(o, p) ensures UpToIds(o, p) {
      RenamesSelf(o.store);
    }
    forall o: Objects<Object<A>>, p | UpToIds(o, p) ensures UpToIds(p, o) {
      var m, w :| Renames(m, w, o.store, p.store);
      SwapRenames(m, w, o.store, p.store);
    }
    forall o: Objects<Object<A>>, p, q | UpToIds(o, p) && UpToIds(p, q) ensures UpToIds(o, q) {
      var m, w :| Renames(m, w, o.store, p.store);
      var n, x :| Renames(n, x, p.store, q.store);
      RenamesOn(m, w, n, x, o.store, p.store, q.store);
    }
  }

  lemma SwapRenames<A>(m: map<Key, Key>, w: map<Key, Key>, s: map<Key, Object<A>>, t: map<Key, Object<A>>)
    requires Renames(m, w, s, t)
    ensures Renames(w, m, t, s)
  {
  }

  // ------------------------------------------------------------------
  // Pairing the ids of two databases
  // ------------------------------------------------------------------

  predicate Handed(nextId: map<string, nat>, k: Key) {
    k.kind in nextId && k.id < nextId[k.kind]
  }

  /** Every id in the database was handed out. */
  ghost predicate Closed<A>(o: Objects<Object<A>>) {
    forall k :: Mentions(o.store, k) ==> Handed(o.nextId, k)
  }

  /** Keys are paired by the renaming, and the ids still to be handed out in their order. */
  predicate Linked(m: map<Key, Key>, n: map<string, nat>, n': map<string, nat>, j: Key, k: Key) {
    if j in m then k == m[j]
    else j.id >= Next(n, j.kind) && k == Key(j.kind, Next(n', j.kind) + (j.id - Next(n, j.kind)))
  }

  ghost function LinkOf(m: map<Key, Key>, n: map<string, nat>, n': map<string, nat>): (Key, Key) -> bool {
    (j, k) => Linked(m, n, n', j, k)
  }

  predicate LinkedObject<A(==)>(m: map<Key, Key>, n: map<string, nat>, n': map<string, nat>, v: Object<A>, w: Object<A>) {
    v.data == w.data && |v.refs| == |w.refs| && forall i :: 0 <= i < |v.refs| ==> Linked(m, n, n', v.refs[i], w.refs[i])
  }

  ghost function SameOf<A>(m: map<Key, Key>, n: map<string, nat>, n': map<string, nat>): (Object<A>, Object<A>) -> bool {
    (v: Object<A>, w: Object<A>) => LinkedObject(m, n, n', v, w)
  }

  lemma LinkPairs(m: map<Key, Key>, w: map<Key, Key>, n: map<string, nat>, n': map<string, nat>)
    requires Mutual(m, w) && (forall k :: k in m ==> Handed(n, k) && Handed(n', m[k]))
    ensures Pairing(LinkOf(m, n, n')) && FreshSame(LinkOf(m, n, n'), n, n')
  {
    var rel := LinkOf(m, n, n');
    forall kind, i: nat ensures FreshPair(rel, n, n', kind, i) {
      assert Key(kind, Next(n, kind) + i) !in m;
    }
    forall j, k, l | rel(j, l) && rel(k, l) ensures j == k {
    }
  }

  /** Databases that are the same up to ids, all handed out, are the same under the pairing. */
  lemma BareSame<A>(m: map<Key, Key>, w: map<Key, Key>, o: Objects<Object<A>>, p: Objects<Object<A>>)
    requires Renames(m, w, o.store, p.store) && Closed(o) && Closed(p)
    ensures DbSame(LinkOf(m, o.nextId, p.nextId), SameOf<A>(m, o.nextId, p.nextId), Bare(o), Bare(p))
  {
    forall k | k in m ensures Handed(o.nextId, k) && Handed(p.nextId, m[k]) {
      assert Mentions(o.store, k) && m[k] in w && Mentions(p.store, m[k]);
    }
    LinkPairs(m, w, o.nextId, p.nextId);
    StoresSame(m, w, o, p);
  }

  lemma StoresSame<A>(m: map<Key, Key>, w: map<Key, Key>, o: Objects<Object<A>>, p: Objects<Object<A>>)
    requires Renames(m, w, o.store, p.store) && Closed(o) && Closed(p)
    ensures SameUnder(LinkOf(m, o.nextId, p.nextId), SameOf<A>(m, o.nextId, p.nextId), o.store, p.store)
  {
    var rel, same := LinkOf(m, o.nextId, p.nextId), SameOf<A>(m, o.nextId, p.nextId);
    forall j, k | rel(j, k) ensures SameOption(same, Get(o.store, j), Get(p.store, k)) {
      if j in m {
        assert k in p.store ==> w[k] in o.store;
        if j in o.store { assert SameObject(m, o.store[j], p.store[m[j]]); }
      } else {
        assert !Handed(p.nextId, k);
        assert !Mentions(o.store, j) && !Mentions(p.store, k);
      }
    }
    forall j | j in o.store ensures Paired(rel, j) { assert rel(j, m[j]); }
    forall k | k in p.store ensures PairedBack(rel, k) { assert rel(w[k], k); }
  }

  /** A pairing, and the map that gives the other key of a pair. */
  ghost function Other(rel: (Key, Key) -> bool, ks: set<Key>): (c: map<Key, Key>)
    requires forall k :: k in ks ==> Paired(rel, k)
    ensures c.Keys == ks && forall k :: k in c ==> rel(k, c[k])
  {
    map k | k in ks :: PairOf(rel, k)
  }

  ghost function PairOf(rel: (Key, Key) -> bool, k: Key): (l: Key)
    requires Paired(rel, k)
    ensures rel(k, l)
  {
    var l :| rel(k, l);
    l
  }

  ghost function PairBackOf(rel: (Key, Key) -> bool, k: Key): (j: Key)
    requires PairedBack(rel, k)
    ensures rel(j, k)
  {
    var j :| rel(j, k);
    j
  }

  ghost function OtherBack(rel: (Key, Key) -> bool, ks: set<Key>): (c: map<Key, Key>)
    requires forall k :: k in ks ==> PairedBack(rel, k)
    ensures c.Keys == ks && forall k :: k in c ==> rel(c[k], k)
  {
    map k | k in ks :: PairBackOf(rel, k)
  }

  /** The partner of an object, and of an id it holds. */
  lemma StoredPair<A>(rel: (Key, Key) -> bool, same: (Object<A>, Object<A>) -> bool, s: map<Key, Object<A>>,
                      t: map<Key, Object<A>>, k: Key)
    returns (l: Key)
    requires SameUnder(rel, same, s, t) && k in s
    ensures rel(k, l) && l in t && same(s[k], t[l])
  {
    l := PairOf(rel, k);
    SameAt(rel, same, s, t, k, l);
  }

  lemma StoredPairBack<A>(rel: (Key, Key) -> bool, same: (Object<A>, Object<A>) -> bool, s: map<Key, Object<A>>,
                          t: map<Key, Object<A>>, l: Key)
    returns (k: Key)
    requires SameUnder(rel, same, s, t) && l in t
    ensures rel(k, l) && k in s && same(s[k], t[l])
  {
    k := PairBackOf(rel, l);
    SameAt(rel, same, s, t, k, l);
  }

  /** Everything a store mentions is paired with something the other store mentions. */
  lemma MentionsPaired<A>(m: map<Key, Key>, n: map<string, nat>, n': map<string, nat>, s: map<Key, Object<A>>,
                          t: map<Key, Object<A>>, k: Key)
    returns (l: Key)
    requires SameUnder(LinkOf(m, n, n'), SameOf<A>(m, n, n'), s, t) && Mentions(s, k)
    ensures LinkOf(m, n, n')(k, l) && Mentions(t, l)
  {
    var rel, same := LinkOf(m, n, n'), SameOf<A>(m, n, n');
    if k in s {
      l := StoredPair(rel, same, s, t, k);
    } else {
      var j :| j in s && k in s[j].refs;
      var h := StoredPair(rel, same, s, t, j);
      l := RefPaired(m, n, n', s[j], t[h], k);
    }
  }

  lemma RefPaired<A>(m: map<Key, Key>, n: map<string, nat>, n': map<string, nat>, v: Object<A>, w: Object<A>,
                     k: Key) returns (l: Key)
    requires LinkedObject(m, n, n', v, w) && k in v.refs
    ensures LinkOf(m, n, n')(k, l) && l in w.refs
  {
    var i :| 0 <= i < |v.refs| && v.refs[i] == k;
    l := w.refs[i];
  }

  lemma RefPairedBack<A>(m: map<Key, Key>, n: map<string, nat>, n': map<string, nat>, v: Object<A>, w: Object<A>,
                         l: Key) returns (k: Key)
    requires LinkedObject(m, n, n', v, w) && l in w.refs
    ensures LinkOf(m, n, n')(k, l) && k in v.refs
  {
    var i :| 0 <= i < |w.refs| && w.refs[i] == l;
    k := v.refs[i];
  }

  lemma MentionsPairedBack<A>(m: map<Key, Key>, n: map<string, nat>, n': map<string, nat>, s: map<Key, Object<A>>,
                              t: map<Key, Object<A>>, l: Key)
    returns (k: Key)
    requires SameUnder(LinkOf(m, n, n'), SameOf<A>(m, n, n'), s, t) && Mentions(t, l)
    ensures LinkOf(m, n, n')(k, l) && Mentions(s, k)
  {
    var rel, same := LinkOf(m, n, n'), SameOf<A>(m, n, n');
    if l in t {
      k := StoredPairBack(rel, same, s, t, l);
    } else {
      var h :| h in t && l in t[h].refs;
      var j := StoredPairBack(rel, same, s, t, h);
      k := RefPairedBack(m, n, n', s[j], t[h], l);
    }
  }

  lemma OtherCarries<A>(m: map<Key, Key>, n: map<string, nat>, n': map<string, nat>, s: map<Key, Object<A>>,
                        t: map<Key, Object<A>>, c: map<Key, Key>)
    requires Pairing(LinkOf(m, n, n')) && SameUnder(LinkOf(m, n, n'), SameOf<A>(m, n, n'), s, t) && Exactly(c, s)
    requires forall k :: k in c ==> Linked(m, n, n', k, c[k])
    ensures Carries(c, s, t)
  {
    var rel, same := LinkOf(m, n, n'), SameOf<A>(m, n, n');
    forall k | k in s ensures k in c && c[k] in t && SameObject(c, s[k], t[c[k]]) {
      assert Mentions(s, k) && rel(k, c[k]);
      SameAt(rel, same, s, t, k, c[k]);
      assert LinkedObject(m, n, n', s[k], t[c[k]]);
      forall i | 0 <= i < |s[k].refs| ensures s[k].refs[i] in c && c[s[k].refs[i]] == t[c[k]].refs[i] {
        assert s[k].refs[i] in s[k].refs && Mentions(s, s[k].refs[i]);
        assert rel(s[k].refs[i], t[c[k]].refs[i]) && rel(s[k].refs[i], c[s[k].refs[i]]);
      }
    }
  }

  lemma OtherCarriesBack<A>(m: map<Key, Key>, n: map<string, nat>, n': map<string, nat>, s: map<Key, Object<A>>,
                            t: map<Key, Object<A>>, c: map<Key, Key>)
    requires Pairing(LinkOf(m, n, n')) && SameUnder(LinkOf(m, n, n'), SameOf<A>(m, n, n'), s, t) && Exactly(c, t)
    requires forall k :: k in c ==> Linked(m, n, n', c[k], k)
    ensures Carries(c, t, s)
  {
    var rel, same := LinkOf(m, n, n'), SameOf<A>(m, n, n');
    forall k | k in t ensures k in c && c[k] in s && SameObject(c, t[k], s[c[k]]) {
      assert Mentions(t, k) && rel(c[k], k);
      SameAt(rel, same, s, t, c[k], k);
      assert LinkedObject(m, n, n', s[c[k]], t[k]);
      forall i | 0 <= i < |t[k].refs| ensures t[k].refs[i] in c && c[t[k].refs[i]] == s[c[k]].refs[i] {
        assert t[k].refs[i] in t[k].refs && Mentions(t, t[k].refs[i]);
        assert rel(s[c[k]].refs[i], t[k].refs[i]) && rel(c[t[k].refs[i]], t[k].refs[i]);
      }
    }
  }

  /** Databases that are the same under the pairing are the same up to ids. */
  lemma SameRenames<A>(m: map<Key, Key>, n: map<string, nat>, n': map<string, nat>, s: map<Key, Object<A>>,
                       t: map<Key, Object<A>>)
    requires Pairing(LinkOf(m, n, n')) && SameUnder(LinkOf(m, n, n'), SameOf<A>(m, n, n'), s, t)
    requires forall k :: k in m ==> m[k].kind == k.kind
    ensures exists c, d :: Renames(c, d, s, t)
  {
    var rel := LinkOf(m, n, n');
    forall k | k in Mentioned(s) ensures Paired(rel, k) { var l := MentionsPaired(m, n, n', s, t, k); }
    forall k | k in Mentioned(t) ensures PairedBack(rel, k) { var j := MentionsPairedBack(m, n, n', s, t, k); }
    var c, d := Other(rel, Mentioned(s)), OtherBack(rel, Mentioned(t));
    forall k | k in c ensures Linked(m, n, n', k, c[k]) && c[k] in d && d[c[k]] == k && c[k].kind == k.kind {
      var l := MentionsPaired(m, n, n', s, t, k);
      assert rel(k, c[k]) && l == c[k];
      assert rel(d[l], l);
    }
    forall k | k in d ensures Linked(m, n, n', d[k], k) && d[k] in c && c[d[k]] == k {
      var j := MentionsPairedBack(m, n, n', s, t, k);
      assert rel(d[k], k) && j == d[k];
      assert rel(j, c[j]);
    }
    OtherCarries(m, n, n', s, t, c);
    OtherCarriesBack(m, n, n', s, t, d);
    assert Renames(c, d, s, t);
  }

  // ------------------------------------------------------------------
  // Rules
  // ------------------------------------------------------------------

  /** Counters above all of some keys. */
  ghost function Cover(ks: set<Key>): (n: map<string, nat>)
    ensures forall k :: k in ks ==> Handed(n, k)
  {
    if ks == {} then map[]
    else
      var k :| k in ks;
      var n := Cover(ks - {k});
      var r := n[k.kind := if Next(n, k.kind) > k.id then Next(n, k.kind) else k.id + 1];
      assert forall j :: j in ks ==> j == k || j in ks - {k};
      r
  }

  /** The database with counters above all its ids; they already are, except in databases that cannot arise. */
  ghost function Raised<A>(o: Objects<Object<A>>): (r: Objects<Object<A>>)
    ensures Closed(r) && r.store == o.store && r.revision == o.revision
    ensures Closed(o) ==> r == o
  {
    if Closed(o) then o else o.(nextId := Cover(Mentioned(o.store)))
  }

  /** The rules of a chain over the object database, in which only databases matter whose ids were all handed out. */
  ghost function IdRules<A(!new)>(work: (Objects<Object<A>>, BlockId, Status) -> Body<Object<A>>):
    Rules<Objects<Object<A>>, Layer<Object<A>>>
  {
    Rules((o, b, st) => Attempted(Raised(o), work(Raised(o), b, st)), (l, o) => TakenBack(l, o),
          (o, p) => SameStore(o, p), (o, p) => UpToIds(o, p), (o: Objects<Object<A>>) => o.revision)
  }

  /** Two blocks make the same calls up to the ids, and fail together. */
  ghost predicate Agree<A>(m: map<Key, Key>, o: Objects<Object<A>>, p: Objects<Object<A>>, x: Body<Object<A>>,
                           y: Body<Object<A>>) {
    && BlockFails(x) == BlockFails(y)
    && OpsSame(LinkOf(m, o.nextId, p.nextId), SameOf<A>(m, o.nextId, p.nextId), BlockBody(x), BlockBody(y))
  }

  /** What a block does respects every renaming of the ids handed out so far: it touches the renamed objects, and writes
      the same data with the renamed ids. Objects it inserts itself are renamed in the order of their insertion. */
  ghost predicate RespectsIds<A(!new)>(work: (Objects<Object<A>>, BlockId, Status) -> Body<Object<A>>) {
    forall m, w, o, p, b, st {:trigger Renames(m, w, o.store, p.store), work(o, b, st), work(p, b, st)} ::
      Closed(o) && Closed(p) && Renames(m, w, o.store, p.store) ==> Agree(m, o, p, work(o, b, st), work(p, b, st))
  }

  /** A block that succeeds under the full checks does the same without them. */
  ghost predicate SameUnchecked<A(!new)>(work: (Objects<Object<A>>, BlockId, Status) -> Body<Object<A>>) {
    forall o, b :: !BlockFails(work(o, b, Complete)) ==> work(o, b, Validated) == work(o, b, Complete)
  }

  lemma AgreeingBlocks<A>(m: map<Key, Key>, w: map<Key, Key>, o: Objects<Object<A>>, p: Objects<Object<A>>,
                          x: Body<Object<A>>, y: Body<Object<A>>)
    requires Closed(o) && Closed(p) && Renames(m, w, o.store, p.store) && Agree(m, o, p, x, y)
    ensures Attempted(o, x).Made? == Attempted(p, y).Made? && UpToIds(Attempted(o, x).after, Attempted(p, y).after)
  {
    var rel, same := LinkOf(m, o.nextId, p.nextId), SameOf<A>(m, o.nextId, p.nextId);
    BareSame(m, w, o, p);
    StartDbSame(rel, same, Bare(o), Bare(p));
    RunSame(rel, same, Step(Bare(o), Op<Object<A>>.Start), Step(Bare(p), Op<Object<A>>.Start), BlockBody(x), BlockBody(y));
    SameRenames(m, o.nextId, p.nextId, Attempted(o, x).after.store, Attempted(p, y).after.store);
  }

  lemma AlikeEffect<A(!new)>(work: (Objects<Object<A>>, BlockId, Status) -> Body<Object<A>>,
                             o: Objects<Object<A>>, p: Objects<Object<A>>, b: BlockId, st: Status)
    requires RespectsIds(work) && UpToIds(o, p)
    ensures SameEffect(IdRules(work), o, p, b, st)
  {
    var m, w :| Renames(m, w, o.store, p.store);
    var x, y := Raised(o), Raised(p);
    assert Renames(m, w, x.store, y.store);
    assert Agree(m, x, y, work(x, b, st), work(y, b, st));
    AgreeingBlocks(m, w, x, y, work(x, b, st), work(y, b, st));
  }

  /** Blocks that respect renamings of ids cannot tell databases apart that are the same up to ids, whatever they insert:
      the rules are regular. On databases whose ids were all handed out they are those of the object database. */
  lemma RenamingIsRegular<A(!new)>(work: (Objects<Object<A>>, BlockId, Status) -> Body<Object<A>>)
    requires RespectsIds(work) && SameUnchecked(work)
    ensures Regular(IdRules(work))
    ensures forall o, b, st :: Closed(o) ==> IdRules(work).apply(o, b, st) == Attempted(o, work(o, b, st))
  {
    var rules := IdRules(work);
    UpToIdsIsEquivalence<A>();
    forall o, p, b, st | rules.alike(o, p) ensures SameEffect(rules, o, p, b, st) {
      AlikeEffect(work, o, p, b, st);
    }
    forall o, b | rules.apply(o, b, Complete).Made? ensures rules.apply(o, b, Validated) == rules.apply(o, b, Complete) {
      assert !BlockFails(work(Raised(o), b, Complete));
    }
    forall o, b, st | Closed(o) ensures rules.apply(o, b, st) == Attempted(o, work(o, b, st)) {
      assert Raised(o) == o;
    }
  }

  /** For instance, blocks that insert an object, which get another id whenever they are applied again. */
  lemma InsertingIsRegular<A(!new)>(kind: string, data: A)
    ensures Regular(IdRules((o: Objects<Object<A>>, b: BlockId, st: Status) => InsertingBody(kind, Object(data, []))))
  {
    var v := Object(data, []);
    var work := (o: Objects<Object<A>>, b: BlockId, st: Status) => InsertingBody(kind, v);
    InsertingOps(kind, v);
    forall m, w, o, p, b, st | Closed(o) && Closed(p) && Renames(m, w, o.store, p.store)
      ensures Agree(m, o, p, work(o, b, st), work(p, b, st))
    {
      assert SameOf<A>(m, o.nextId, p.nextId)(v, v);
    }
    RenamingIsRegular(work);
  }
}
