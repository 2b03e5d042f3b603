/** The undo log of the object store, as values: what a layer records, what undoing
    a stack of layers brings back, and the laws every run of operations keeps.

    A key stands for a (type name, object id) pair and a value for the encoded object.
    Everything is stated key by key: the value of a key is `Some(v)` when the store
    holds it and `None` when it does not. */
module UndoLog {
  import opened Options

  datatype Key = Key(kind: string, id: nat)

  /** The record of a modified object: the value before its first modification in the
      layer, and the value that first modification wrote. */
  datatype Edit<+V> = Edit(was: V, now: V)

  datatype Layer<V> = Layer(added: map<Key, V>, edited: map<Key, Edit<V>>, removed: map<Key, V>, revision: int)

  datatype Db<V> = Db(store: map<Key, V>, layers: seq<Layer<V>>, revision: int, nextId: map<string, nat>)

  function Get<V>(m: map<Key, V>, k: Key): Option<V> {
    if k in m then Some(m[k]) else None
  }

  predicate Records<V>(l: Layer<V>, k: Key) {
    k in l.added || k in l.edited || k in l.removed
  }

  function EmptyLayer<V>(revision: int): Layer<V> {
    Layer(map[], map[], map[], revision)
  }

  // ------------------------------------------------------------------
  // What the three recording operations do to a layer
  // ------------------------------------------------------------------

  function AfterInsert<V>(l: Layer<V>, k: Key, v: V): Layer<V> {
    l.(added := l.added[k := v])
  }

  function AfterRemove<V>(l: Layer<V>, k: Key, copy: V): Layer<V> {
    if k in l.added then l.(added := l.added - {k})
    else if k in l.edited then l.(removed := l.removed[k := copy], edited := l.edited - {k})
    else if k in l.removed then l
    else l.(removed := l.removed[k := copy])
  }

  function AfterModify<V>(l: Layer<V>, k: Key, was: V, now: V): Layer<V> {
    if k in l.added || k in l.edited then l
    else l.(edited := l.edited[k := Edit(was, now)])
  }

  // ------------------------------------------------------------------
  // Undoing and squashing, key by key
  // ------------------------------------------------------------------

  /** What undoing layer `l` makes of key `k` when the store held `v` there. */
  function UndoAt<V>(l: Layer<V>, k: Key, v: Option<V>): Option<V> {
    if k in l.removed then Some(l.removed[k])
    else if k in l.added then None
    else if k in l.edited then Some(l.edited[k].was)
    else v
  }

  /** The store after undoing layer `l`. */
  function UndoStore<V>(l: Layer<V>, s: map<Key, V>): (r: map<Key, V>)
    ensures forall k :: Get(r, k) == UndoAt(l, k, Get(s, k))
  {
    map k | k in s.Keys + l.edited.Keys + l.removed.Keys && UndoAt(l, k, Get(s, k)).Some? ::
      UndoAt(l, k, Get(s, k)).value
  }

  /** The value key `k` returns to when every layer of `ls` is undone, newest (last) first. */
  function HorizonAt<V>(ls: seq<Layer<V>>, k: Key, v: Option<V>): Option<V> {
    if ls == [] then v else HorizonAt(ls[..|ls| - 1], k, UndoAt(ls[|ls| - 1], k, v))
  }

  predicate MergesEdit<V>(top: Layer<V>, pre: Layer<V>, k: Key) {
    k in top.edited && k !in pre.added && k !in pre.edited
  }

  /** The layer left when `top` is squashed into the layer `pre` below it. */
  function SquashLayer<V>(top: Layer<V>, pre: Layer<V>): Layer<V> {
    var edited := pre.edited + map k | k in top.edited && MergesEdit(top, pre, k) :: top.edited[k];
    var added := pre.added + top.added;
    Layer(
      added - top.removed.Keys,
      map k | k in edited && (k in added || k !in top.removed) :: edited[k],
      pre.removed + map k | k in top.removed && k !in added :: top.removed[k],
      pre.revision)
  }

  // ------------------------------------------------------------------
  // The operations of the database
  // ------------------------------------------------------------------

  datatype Op<V> =
    | Insert(kind: string, v: V)
    | Modify(key: Key, was: V, now: V)   // `was` is the caller's copy
    | Remove(key: Key, copy: V)          // `copy` is the caller's copy
    | Start
    | Undo
    | Squash
    | Commit(revision: int)

  function Top<V>(db: Db<V>): Layer<V>
    requires db.layers != []
  {
    db.layers[|db.layers| - 1]
  }

  function Below<V>(db: Db<V>): seq<Layer<V>>
    requires db.layers != []
  {
    db.layers[..|db.layers| - 1]
  }

  /** The layers with the newest one replaced; nothing is recorded without a session. */
  function Recorded<V>(db: Db<V>, top: Layer<V>): seq<Layer<V>> {
    if db.layers == [] then [] else Below(db) + [top]
  }

  function FreshKey<V>(db: Db<V>, kind: string): Key {
    Key(kind, if kind in db.nextId then db.nextId[kind] else 0)
  }

  function Keep<V>(ls: seq<Layer<V>>, revision: int): (r: seq<Layer<V>>)
    ensures |r| <= |ls|
  {
    if ls == [] || ls[0].revision > revision then ls else Keep(ls[1..], revision)
  }

  /** One call. (`Squash` without an open session never returns in the source; the calls
      considered below exclude it.) */
  function Step<V>(db: Db<V>, op: Op<V>): Db<V> {
    match op
    case Insert(kind, v) =>
      var k := FreshKey(db, kind);
      db.(store := db.store[k := v],
          nextId := db.nextId[kind := k.id + 1],
          layers := if db.layers == [] then [] else Recorded(db, AfterInsert(Top(db), k, v)))
    case Modify(k, was, now) =>
      db.(store := db.store[k := now],
          layers := if db.layers == [] then [] else Recorded(db, AfterModify(Top(db), k, was, now)))
    case Remove(k, copy) =>
      if k !in db.store then db
      else db.(store := db.store - {k},
               layers := if db.layers == [] then [] else Recorded(db, AfterRemove(Top(db), k, copy)))
    case Start =>
      db.(layers := db.layers + [EmptyLayer(db.revision + 1)], revision := db.revision + 1)
    case Undo =>
      if db.layers == [] then db
      else db.(store := UndoStore(Top(db), db.store), layers := Below(db), revision := db.revision - 1)
    case Squash =>
      if |db.layers| == 0 then db
      else if |db.layers| == 1 then db.(layers := [], revision := db.revision - 1)
      else
        var below := Below(db);
        var pre := below[|below| - 1];
        db.(layers := below[..|below| - 1] + [SquashLayer(Top(db), pre)], revision := db.revision - 1)
    case Commit(r) =>
      db.(layers := Keep(db.layers, r))
  }

  lemma {:induction false} KeepIsSuffix<V>(ls: seq<Layer<V>>, revision: int)
    ensures Keep(ls, revision) == ls[|ls| - |Keep(ls, revision)|..]
  {
    if ls != [] && ls[0].revision <= revision {
      KeepIsSuffix(ls[1..], revision);
    }
  }
}
