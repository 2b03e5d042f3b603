/** The object database with its undo stack: the in-place form of the undo log.

    The store, the undo stack, the revision and the id counters are updated in place; each
    method is proved to take the abstract database `View()` through one `Step`, so the laws
    proved about runs of steps hold of it. */
module UndoDatabase {
  import opened Options
  import opened UndoLog
  import opened UndoLaws

  /** The id counters, one per object type. A session keeps a reference to the database's own
      counters, not a copy of them. */
  class IdCounters {
    var next: map<string, nat>

    constructor ()
      ensures next == map[]
    {
      next := map[];
    }
  }

  /** What one session has changed. */
  class UndoState<V> {
    var added: map<Key, V>
    var edited: map<Key, Edit<V>>
    var removed: map<Key, V>
    const revision: int
    const oldIds: IdCounters

    constructor (revision: int, ids: IdCounters)
      ensures View() == EmptyLayer(revision) && oldIds == ids
    {
      added, edited, removed := map[], map[], map[];
      this.revision, this.oldIds := revision, ids;
    }

    ghost function View(): Layer<V>
      reads this
    {
      Layer(added, edited, removed, revision)
    }

    method RecordInsert(k: Key, v: V)
      modifies this
      ensures View() == AfterInsert(old(View()), k, v)
      ensures added == old(added)[k := v] && edited == old(edited) && removed == old(removed)
    {
      added := added[k := v];
    }

    method RecordRemove(k: Key, copy: V)
      modifies this
      ensures View() == AfterRemove(old(View()), k, copy)
      ensures added == old(added) - {k}
      ensures k in old(added) ==> edited == old(edited) && removed == old(removed)
      ensures k !in old(added) ==> edited == old(edited) - {k}
      ensures k !in old(added) && (k in old(edited) || k !in old(removed)) ==> removed == old(removed)[k := copy]
      ensures k !in old(added) && k !in old(edited) && k in old(removed) ==> removed == old(removed)
    {
      if k in added {
        added := added - {k};
        return;
      }
      if k in edited {
        removed := removed[k := copy];
        edited := edited - {k};
      }
      if k in removed {
        return;
      }
      removed := removed[k := copy];
    }

    method RecordModify(k: Key, was: V, now: V)
      modifies this
      ensures View() == AfterModify(old(View()), k, was, now)
      ensures added == old(added) && removed == old(removed)
      ensures edited == if k in old(added) || k in old(edited) then old(edited) else old(edited)[k := Edit(was, now)]
    {
      if k in added { return; }
      if k in edited { return; }
      edited := edited[k := Edit(was, now)];
    }

    /** Merges the newer state `top` into this one. */
    method Absorb(top: UndoState<V>)
      requires top != this
      modifies this
      ensures View() == SquashLayer(top.View(), old(View()))
    {
      AbsorbEdits(top);
      added := added + top.added;
      AbsorbRemovals(top);
    }

    method AbsorbEdits(top: UndoState<V>)
      requires top != this
      modifies this
      ensures added == old(added) && removed == old(removed)
      ensures edited == old(edited) +
        map k | k in top.edited && MergesEdit(top.View(), old(View()), k) :: top.edited[k]
    {
      var ks := top.edited.Keys;
      while ks != {}
        invariant ks <= top.edited.Keys
        invariant added == old(added) && removed == old(removed)
        invariant edited == old(edited) +
          map k | k in top.edited && k !in ks && MergesEdit(top.View(), old(View()), k) :: top.edited[k]
        decreases ks
      {
        var k :| k in ks;
        if !(k in added) && !(k in edited) {
          edited := edited[k := top.edited[k]];
        }
        ks := ks - {k};
      }
    }

    method AbsorbRemovals(top: UndoState<V>)
      requires top != this
      modifies this
      ensures View() == RemovalsMerged(old(View()), top.removed, top.removed.Keys)
    {
      var ks := top.removed.Keys;
      ghost var l, done := View(), {};
      assert added - {} == added;
      while ks != {}
        invariant ks == top.removed.Keys - done && done <= top.removed.Keys
        invariant View() == RemovalsMerged(l, top.removed, done)
        decreases ks
      {
        var k :| k in ks;
        RemovalsMergedStep(l, top.removed, done, k);
        if k in added {
          added := added - {k};
        } else if k in edited {
          removed := removed[k := top.removed[k]];
          edited := edited - {k};
        } else {
          removed := removed[k := top.removed[k]];
        }
        ks := ks - {k};
        done := done + {k};
      }
      assert done == top.removed.Keys;
    }
  }

  /** Layer `l` with the removals of the keys `done` merged into it. */
  function RemovalsMerged<V>(l: Layer<V>, removed: map<Key, V>, done: set<Key>): Layer<V>
    requires done <= removed.Keys
  {
    Layer(
      l.added - done,
      map k | k in l.edited && (k in l.added || k !in done) :: l.edited[k],
      l.removed + map k | k in done && k !in l.added :: removed[k],
      l.revision)
  }

  lemma RemovalsMergedStep<V>(l: Layer<V>, removed: map<Key, V>, done: set<Key>, k: Key)
    requires done <= removed.Keys && k in removed && k !in done
    ensures var m, m' := RemovalsMerged(l, removed, done), RemovalsMerged(l, removed, done + {k});
            && m'.added == m.added - {k}
            && m'.edited == (if k in m.added then m.edited else m.edited - {k})
            && m'.removed == (if k in m.added then m.removed else m.removed[k := removed[k]])
  {
    assert l.added - (done + {k}) == l.added - done - {k};
    EditedStep(l, done, k);
    RemovedStep(l, removed, done, k);
  }

  lemma EditedStep<V>(l: Layer<V>, done: set<Key>, k: Key)
    requires k !in done
    ensures var edited := map j | j in l.edited && (j in l.added || j !in done) :: l.edited[j];
            (map j | j in l.edited && (j in l.added || j !in done + {k}) :: l.edited[j]) ==
            if k in l.added - done then edited else edited - {k}
  {
  }

  lemma RemovedStep<V>(l: Layer<V>, removed: map<Key, V>, done: set<Key>, k: Key)
    requires done <= removed.Keys && k in removed && k !in done
    ensures var gone := map j | j in done && j !in l.added :: removed[j];
            l.removed + (map j | j in done + {k} && j !in l.added :: removed[j]) ==
            if k in l.added - done then l.removed + gone else (l.removed + gone)[k := removed[k]]
  {
  }

  class Database<V> {
    var store: map<Key, V>
    var stack: seq<UndoState<V>>
    var revision: int
    var nextId: IdCounters

    /** The layers of the stack are distinct objects, and every session shares the counters. */
    ghost predicate Valid()
      reads this, stack
    {
      && (forall i, j :: 0 <= i < j < |stack| ==> stack[i] != stack[j])
      && (forall i :: 0 <= i < |stack| ==> stack[i].oldIds == nextId)
    }

    ghost function Layers(): (ls: seq<Layer<V>>)
      reads this, stack
      ensures |ls| == |stack|
    {
      seq(|stack|, i requires 0 <= i < |stack| reads this, stack => stack[i].View())
    }

    ghost function View(): Db<V>
      reads this, stack, nextId
    {
      Db(store, Layers(), revision, nextId.next)
    }

    constructor ()
      ensures Valid() && View() == Db(map[], [], 0, map[])
      ensures fresh(nextId)
    {
      store, stack, revision := map[], [], 0;
      nextId := new IdCounters();
    }

    method Insert(kind: string, v: V) returns (k: Key)
      requires Valid()
      modifies this, stack, nextId
      ensures Valid() && stack == old(stack) && nextId == old(nextId)
      ensures View() == Step(old(View()), Op.Insert(kind, v))
      ensures k == Key(kind, if kind in old(nextId.next) then old(nextId.next)[kind] else 0)
      ensures store == old(store)[k := v] && nextId.next == old(nextId.next)[kind := k.id + 1] && revision == old(revision)
    {
      var id := if kind in nextId.next then nextId.next[kind] else 0;
      k := Key(kind, id);
      nextId.next := nextId.next[kind := id + 1];
      store := store[k := v];
      if |stack| != 0 {
        stack[|stack| - 1].RecordInsert(k, v);
      }
      assert Layers() == Step(old(View()), Op.Insert(kind, v)).layers;
    }

    /** `was` is the caller's copy of the object before the change; it is not compared with the store. */
    method Modify(k: Key, was: V, now: V)
      requires Valid()
      modifies this, stack
      ensures Valid() && stack == old(stack) && nextId == old(nextId)
      ensures View() == Step(old(View()), Op.Modify(k, was, now))
      ensures store == old(store)[k := now] && revision == old(revision)
    {
      store := store[k := now];
      if |stack| != 0 {
        stack[|stack| - 1].RecordModify(k, was, now);
      }
      assert Layers() == Step(old(View()), Op.Modify(k, was, now)).layers;
    }

    /** `copy` is the caller's copy of the object; a copy that differs from the stored object is
        only logged, and it is the copy that the undo record keeps. */
    method Remove(k: Key, copy: V) returns (found: bool)
      requires Valid()
      modifies this, stack
      ensures Valid() && stack == old(stack) && nextId == old(nextId)
      ensures found == (k in old(store))
      ensures View() == Step(old(View()), Op.Remove(k, copy))
      ensures store == old(store) - {k} && revision == old(revision)
    {
      found := k in store;
      if found {
        store := store - {k};
        if |stack| != 0 {
          stack[|stack| - 1].RecordRemove(k, copy);
        }
      }
      assert Layers() == Step(old(View()), Op.Remove(k, copy)).layers;
    }

    method StartSession()
      requires Valid()
      modifies this
      ensures Valid() && nextId == old(nextId)
      ensures |stack| == |old(stack)| + 1 && stack[..|old(stack)|] == old(stack) && fresh(stack[|stack| - 1])
      ensures View() == Step(old(View()), Op.Start)
      ensures store == old(store) && revision == old(revision) + 1 && stack[|stack| - 1].View() == Layer(map[], map[], map[], revision)
    {
      revision := revision + 1;
      var state := new UndoState<V>(revision, nextId);
      stack := stack + [state];
      assert Layers() == Step(old(View()), Op<V>.Start).layers;
    }

    method Undo()
      requires Valid()
      modifies this
      ensures Valid() && nextId == old(nextId)
      ensures stack == if old(stack) == [] then [] else old(stack)[..|old(stack)| - 1]
      ensures View() == Step(old(View()), Op.Undo)
      ensures old(stack) == [] ==> store == old(store) && revision == old(revision)
      ensures old(stack) != [] ==>
                var top := old(stack)[|old(stack)| - 1];
                && revision == old(revision) - 1
                && forall k :: Get(store, k) == if k in top.removed then Some(top.removed[k])
                                                else if k in top.added then None
                                                else if k in top.edited then Some(top.edited[k].was)
                                                else Get(old(store), k)
    {
      if |stack| == 0 { return; }
      var top := stack[|stack| - 1];
      nextId := top.oldIds;
      RestoreStore(top);
      DropBack();
    }

    method RestoreStore(top: UndoState<V>)
      modifies this`store
      ensures store == UndoStore(top.View(), old(store))
      ensures forall k :: Get(store, k) == if k in top.removed then Some(top.removed[k])
                                           else if k in top.added then None
                                           else if k in top.edited then Some(top.edited[k].was)
                                           else Get(old(store), k)
    {
      PutBackEdited(top);
      TakeOutAdded(top);
      PutBackRemoved(top);
      SameMaps(store, UndoStore(top.View(), old(store)));
    }

    method DropBack()
      requires Valid() && |stack| != 0
      modifies this`stack, this`revision
      ensures Valid() && stack == old(stack)[..|old(stack)| - 1] && Layers() == old(Layers())[..|old(stack)| - 1]
      ensures revision == old(revision) - 1
    {
      stack := stack[..|stack| - 1];
      revision := revision - 1;
    }

    method PutBackEdited(top: UndoState<V>)
      modifies this`store
      ensures forall k :: Get(store, k) == (if k in top.edited then Some(top.edited[k].was) else Get(old(store), k))
    {
      var ks := top.edited.Keys;
      while ks != {}
        invariant ks <= top.edited.Keys
        invariant forall k :: Get(store, k) ==
                              (if k in top.edited && k !in ks then Some(top.edited[k].was) else Get(old(store), k))
        decreases ks
      {
        var k :| k in ks;
        store := store[k := top.edited[k].was];
        ks := ks - {k};
      }
    }

    method TakeOutAdded(top: UndoState<V>)
      modifies this`store
      ensures forall k :: Get(store, k) == (if k in top.added then None else Get(old(store), k))
    {
      var ks := top.added.Keys;
      while ks != {}
        invariant ks <= top.added.Keys
        invariant forall k :: Get(store, k) == (if k in top.added && k !in ks then None else Get(old(store), k))
        decreases ks
      {
        var k :| k in ks;
        store := store - {k};
        ks := ks - {k};
      }
    }

    method PutBackRemoved(top: UndoState<V>)
      modifies this`store
      ensures forall k :: Get(store, k) == (if k in top.removed then Some(top.removed[k]) else Get(old(store), k))
    {
      var ks := top.removed.Keys;
      while ks != {}
        invariant ks <= top.removed.Keys
        invariant forall k :: Get(store, k) ==
                              (if k in top.removed && k !in ks then Some(top.removed[k]) else Get(old(store), k))
        decreases ks
      {
        var k :| k in ks;
        store := store[k := top.removed[k]];
        ks := ks - {k};
      }
    }

    /** Undoes every open session: each key is back at its value before the oldest of them. */
    method UndoAll()
      requires Valid()
      modifies this
      ensures Valid() && nextId == old(nextId) && stack == []
      ensures View().layers == [] && revision == old(revision - |stack|)
      ensures forall k :: Get(store, k) == HorizonAt(old(Layers()), k, Get(old(store), k))
    {
      while |stack| != 0
        invariant Valid() && nextId == old(nextId)
        invariant |stack| <= |old(stack)| && stack == old(stack)[..|stack|]
        invariant revision - |stack| == old(revision - |stack|)
        invariant forall k :: HorizonAt(Layers(), k, Get(store, k)) == HorizonAt(old(Layers()), k, Get(old(store), k))
        decreases |stack|
      {
        Undo();
      }
    }

    method Squash()
      requires Valid() && |stack| != 0
      modifies this, stack
      ensures Valid() && nextId == old(nextId) && stack == old(stack)[..|old(stack)| - 1]
      ensures View() == Step(old(View()), Op.Squash)
      ensures store == old(store) && revision == old(revision) - 1
    {
      if |stack| == 1 {
        stack := [];
        revision := revision - 1;
        return;
      }
      var top := stack[|stack| - 1];
      var second := stack[|stack| - 2];
      second.Absorb(top);
      stack := stack[..|stack| - 1];
      revision := revision - 1;
      assert Layers() == Step(old(View()), Op<V>.Squash).layers;
    }

    method Commit(r: int)
      requires Valid()
      modifies this
      ensures Valid() && nextId == old(nextId)
      ensures |stack| <= |old(stack)| && stack == old(stack)[|old(stack)| - |stack|..]
      ensures View() == Step(old(View()), Op.Commit(r))
      ensures store == old(store) && revision == old(revision)
      ensures (forall i :: 0 <= i < |old(stack)| - |stack| ==> old(stack)[i].revision <= r) && (stack != [] ==> stack[0].revision > r)
    {
      ghost var d := 0;
      while |stack| != 0 && stack[0].revision <= r
        invariant Valid() && store == old(store) && revision == old(revision) && nextId == old(nextId)
        invariant d <= |old(stack)| && stack == old(stack)[d..]
        invariant Keep(Layers(), r) == Keep(old(Layers()), r)
        invariant forall i :: 0 <= i < d ==> old(stack)[i].revision <= r
        decreases |stack|
      {
        DropFront();
        d := d + 1;
      }
    }

    method DropFront()
      requires Valid() && |stack| != 0
      modifies this`stack
      ensures Valid() && stack == old(stack)[1..] && Layers() == old(Layers())[1..]
    {
      stack := stack[1..];
    }

    /** Refused, with nothing changed, while a session is open. */
    method SetRevision(r: int) returns (ok: bool)
      requires Valid()
      modifies this`revision
      ensures Valid() && ok == (stack == [])
      ensures View() == if ok then old(View()).(revision := r) else old(View())
    {
      if |stack| != 0 { return false; }
      revision := r;
      return true;
    }
  }
}
