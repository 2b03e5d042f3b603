/** Secondary index keys. A row of an index is stored under the key

      typeName__tag__field1__field2..._

    and rows are found by byte-lexicographic seeks. The fields of a key are already encoded, each in a
    width fixed by its type. */
module IndexKeys {
  import opened ByteOrder

  const SEPARATOR: Bytes := [95, 95]    // "__"
  const TERMINATOR: Bytes := [95]       // "_"

  type Fields = seq<Bytes>

  /** The two tuples have fields of the same widths. */
  predicate SameShape(fs: Fields, gs: Fields) {
    |fs| == |gs| && forall i :: 0 <= i < |fs| ==> |fs[i]| == |gs[i]|
  }

  /** The first `n` fields. */
  function Lead<F>(fs: seq<F>, n: nat): seq<F> {
    if n <= |fs| then fs[..n] else fs
  }

  /** The order of rows whose fields are ordered by `less`: by the first field that differs. */
  predicate RowLess<F(==)>(less: (F, F) -> bool, fs: seq<F>, gs: seq<F>)
    decreases |fs|
  {
    fs != [] && gs != [] && (less(fs[0], gs[0]) || (fs[0] == gs[0] && RowLess(less, fs[1..], gs[1..])))
  }

  /** Row `r` is the least of those that pass the test `among`. */
  ghost predicate Least<F(!new)>(less: (F, F) -> bool, rows: set<seq<F>>, among: seq<F> -> bool, r: seq<F>) {
    among(r) && forall s :: s in rows && among(s) ==> !RowLess(less, s, r)
  }

  /** The order of rows of encoded fields. */
  predicate TupleLess(fs: Fields, gs: Fields) {
    RowLess(Less, fs, gs)
  }

  function Encoded(fs: Fields): Bytes {
    if fs == [] then [] else SEPARATOR + fs[0] + Encoded(fs[1..])
  }

  function StoredKey(begin: Bytes, fs: Fields): Bytes {
    begin + Encoded(fs) + TERMINATOR
  }

  function QueryKey(begin: Bytes, q: Fields): Bytes {
    begin + Encoded(q)
  }

  /** One more, as an unsigned byte. */
  function Increment(x: Byte): Byte {
    if x == 255 then 0 else x + 1
  }

  /** The key with its last byte raised by one. */
  function Bumped(key: Bytes): Bytes
    requires key != []
  {
    key[..|key| - 1] + [Increment(key[|key| - 1])]
  }

  /** Appends the separated fields, leaving out the last `skip` of them. */
  method FieldValueToByte(fs: Fields, skip: nat) returns (key: Bytes)
    ensures key == Encoded(if skip <= |fs| then fs[..|fs| - skip] else [])
  {
    key := [];
    var n := |fs| - skip;
    var i := 0;
    while i < n
      invariant 0 <= i && (n >= 0 ==> i <= n) && (n < 0 ==> i == 0)
      invariant key == Encoded(fs[..i])
    {
      key := key + SEPARATOR;
      key := key + fs[i];
      EncodedSnoc(fs[..i], fs[i]);
      assert fs[..i + 1] == fs[..i] + [fs[i]];
      i := i + 1;
    }
  }

  /** Raises the last byte of a copy of the key. */
  method KeyEnd(key: Bytes) returns (end: Bytes)
    requires key != []
    ensures end == Bumped(key)
  {
    var copy := new Byte[|key|];
    var i := 0;
    while i < |key|
      invariant 0 <= i <= |key| == copy.Length && copy[..i] == key[..i]
    {
      copy[i] := key[i];
      i := i + 1;
    }
    assert copy[..] == key;
    copy[|key| - 1] := Increment(copy[|key| - 1]);
    end := copy[..];
    assert end[..|key| - 1] == key[..|key| - 1];
  }

  /** Two underscores in front of every field, one at the end. */
  lemma KeyLayout(begin: Bytes, f: Bytes, g: Bytes)
    ensures StoredKey(begin, [f, g]) == begin + [95, 95] + f + [95, 95] + g + [95]
    ensures QueryKey(begin, [f]) == begin + [95, 95] + f
  {
    EncodedSnoc([], f);
    EncodedSnoc([f], g);
    assert [] + [f] == [f] && [f] + [g] == [f, g];
    assert begin + (SEPARATOR + f) == begin + SEPARATOR + f;
    assert begin + (SEPARATOR + f + SEPARATOR + g) == begin + SEPARATOR + f + SEPARATOR + g;
  }

  lemma {:induction false} EncodedSnoc(fs: Fields, f: Bytes)
    ensures Encoded(fs + [f]) == Encoded(fs) + SEPARATOR + f
  {
    if fs == [] {
      assert [f][1..] == [] && SEPARATOR + f + [] == SEPARATOR + f == [] + SEPARATOR + f;
    } else {
      EncodedSnoc(fs[1..], f);
      assert (fs + [f])[1..] == fs[1..] + [f];
      assert SEPARATOR + fs[0] + (Encoded(fs[1..]) + SEPARATOR + f) == SEPARATOR + fs[0] + Encoded(fs[1..]) + SEPARATOR + f;
    }
  }

  lemma {:induction false} EncodedLength(fs: Fields, gs: Fields)
    requires SameShape(fs, gs)
    ensures |Encoded(fs)| == |Encoded(gs)|
  {
    if fs != [] {
      EncodedLength(fs[1..], gs[1..]);
    }
  }

  lemma {:induction false} EncodedSplit(fs: Fields, m: nat)
    requires m <= |fs|
    ensures Encoded(fs) == Encoded(fs[..m]) + Encoded(fs[m..])
  {
    if m > 0 {
      EncodedSplit(fs[1..], m - 1);
      assert fs[..m][1..] == fs[1..][..m - 1] && fs[m..] == fs[1..][m - 1..];
      assert SEPARATOR + fs[0] + (Encoded(fs[1..][..m - 1]) + Encoded(fs[m..])) ==
             SEPARATOR + fs[0] + Encoded(fs[1..][..m - 1]) + Encoded(fs[m..]);
    } else {
      assert fs[..0] == [] && fs[0..] == fs;
    }
  }

  /** Byte order of the encodings is tuple order, and the encodings are equal only for equal tuples. */
  lemma {:induction false} EncodedOrder(fs: Fields, gs: Fields)
    requires SameShape(fs, gs)
    ensures Less(Encoded(fs), Encoded(gs)) <==> TupleLess(fs, gs)
    ensures Encoded(fs) == Encoded(gs) <==> fs == gs
  {
    if fs != [] {
      var x, y := SEPARATOR + fs[0], SEPARATOR + gs[0];
      EncodedOrder(fs[1..], gs[1..]);
      LessConcat(SEPARATOR, SEPARATOR, fs[0], gs[0]);
      LessIrreflexive(SEPARATOR);
      LessConcat(x, y, Encoded(fs[1..]), Encoded(gs[1..]));
      assert x == y <==> fs[0] == gs[0] by { assert x[2..] == fs[0] && y[2..] == gs[0]; }
      assert fs == [fs[0]] + fs[1..] && gs == [gs[0]] + gs[1..];
      SplitEqual(x, y, Encoded(fs[1..]), Encoded(gs[1..]));
    }
  }

  lemma SplitEqual(a: Bytes, b: Bytes, c: Bytes, d: Bytes)
    requires |a| == |b|
    ensures a + c == b + d <==> a == b && c == d
  {
    assert (a + c)[..|a|] == a && (a + c)[|a|..] == c;
    assert (b + d)[..|b|] == b && (b + d)[|b|..] == d;
  }

  /** Rows of one index are stored in tuple order. */
  lemma StoredOrder(begin: Bytes, fs: Fields, gs: Fields)
    requires SameShape(fs, gs)
    ensures Less(StoredKey(begin, fs), StoredKey(begin, gs)) <==> TupleLess(fs, gs)
  {
    EncodedLength(fs, gs);
    EncodedOrder(fs, gs);
    LessConcat(begin + Encoded(fs), begin + Encoded(gs), TERMINATOR, TERMINATOR);
    LessConcat(begin, begin, Encoded(fs), Encoded(gs));
    LessIrreflexive(begin);
    LessIrreflexive(TERMINATOR);
  }

  /** A seek to the key of the leading fields `q` passes over exactly the rows whose leading fields are less. */
  lemma LowerBoundKey(begin: Bytes, fs: Fields, q: Fields)
    requires |q| <= |fs| && SameShape(fs[..|q|], q)
    ensures Less(StoredKey(begin, fs), QueryKey(begin, q)) <==> TupleLess(fs[..|q|], q)
  {
    var lead, rest := Encoded(fs[..|q|]), Encoded(fs[|q|..]) + TERMINATOR;
    EncodedSplit(fs, |q|);
    EncodedLength(fs[..|q|], q);
    EncodedOrder(fs[..|q|], q);
    assert StoredKey(begin, fs) == (begin + lead) + rest;
    assert QueryKey(begin, q) == (begin + Encoded(q)) + [];
    LessConcat(begin + lead, begin + Encoded(q), rest, []);
    LessConcat(begin, begin, lead, Encoded(q));
    LessIrreflexive(begin);
  }

  /** Raising the last byte of a string gives the next string of its length, unless that byte wraps. */
  lemma {:induction false} BumpedIsNext(a: Bytes, b: Bytes)
    requires a != [] && |a| == |b| && b[|b| - 1] != 255
    ensures Less(a, Bumped(b)) <==> !Less(b, a)
    decreases |a|
  {
    if |a| == 1 {
      assert Bumped(b) == [b[0] + 1];
    } else {
      BumpedIsNext(a[1..], b[1..]);
      assert Bumped(b)[0] == b[0] && Bumped(b)[1..] == Bumped(b[1..]);
    }
  }

  /** A seek to the raised key passes over exactly the rows whose leading fields are not greater, unless the
      last byte wraps. */
  lemma UpperBoundKey(begin: Bytes, fs: Fields, q: Fields)
    requires 0 < |q| <= |fs| && SameShape(fs[..|q|], q)
    requires QueryKey(begin, q)[|QueryKey(begin, q)| - 1] != 255
    ensures Less(StoredKey(begin, fs), Bumped(QueryKey(begin, q))) <==> !TupleLess(q, fs[..|q|])
  {
    var lead, rest := Encoded(fs[..|q|]), Encoded(fs[|q|..]) + TERMINATOR;
    EncodedSplit(fs, |q|);
    EncodedLength(fs[..|q|], q);
    EncodedOrder(q, fs[..|q|]);
    var a, b := begin + lead, begin + Encoded(q);
    assert StoredKey(begin, fs) == a + rest && QueryKey(begin, q) == b && Bumped(b) + [] == Bumped(b);
    LessConcat(a, Bumped(b), rest, []);
    BumpedIsNext(a, b);
    LessConcat(begin, begin, Encoded(q), lead);
    LessIrreflexive(begin);
  }

  /** When the last byte wraps, the raised key lies below the rows that match the query, so an upper bound
      finds rows that are not greater. */
  lemma UpperBoundWraps(begin: Bytes, fs: Fields, q: Fields)
    requires 0 < |q| <= |fs| && fs[..|q|] == q
    requires QueryKey(begin, q)[|QueryKey(begin, q)| - 1] == 255
    ensures !Less(StoredKey(begin, fs), Bumped(QueryKey(begin, q))) && !TupleLess(q, fs[..|q|])
  {
    var b, rest := QueryKey(begin, q), Encoded(fs[|q|..]) + TERMINATOR;
    EncodedSplit(fs, |q|);
    TupleIrreflexive(q);
    assert StoredKey(begin, fs) == b + rest;
    WrappedBelow(b, rest);
  }

  lemma TupleIrreflexive(q: Fields)
    ensures !TupleLess(q, q)
  {
    EncodedOrder(q, q);
    LessIrreflexive(Encoded(q));
  }

  lemma WrappedBelow(b: Bytes, rest: Bytes)
    requires b != [] && b[|b| - 1] == 255
    ensures !Less(b + rest, Bumped(b))
  {
    var n := |b| - 1;
    assert b == b[..n] + [255] && Bumped(b) == b[..n] + [0];
    assert b + rest == b[..n] + ([255] + rest);
    LessConcat(b[..n], b[..n], [255] + rest, [0]);
    LessIrreflexive(b[..n]);
  }

  // ------------------------------------------------------------------
  // Range queries
  // ------------------------------------------------------------------

  /** Seeking `key` among the stored rows finds row `r`: the first row whose key is not below it. */
  ghost predicate Finds(begin: Bytes, rows: set<Fields>, key: Bytes, r: Fields) {
    && r in rows && !Less(StoredKey(begin, r), key)
    && forall s :: s in rows && !Less(StoredKey(begin, s), key) ==> !Less(StoredKey(begin, s), StoredKey(begin, r))
  }

  /** Row `s` has the shape of row `r`, whose leading fields have the shape of the query. */
  predicate Fits(s: Fields, r: Fields, q: Fields) {
    SameShape(s, r) && |q| <= |s| && SameShape(Lead(s, |q|), q)
  }

  /** LowerBound finds the least row, in tuple order, among those whose leading fields are at least the query. */
  lemma LowerBoundFinds(begin: Bytes, rows: set<Fields>, q: Fields, r: Fields)
    requires r in rows && forall s {:trigger Fits(s, r, q)} :: s in rows ==> Fits(s, r, q)
    ensures Finds(begin, rows, QueryKey(begin, q), r) <==>
            Least(Less, rows, s => !TupleLess(Lead(s, |q|), q), r)
  {
    assert Fits(r, r, q);
    forall s | s in rows
      ensures Less(StoredKey(begin, s), QueryKey(begin, q)) <==> TupleLess(Lead(s, |q|), q)
      ensures Less(StoredKey(begin, s), StoredKey(begin, r)) <==> TupleLess(s, r)
    {
      assert Fits(s, r, q);
      LowerBoundKey(begin, s, q);
      StoredOrder(begin, s, r);
    }
  }

  /** UpperBound finds the least row among those whose leading fields are greater than the query, as long as
      the last byte of the query is not 255. */
  lemma UpperBoundFinds(begin: Bytes, rows: set<Fields>, q: Fields, r: Fields)
    requires r in rows && q != [] && forall s {:trigger Fits(s, r, q)} :: s in rows ==> Fits(s, r, q)
    requires QueryKey(begin, q)[|QueryKey(begin, q)| - 1] != 255
    ensures Finds(begin, rows, Bumped(QueryKey(begin, q)), r) <==>
            Least(Less, rows, s => TupleLess(q, Lead(s, |q|)), r)
  {
    assert Fits(r, r, q);
    forall s | s in rows
      ensures Less(StoredKey(begin, s), Bumped(QueryKey(begin, q))) <==> !TupleLess(q, Lead(s, |q|))
      ensures Less(StoredKey(begin, s), StoredKey(begin, r)) <==> TupleLess(s, r)
    {
      assert Fits(s, r, q);
      UpperBoundKey(begin, s, q);
      StoredOrder(begin, s, r);
    }
  }

  /** The upper bound key is right for every row exactly when the last byte of the query is not 255. */
  lemma UpperBoundExact(begin: Bytes, q: Fields)
    requires q != []
    ensures (forall fs :: |q| <= |fs| && SameShape(Lead(fs, |q|), q) ==>
               (Less(StoredKey(begin, fs), Bumped(QueryKey(begin, q))) <==> !TupleLess(q, Lead(fs, |q|)))) <==>
            QueryKey(begin, q)[|QueryKey(begin, q)| - 1] != 255
  {
    if QueryKey(begin, q)[|QueryKey(begin, q)| - 1] != 255 {
      forall fs | |q| <= |fs| && SameShape(Lead(fs, |q|), q)
        ensures Less(StoredKey(begin, fs), Bumped(QueryKey(begin, q))) <==> !TupleLess(q, Lead(fs, |q|))
      {
        UpperBoundKey(begin, fs, q);
      }
    } else {
      assert q[..|q|] == q;
      UpperBoundWraps(begin, q, q);
    }
  }
}
