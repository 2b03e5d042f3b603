/** Index keys by the types of their fields: unsigned numbers of any width and floating-point numbers, compared as the
    numbers they are. */
module TypedKeys {
  import opened ByteOrder
  import opened FloatKeys
  import opened IndexKeys

  // ------------------------------------------------------------------
  // Rows of fields with an encoding that keeps their order
  // ------------------------------------------------------------------

  /** Of two fields, the encodings are ordered as the fields are. */
  predicate Ordered<F(==)>(enc: F -> Bytes, less: (F, F) -> bool, f: F, g: F) {
    && |enc(f)| == |enc(g)|
    && (Less(enc(f), enc(g)) <==> less(f, g))
    && (Less(enc(g), enc(f)) <==> less(g, f))
    && (enc(f) == enc(g) <==> f == g)
  }

  predicate RowsOrdered<F(==)>(enc: F -> Bytes, less: (F, F) -> bool, fs: seq<F>, gs: seq<F>) {
    |fs| == |gs| && forall i :: 0 <= i < |fs| ==> Ordered(enc, less, fs[i], gs[i])
  }

  function Written<F>(enc: F -> Bytes, fs: seq<F>): (r: Fields)
    ensures |r| == |fs| && forall i :: 0 <= i < |fs| ==> r[i] == enc(fs[i])
  {
    if fs == [] then [] else [enc(fs[0])] + Written(enc, fs[1..])
  }

  lemma {:induction false} WrittenOrder<F>(enc: F -> Bytes, less: (F, F) -> bool, fs: seq<F>, gs: seq<F>)
    requires RowsOrdered(enc, less, fs, gs)
    ensures SameShape(Written(enc, fs), Written(enc, gs))
    ensures TupleLess(Written(enc, fs), Written(enc, gs)) <==> RowLess(less, fs, gs)
    ensures TupleLess(Written(enc, gs), Written(enc, fs)) <==> RowLess(less, gs, fs)
    decreases |fs|
  {
    if fs != [] {
      assert Ordered(enc, less, fs[0], gs[0]);
      WrittenOrder(enc, less, fs[1..], gs[1..]);
      assert Written(enc, fs)[1..] == Written(enc, fs[1..]) && Written(enc, gs)[1..] == Written(enc, gs[1..]);
    }
  }

  lemma WrittenLead<F>(enc: F -> Bytes, fs: seq<F>, n: nat)
    ensures Written(enc, Lead(fs, n)) == Lead(Written(enc, fs), n)
  {
  }

  function WrittenRows<F(==)>(enc: F -> Bytes, rows: set<seq<F>>): set<Fields> {
    set s | s in rows :: Written(enc, s)
  }

  /** Row `s` compares with row `r`, and its leading fields with the query. */
  predicate Matches<F(==)>(enc: F -> Bytes, less: (F, F) -> bool, s: seq<F>, r: seq<F>, q: seq<F>) {
    RowsOrdered(enc, less, s, r) && |q| <= |s| && RowsOrdered(enc, less, Lead(s, |q|), q)
  }

  lemma MatchesFits<F>(enc: F -> Bytes, less: (F, F) -> bool, s: seq<F>, r: seq<F>, q: seq<F>)
    requires Matches(enc, less, s, r, q)
    ensures Fits(Written(enc, s), Written(enc, r), Written(enc, q))
    ensures TupleLess(Written(enc, s), Written(enc, r)) <==> RowLess(less, s, r)
    ensures TupleLess(Lead(Written(enc, s), |q|), Written(enc, q)) <==> RowLess(less, Lead(s, |q|), q)
    ensures TupleLess(Written(enc, q), Lead(Written(enc, s), |q|)) <==> RowLess(less, q, Lead(s, |q|))
  {
    WrittenOrder(enc, less, s, r);
    WrittenLead(enc, s, |q|);
    WrittenOrder(enc, less, Lead(s, |q|), q);
  }

  lemma AllFit<F(!new)>(enc: F -> Bytes, less: (F, F) -> bool, rows: set<seq<F>>, q: seq<F>, r: seq<F>)
    requires r in rows && forall s {:trigger Matches(enc, less, s, r, q)} :: s in rows ==> Matches(enc, less, s, r, q)
    ensures Written(enc, r) in WrittenRows(enc, rows)
    ensures forall t {:trigger Fits(t, Written(enc, r), Written(enc, q))} :: t in WrittenRows(enc, rows) ==>
              Fits(t, Written(enc, r), Written(enc, q))
  {
    forall t | t in WrittenRows(enc, rows) ensures Fits(t, Written(enc, r), Written(enc, q)) {
      var s :| s in rows && t == Written(enc, s);
      assert Matches(enc, less, s, r, q);
      MatchesFits(enc, less, s, r, q);
    }
  }

  /** The least row is the least as written. */
  lemma LeastWritten<F(!new)>(enc: F -> Bytes, less: (F, F) -> bool, rows: set<seq<F>>, among: seq<F> -> bool,
                              test: Fields -> bool, r: seq<F>)
    requires r in rows && forall s :: s in rows ==> (among(s) <==> test(Written(enc, s)))
    requires forall s :: s in rows ==> (RowLess(less, s, r) <==> TupleLess(Written(enc, s), Written(enc, r)))
    ensures Least(less, rows, among, r) <==> Least(Less, WrittenRows(enc, rows), test, Written(enc, r))
  {
    if Least(Less, WrittenRows(enc, rows), test, Written(enc, r)) {
      forall s | s in rows && among(s) ensures !RowLess(less, s, r) {
        assert Written(enc, s) in WrittenRows(enc, rows);
      }
    }
  }

  lemma LowerBoundRows<F(!new)>(enc: F -> Bytes, less: (F, F) -> bool, begin: Bytes, rows: set<seq<F>>, q: seq<F>, r: seq<F>)
    requires r in rows && forall s {:trigger Matches(enc, less, s, r, q)} :: s in rows ==> Matches(enc, less, s, r, q)
    ensures Finds(begin, WrittenRows(enc, rows), QueryKey(begin, Written(enc, q)), Written(enc, r)) <==>
            Least(less, rows, s => !RowLess(less, Lead(s, |q|), q), r)
  {
    var written := Written(enc, q);
    AllFit(enc, less, rows, q, r);
    LowerBoundFinds(begin, WrittenRows(enc, rows), written, Written(enc, r));
    forall s | s in rows
      ensures TupleLess(Lead(Written(enc, s), |q|), written) <==> RowLess(less, Lead(s, |q|), q)
      ensures TupleLess(Written(enc, s), Written(enc, r)) <==> RowLess(less, s, r)
    {
      assert Matches(enc, less, s, r, q);
      MatchesFits(enc, less, s, r, q);
    }
    LeastWritten(enc, less, rows, s => !RowLess(less, Lead(s, |q|), q), t => !TupleLess(Lead(t, |written|), written), r);
  }

  /** The last byte of a key is 255. */
  predicate Wraps(key: Bytes) {
    key != [] && key[|key| - 1] == 255
  }

  lemma QueryNotEmpty(begin: Bytes, q: Fields)
    requires q != []
    ensures QueryKey(begin, q) != []
  {
  }

  lemma UpperBoundRows<F(!new)>(enc: F -> Bytes, less: (F, F) -> bool, begin: Bytes, rows: set<seq<F>>, q: seq<F>, r: seq<F>)
    requires r in rows && forall s {:trigger Matches(enc, less, s, r, q)} :: s in rows ==> Matches(enc, less, s, r, q)
    requires q != [] && !Wraps(QueryKey(begin, Written(enc, q)))
    ensures QueryKey(begin, Written(enc, q)) != []
    ensures Finds(begin, WrittenRows(enc, rows), Bumped(QueryKey(begin, Written(enc, q))), Written(enc, r)) <==>
            Least(less, rows, s => RowLess(less, q, Lead(s, |q|)), r)
  {
    var written := Written(enc, q);
    QueryNotEmpty(begin, written);
    AllFit(enc, less, rows, q, r);
    UpperBoundFinds(begin, WrittenRows(enc, rows), written, Written(enc, r));
    forall s | s in rows
      ensures TupleLess(written, Lead(Written(enc, s), |q|)) <==> RowLess(less, q, Lead(s, |q|))
      ensures TupleLess(Written(enc, s), Written(enc, r)) <==> RowLess(less, s, r)
    {
      assert Matches(enc, less, s, r, q);
      MatchesFits(enc, less, s, r, q);
    }
    LeastWritten(enc, less, rows, s => RowLess(less, q, Lead(s, |q|)), t => TupleLess(written, Lead(t, |written|)), r);
  }

  // ------------------------------------------------------------------
  // Typed fields
  // ------------------------------------------------------------------

  datatype Field = Number(width: nat, n: nat) | Double(v: Word) | Quad(q: Float128)

  predicate InRange(f: Field) {
    f.Number? ==> f.n < Pow(256, f.width)
  }

  predicate SameType(f: Field, g: Field) {
    match f
    case Number(w, _) => g.Number? && g.width == w
    case Double(_) => g.Double?
    case Quad(_) => g.Quad?
  }

  /** The order of the numbers; floats in sign-magnitude order, which is numeric order but for NaNs and the two zeros. */
  predicate FieldLess(f: Field, g: Field) {
    match f
    case Number(_, m) => g.Number? && m < g.n
    case Double(v) => g.Double? && Signed64(v) < Signed64(g.v)
    case Quad(v) => g.Quad? && Signed128(v) < Signed128(g.q)
  }

  function FieldBytes(f: Field): Bytes {
    match f
    case Number(w, n) => BigEndian(w, n)
    case Double(v) => Encode64(v)
    case Quad(v) => Encode128(v)
  }

  lemma NumbersOrdered(w: nat, m: nat, n: nat)
    requires m < Pow(256, w) && n < Pow(256, w)
    ensures Ordered(FieldBytes, FieldLess, Number(w, m), Number(w, n))
  {
    BigEndianOrder(w, m, n);
    BigEndianOrder(w, n, m);
  }

  lemma DoublesOrdered(v: Word, w: Word)
    ensures Ordered(FieldBytes, FieldLess, Double(v), Double(w))
  {
    Order64(v, w);
    Order64(w, v);
    RoundTrip64(v);
    RoundTrip64(w);
  }

  lemma QuadsOrdered(v: Float128, w: Float128)
    ensures Ordered(FieldBytes, FieldLess, Quad(v), Quad(w))
  {
    Order128(v, w);
    Order128(w, v);
    RoundTrip128(v);
    RoundTrip128(w);
  }

  /** The bytes of a field are ordered as its values are. */
  lemma FieldsOrdered(f: Field, g: Field)
    requires SameType(f, g) && InRange(f) && InRange(g)
    ensures Ordered(FieldBytes, FieldLess, f, g)
  {
    match f
    case Number(w, m) => NumbersOrdered(w, m, g.n);
    case Double(v) => DoublesOrdered(v, g.v);
    case Quad(v) => QuadsOrdered(v, g.q);
  }

  predicate SameTypes(fs: seq<Field>, gs: seq<Field>) {
    |fs| == |gs| && forall i :: 0 <= i < |fs| ==> SameType(fs[i], gs[i]) && InRange(fs[i]) && InRange(gs[i])
  }

  lemma TypedRows(fs: seq<Field>, gs: seq<Field>)
    requires SameTypes(fs, gs)
    ensures RowsOrdered(FieldBytes, FieldLess, fs, gs)
  {
    forall i | 0 <= i < |fs| ensures Ordered(FieldBytes, FieldLess, fs[i], gs[i]) {
      FieldsOrdered(fs[i], gs[i]);
    }
  }

  /** Row `s` has the types of row `r`, whose leading fields have the types of the query. */
  predicate SameColumns(s: seq<Field>, r: seq<Field>, q: seq<Field>) {
    SameTypes(s, r) && |q| <= |s| && SameTypes(Lead(s, |q|), q)
  }

  /** Rows are stored in the order of their fields. */
  lemma TypedOrder(begin: Bytes, fs: seq<Field>, gs: seq<Field>)
    requires SameTypes(fs, gs)
    ensures Less(StoredKey(begin, Written(FieldBytes, fs)), StoredKey(begin, Written(FieldBytes, gs))) <==> RowLess(FieldLess, fs, gs)
  {
    TypedRows(fs, gs);
    WrittenOrder(FieldBytes, FieldLess, fs, gs);
    StoredOrder(begin, Written(FieldBytes, fs), Written(FieldBytes, gs));
  }

  lemma AllMatch(rows: set<seq<Field>>, q: seq<Field>, r: seq<Field>)
    requires forall s {:trigger SameColumns(s, r, q)} :: s in rows ==> SameColumns(s, r, q)
    ensures forall s {:trigger Matches(FieldBytes, FieldLess, s, r, q)} :: s in rows ==> Matches(FieldBytes, FieldLess, s, r, q)
  {
    forall s | s in rows ensures Matches(FieldBytes, FieldLess, s, r, q) {
      assert SameColumns(s, r, q);
      TypedRows(s, r);
      TypedRows(Lead(s, |q|), q);
    }
  }

  /** LowerBound finds the least row among those whose leading fields are at least the query. */
  lemma TypedLowerBound(begin: Bytes, rows: set<seq<Field>>, q: seq<Field>, r: seq<Field>)
    requires r in rows && forall s {:trigger SameColumns(s, r, q)} :: s in rows ==> SameColumns(s, r, q)
    ensures Finds(begin, WrittenRows(FieldBytes, rows), QueryKey(begin, Written(FieldBytes, q)), Written(FieldBytes, r)) <==>
            Least(FieldLess, rows, s => !RowLess(FieldLess, Lead(s, |q|), q), r)
  {
    AllMatch(rows, q, r);
    LowerBoundRows(FieldBytes, FieldLess, begin, rows, q, r);
  }

  /** UpperBound finds the least row among those whose leading fields are greater than the query, as long as the last byte
      of the query is not 255. */
  lemma TypedUpperBound(begin: Bytes, rows: set<seq<Field>>, q: seq<Field>, r: seq<Field>)
    requires r in rows && forall s {:trigger SameColumns(s, r, q)} :: s in rows ==> SameColumns(s, r, q)
    requires q != [] && !Wraps(QueryKey(begin, Written(FieldBytes, q)))
    ensures QueryKey(begin, Written(FieldBytes, q)) != []
    ensures Finds(begin, WrittenRows(FieldBytes, rows), Bumped(QueryKey(begin, Written(FieldBytes, q))), Written(FieldBytes, r)) <==>
            Least(FieldLess, rows, s => RowLess(FieldLess, q, Lead(s, |q|)), r)
  {
    AllMatch(rows, q, r);
    UpperBoundRows(FieldBytes, FieldLess, begin, rows, q, r);
  }

  /** When the last field of a query is a number, its last byte is 255 exactly if the number is 255 modulo 256. */
  lemma NumberWraps(begin: Bytes, q: seq<Field>, w: nat, n: nat)
    requires w > 0
    ensures Wraps(QueryKey(begin, Written(FieldBytes, q + [Number(w, n)]))) <==> n % 256 == 255
  {
    var fs, f := Written(FieldBytes, q), BigEndian(w, n);
    assert Written(FieldBytes, q + [Number(w, n)]) == fs + [f];
    EncodedSnoc(fs, f);
    var key := QueryKey(begin, fs + [f]);
    assert key == begin + Encoded(fs) + SEPARATOR + f;
    assert f[w - 1] == n % 256;
    assert key[|key| - 1] == f[w - 1];
  }
}
