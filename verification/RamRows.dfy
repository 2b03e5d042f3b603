/** Memory billing of contract tables: rows of a primary or a secondary index are stored, updated and
    removed, and the memory charged to every account for rows is exactly the size of the rows it pays for. */
module RamRows {
  import opened MapSum

  const TWO64: int := 0x1_0000_0000_0000_0000
  const TWO32: int := 0x1_0000_0000

  type Account = nat
  type TableId = nat
  type RowId = nat

  /** Sizes billed for the fixed part of an object, rounded up to multiples of 16. */
  const TABLE_SIZE: nat := 112
  const KEY_VALUE_SIZE: nat := 112
  const IDX64_SIZE: nat := 128

  datatype Kind = KeyValue | Idx64

  /** A row of a table: `size` is the length of its value, for a row of the primary index. */
  datatype Row = Row(kind: Kind, tid: TableId, payer: Account, size: nat)

  datatype Table = Table(code: Account, name: nat, payer: Account, count: nat)

  function StoredSize(k: Kind, size: nat): nat {
    match k
    case KeyValue => size + KEY_VALUE_SIZE
    case Idx64 => IDX64_SIZE
  }

  function Billable(r: Row): nat {
    StoredSize(r.kind, r.size)
  }

  /** Counting up and down in unsigned 32-bit arithmetic. */
  function Up(count: nat): nat {
    if count + 1 == TWO32 then 0 else count + 1
  }

  function Down(count: nat): nat {
    if count == 0 then TWO32 - 1 else count - 1
  }

  /** The tables with one more row counted in table `t`. */
  function Counted(tables: map<TableId, Table>, t: TableId): map<TableId, Table>
    requires t in tables
  {
    tables[t := tables[t].(count := Up(tables[t].count))]
  }

  // ------------------------------------------------------------------
  // Rows and their sums
  // ------------------------------------------------------------------

  /** What each row adds to the bill of account `a`. */
  ghost function Bills(rows: map<RowId, Row>, a: Account): map<RowId, int> {
    map i | i in rows :: if rows[i].payer == a then Billable(rows[i]) else 0
  }

  /** The billable size of the rows `a` pays for. */
  ghost function RowsOf(rows: map<RowId, Row>, a: Account): int {
    Sum(Bills(rows, a))
  }

  function Share(r: Row, a: Account): nat {
    if r.payer == a then Billable(r) else 0
  }

  lemma RowsPut(rows: map<RowId, Row>, i: RowId, r: Row, a: Account)
    ensures RowsOf(rows[i := r], a) == RowsOf(rows, a) - (if i in rows then Share(rows[i], a) else 0) + Share(r, a)
    ensures i in rows ==> Share(rows[i], a) <= RowsOf(rows, a)
  {
    assert Bills(rows[i := r], a) == Bills(rows, a)[i := Share(r, a)];
    SumUpdate(Bills(rows, a), i, Share(r, a));
    SumBound(Bills(rows, a), i);
  }

  lemma RowsDrop(rows: map<RowId, Row>, i: RowId, a: Account)
    requires i in rows
    ensures RowsOf(rows - {i}, a) == RowsOf(rows, a) - Share(rows[i], a)
    ensures Share(rows[i], a) <= RowsOf(rows, a)
  {
    assert Bills(rows - {i}, a) == Bills(rows, a) - {i};
    SumDrop(Bills(rows, a), i);
    SumBound(Bills(rows, a), i);
  }

  /** The rows of a table. */
  function Members(rows: map<RowId, Row>, t: TableId): set<RowId> {
    set i | i in rows && rows[i].tid == t
  }

  lemma MembersPut(rows: map<RowId, Row>, i: RowId, r: Row, t: TableId)
    ensures i !in rows ==> |Members(rows[i := r], t)| == |Members(rows, t)| + (if r.tid == t then 1 else 0)
    ensures i in rows && rows[i].tid == r.tid ==> Members(rows[i := r], t) == Members(rows, t)
    ensures forall j :: j in Members(rows[i := r], t) ==> (j == i && r.tid == t) || j in Members(rows, t)
  {
    if i !in rows {
      assert Members(rows[i := r], t) == Members(rows, t) + (if r.tid == t then {i} else {});
    }
  }

  lemma MembersDrop(rows: map<RowId, Row>, i: RowId, t: TableId)
    requires i in rows
    ensures Members(rows - {i}, t) == Members(rows, t) - {i}
    ensures |Members(rows - {i}, t)| == |Members(rows, t)| - (if rows[i].tid == t then 1 else 0)
  {
    assert Members(rows - {i}, t) == Members(rows, t) - {i};
    if rows[i].tid == t { assert i in Members(rows, t); } else { assert Members(rows, t) - {i} == Members(rows, t); }
  }

  /** A table that has been used by one kind of index only: it exists exactly while it has rows, its count
      is their number, and the copy that kind of index keeps of it is up to date. */
  ghost predicate TableOk(t: TableId, k: Kind, rows: map<RowId, Row>, tables: map<TableId, Table>,
                          cache: map<(Kind, TableId), Table>)
  {
    && (forall i :: i in Members(rows, t) ==> rows[i].kind == k)
    && (t in tables <==> Members(rows, t) != {})
    && (t in tables ==> tables[t].count == |Members(rows, t)| < TWO32)
    && (t in tables && (k, t) in cache ==> cache[(k, t)] == tables[t])
  }

  /** A new row in a table of its kind, whose count and copy follow. */
  lemma TableOkStore(t: TableId, k: Kind, rows: map<RowId, Row>, tables: map<TableId, Table>,
                     cache: map<(Kind, TableId), Table>,
                     i: RowId, r: Row, tables': map<TableId, Table>, cache': map<(Kind, TableId), Table>)
    requires i !in rows && r.tid == t && r.kind == k && |Members(rows, t)| + 1 < TWO32
    requires forall j :: j in Members(rows, t) ==> rows[j].kind == k
    requires t in tables && tables[t].count == |Members(rows, t)|
    requires t in tables' && tables'[t].count == tables[t].count + 1
    requires (k, t) in cache' ==> cache'[(k, t)] == tables'[t]
    ensures TableOk(t, k, rows[i := r], tables', cache')
  {
    MembersPut(rows, i, r, t);
    assert i in Members(rows[i := r], t);
  }

  /** A table that an operation on a row of another table does not concern. */
  lemma TableOkOther(u: TableId, l: Kind, t: TableId, rows: map<RowId, Row>, tables: map<TableId, Table>,
                     cache: map<(Kind, TableId), Table>,
                     rows': map<RowId, Row>, tables': map<TableId, Table>, cache': map<(Kind, TableId), Table>)
    requires TableOk(u, l, rows, tables, cache) && u != t
    requires Members(rows', u) == Members(rows, u) && forall i :: i in Members(rows, u) ==> rows'[i] == rows[i]
    requires (u in tables' <==> u in tables) && (u in tables ==> tables'[u] == tables[u])
    requires (l, u) in cache' ==> (l, u) in cache && cache'[(l, u)] == cache[(l, u)]
    ensures TableOk(u, l, rows', tables', cache')
  {
  }

  lemma FewMembers(rows: map<RowId, Row>, t: TableId)
    ensures |Members(rows, t)| <= |rows|
  {
    assert Members(rows, t) <= rows.Keys;
    SubsetSize(Members(rows, t), rows.Keys);
  }

  lemma {:induction false} SubsetSize(a: set<RowId>, b: set<RowId>)
    requires a <= b
    ensures |a| <= |b|
  {
    if a != {} {
      var x :| x in a;
      SubsetSize(a - {x}, b - {x});
    }
  }

  /** After storing row `i` in table `t`, every table used by one kind of index is still right. */
  lemma StoredTablesOk(t: TableId, k: Kind, i: RowId, r: Row,
                       rows: map<RowId, Row>, tables: map<TableId, Table>, cache: map<(Kind, TableId), Table>,
                       rows': map<RowId, Row>, tables': map<TableId, Table>, cache': map<(Kind, TableId), Table>,
                       kinds: map<TableId, Kind>, mixed: set<TableId>, kinds': map<TableId, Kind>, mixed': set<TableId>)
    requires forall j :: j in rows ==> rows[j].tid in kinds
    requires AllTablesOk(rows, tables, cache, kinds, mixed)
    requires i !in rows && r.tid == t && r.kind == k && rows' == rows[i := r] && |Members(rows, t)| + 1 < TWO32
    requires t in tables && (t !in kinds ==> tables[t].count == 0)
    requires tables' == Counted(tables, t)
    requires cache' == cache[(k, t) := tables'[t]] || (cache' == cache && (k, t) !in cache')
    requires kinds' == if t in kinds then kinds else kinds[t := k]
    requires mixed' == MixedBy(kinds, mixed, t, k)
    ensures AllTablesOk(rows', tables', cache', kinds', mixed')
  {
    forall u | u in kinds' && u !in mixed' ensures TableOk(u, kinds'[u], rows', tables', cache') {
      MembersPut(rows, i, r, u);
      if u == t {
        if t in kinds { assert TableOk(t, kinds[t], rows, tables, cache); } else { assert Members(rows, t) == {}; }
        TableOkStore(t, k, rows, tables, cache, i, r, tables', cache');
      } else {
        assert TableOk(u, kinds[u], rows, tables, cache);
        assert Members(rows', u) == Members(rows, u);
        TableOkOther(u, kinds[u], t, rows, tables, cache, rows', tables', cache');
      }
    }
  }

  /** Updating a row concerns no table. */
  lemma UpdatedTablesOk(i: RowId, r: Row, rows: map<RowId, Row>, tables: map<TableId, Table>,
                        cache: map<(Kind, TableId), Table>,
                        kinds: map<TableId, Kind>, mixed: set<TableId>)
    requires i in rows && r.tid == rows[i].tid && r.kind == rows[i].kind
    requires AllTablesOk(rows, tables, cache, kinds, mixed)
    ensures AllTablesOk(rows[i := r], tables, cache, kinds, mixed)
  {
    forall u | u in kinds && u !in mixed ensures TableOk(u, kinds[u], rows[i := r], tables, cache) {
      assert TableOk(u, kinds[u], rows, tables, cache);
      MembersPut(rows, i, r, u);
    }
  }

  /** Table `t` exists exactly while it has rows, and counts them. */
  ghost predicate Counts(rows: map<RowId, Row>, tables: map<TableId, Table>, t: TableId) {
    (t in tables <==> Members(rows, t) != {}) && (t in tables ==> tables[t].count == |Members(rows, t)|)
  }

  /** Removing a row leaves its table right exactly when the copy of the table that the row's index remembers
      has the right count. */
  lemma RemovalCounts(i: RowId, rows: map<RowId, Row>, tables: map<TableId, Table>, copy: Table,
                      tables': map<TableId, Table>)
    requires i in rows && Counts(rows, tables, rows[i].tid) && |Members(rows, rows[i].tid)| < TWO32 && copy.count < TWO32
    requires var t, table := rows[i].tid, copy.(count := Down(copy.count));
             tables' == if table.count == 0 then tables - {t} else tables[t := table]
    ensures rows[i].tid in tables
    ensures Counts(rows - {i}, tables', rows[i].tid) <==> copy.count == tables[rows[i].tid].count
  {
    MembersDrop(rows, i, rows[i].tid);
    assert i in Members(rows, rows[i].tid);
  }

  /** After removing row `i`, every table used by one kind of index is still right: dropped with its last row. */
  lemma RemovedTablesOk(i: RowId, rows: map<RowId, Row>, tables: map<TableId, Table>, cache: map<(Kind, TableId), Table>,
                        tables': map<TableId, Table>, cache': map<(Kind, TableId), Table>,
                        kinds: map<TableId, Kind>, mixed: set<TableId>)
    requires i in rows && rows[i].tid in kinds && (rows[i].kind, rows[i].tid) in cache
    requires AllTablesOk(rows, tables, cache, kinds, mixed)
    requires var key := (rows[i].kind, rows[i].tid);
             var table := cache[key].(count := Down(cache[key].count));
             && cache' == cache[key := table]
             && tables' == if table.count == 0 then tables[key.1 := table] - {key.1} else tables[key.1 := table]
    ensures AllTablesOk(rows - {i}, tables', cache', kinds, mixed)
  {
    var t := rows[i].tid;
    forall u | u in kinds && u !in mixed ensures TableOk(u, kinds[u], rows - {i}, tables', cache') {
      assert TableOk(u, kinds[u], rows, tables, cache);
      MembersDrop(rows, i, u);
      if u == t {
        assert i in Members(rows, t);
      } else {
        assert Members(rows - {i}, u) == Members(rows, u);
        TableOkOther(u, kinds[u], t, rows, tables, cache, rows - {i}, tables', cache');
      }
    }
  }

  /** Every charge of an account: what it had before, tables it created, and the rows it pays for. */
  ghost predicate Balanced(usage: map<Account, nat>, other: map<Account, int>, rows: map<RowId, Row>) {
    && other.Keys == usage.Keys
    && (forall i :: i in rows ==> rows[i].payer in usage)
    && (forall a {:trigger BalancedAt(usage, other, rows, a)} :: a in usage ==> BalancedAt(usage, other, rows, a))
  }

  ghost predicate BalancedAt(usage: map<Account, nat>, other: map<Account, int>, rows: map<RowId, Row>, a: Account)
    requires a in usage && a in other
  {
    usage[a] < TWO64 && 0 <= other[a] && usage[a] == other[a] + RowsOf(rows, a)
  }

  /** Billing a new row to its payer. */
  lemma BalancedStore(usage: map<Account, nat>, other: map<Account, int>, rows: map<RowId, Row>, i: RowId, r: Row)
    requires Balanced(usage, other, rows) && i !in rows && r.payer in usage && usage[r.payer] + Billable(r) < TWO64
    ensures Balanced(usage[r.payer := usage[r.payer] + Billable(r)], other, rows[i := r])
  {
    var usage', rows' := usage[r.payer := usage[r.payer] + Billable(r)], rows[i := r];
    forall a | a in usage' ensures BalancedAt(usage', other, rows', a) {
      assert BalancedAt(usage, other, rows, a);
      RowsPut(rows, i, r, a);
    }
  }

  /** Billing something else. */
  lemma BalancedOther(usage: map<Account, nat>, other: map<Account, int>, rows: map<RowId, Row>, a: Account, delta: nat)
    requires Balanced(usage, other, rows) && a in usage && usage[a] + delta < TWO64
    ensures Balanced(usage[a := usage[a] + delta], other[a := other[a] + delta], rows)
  {
    var usage', other' := usage[a := usage[a] + delta], other[a := other[a] + delta];
    forall b | b in usage' ensures BalancedAt(usage', other', rows, b) {
      assert BalancedAt(usage, other, rows, b);
    }
  }

  /** Replacing a row: its old payer is paid back and its new payer billed. */
  lemma BalancedUpdate(usage: map<Account, nat>, other: map<Account, int>, rows: map<RowId, Row>, i: RowId, r: Row)
    requires Balanced(usage, other, rows) && i in rows && r.payer in usage
    ensures usage[rows[i].payer] >= Billable(rows[i])
    ensures var refunded := usage[rows[i].payer := usage[rows[i].payer] - Billable(rows[i])];
            refunded[r.payer] + Billable(r) < TWO64 ==>
              Balanced(refunded[r.payer := refunded[r.payer] + Billable(r)], other, rows[i := r])
  {
    var was := rows[i];
    assert BalancedAt(usage, other, rows, was.payer);
    RowsPut(rows, i, r, was.payer);
    var refunded := usage[was.payer := usage[was.payer] - Billable(was)];
    if refunded[r.payer] + Billable(r) < TWO64 {
      var usage', rows' := refunded[r.payer := refunded[r.payer] + Billable(r)], rows[i := r];
      forall a | a in usage' ensures BalancedAt(usage', other, rows', a) {
        assert BalancedAt(usage, other, rows, a);
        RowsPut(rows, i, r, a);
      }
    }
  }

  /** Removing a row pays its payer back; the usage always covers the row. */
  lemma BalancedRemove(usage: map<Account, nat>, other: map<Account, int>, rows: map<RowId, Row>, i: RowId)
    requires Balanced(usage, other, rows) && i in rows
    ensures usage[rows[i].payer] >= Billable(rows[i])
    ensures Balanced(usage[rows[i].payer := usage[rows[i].payer] - Billable(rows[i])], other, rows - {i})
  {
    var p := rows[i].payer;
    assert BalancedAt(usage, other, rows, p);
    RowsDrop(rows, i, p);
    var usage', rows' := usage[p := usage[p] - Billable(rows[i])], rows - {i};
    forall a | a in usage' ensures BalancedAt(usage', other, rows', a) {
      assert BalancedAt(usage, other, rows, a);
      RowsDrop(rows, i, a);
    }
  }

  /** Unsigned 64-bit addition of a signed 64-bit number. */
  function WrappingAdd(u: nat, delta: int): nat {
    (u + delta % TWO64) % TWO64
  }

  lemma WrappingAddExact(u: nat, delta: int)
    requires 0 <= u + delta < TWO64 && -TWO64 < delta < TWO64
    ensures WrappingAdd(u, delta) == u + delta
  {
    if delta >= 0 {
      assert delta % TWO64 == delta;
    } else {
      assert delta % TWO64 == delta + TWO64;
    }
  }

  /** The tables that an index of kind `k` remembers. */
  function CachedBy(cache: map<(Kind, TableId), Table>, k: Kind): set<(Kind, TableId)> {
    set e | e in cache.Keys && e.0 == k
  }

  /** The cache of an action after kind `k` looked up table `t`: at most eight tables are remembered, but a
      remembered one is always brought up to date. */
  function Cached(cache: map<(Kind, TableId), Table>, k: Kind, t: TableId, table: Table): map<(Kind, TableId), Table> {
    if (k, t) in cache || |CachedBy(cache, k)| < 8 then cache[(k, t) := table] else cache
  }

  /** The receiver already has a table of that name. */
  predicate HasTable(tables: map<TableId, Table>, receiver: Account, name: nat) {
    exists t :: t in tables && tables[t].code == receiver && tables[t].name == name
  }

  /** Every row belongs to a table that has been used, and the next row and table numbers are new. */
  ghost predicate Filed(rows: map<RowId, Row>, kinds: map<TableId, Kind>, nextRow: RowId, nextTable: TableId) {
    && (forall i :: i in rows ==> i < nextRow && rows[i].tid in kinds)
    && (forall t :: t in kinds ==> t < nextTable)
  }

  ghost predicate AllTablesOk(rows: map<RowId, Row>, tables: map<TableId, Table>, cache: map<(Kind, TableId), Table>,
                              kinds: map<TableId, Kind>, mixed: set<TableId>)
  {
    forall t {:trigger TableOk(t, kinds[t], rows, tables, cache)} ::
      t in kinds && t !in mixed ==> TableOk(t, kinds[t], rows, tables, cache)
  }

  /** A table that was never used before may be added. */
  lemma NewTableOk(rows: map<RowId, Row>, tables: map<TableId, Table>, cache: map<(Kind, TableId), Table>,
                   kinds: map<TableId, Kind>, mixed: set<TableId>, t: TableId, table: Table)
    requires AllTablesOk(rows, tables, cache, kinds, mixed) && t !in kinds
    ensures AllTablesOk(rows, tables[t := table], cache, kinds, mixed)
  {
    forall u | u in kinds && u !in mixed ensures TableOk(u, kinds[u], rows, tables[t := table], cache) {
      assert TableOk(u, kinds[u], rows, tables, cache);
    }
  }

  /** The tables used by both kinds of index, once kind `k` has used table `t`. */
  ghost function MixedBy(kinds: map<TableId, Kind>, mixed: set<TableId>, t: TableId, k: Kind): set<TableId> {
    if t in kinds && kinds[t] != k then mixed + {t} else mixed
  }

  /** A row with a new value and, unless `payer` is 0, a new payer. */
  function Updated(r: Row, payer: Account, size: nat): Row {
    r.(payer := if payer == 0 then r.payer else payer, size := size)
  }

  /** Charging for `r'` instead of `r` needs the payer's authority and room in the payer's account, unless the
      charge to the same payer does not grow. */
  ghost predicate CanRebill(usage: map<Account, nat>, r: Row, r': Row, authorized: bool)
    requires r.payer in usage && r'.payer in usage
  {
    if r.payer != r'.payer then authorized && usage[r'.payer] + Billable(r') < TWO64
    else Billable(r') > Billable(r) ==> authorized && usage[r.payer] - Billable(r) + Billable(r') < TWO64
  }

  lemma PutTwice(usage: map<Account, nat>, a: Account, first: nat, second: nat)
    ensures usage[a := first][a := second] == usage[a := second]
  {
  }

  // ------------------------------------------------------------------
  // The context of an action
  // ------------------------------------------------------------------

  class ApplyContext {
    var receiver: Account
    var usage: map<Account, nat>
    var rows: map<RowId, Row>
    var tables: map<TableId, Table>
    var nextRow: RowId
    var nextTable: TableId
    // the copy of each table that each kind of index keeps while the action runs
    var cache: map<(Kind, TableId), Table>
    // charges that are not for rows
    ghost var other: map<Account, int>
    // which kind of index used a table first, and the tables used by both kinds
    ghost var kinds: map<TableId, Kind>
    ghost var mixed: set<TableId>

    ghost predicate Valid()
      reads this
    {
      Balanced(usage, other, rows) && TablesOk()
    }

    ghost predicate TablesOk()
      reads this
    {
      Filed(rows, kinds, nextRow, nextTable) && tables.Keys <= kinds.Keys && AllTablesOk(rows, tables, cache, kinds, mixed)
    }

    /** The same, but for a table that has just been created and has no row yet. */
    ghost predicate TablesOkBut(x: TableId)
      reads this
    {
      && Filed(rows, kinds, nextRow, nextTable) && tables.Keys <= kinds.Keys + {x} && AllTablesOk(rows, tables, cache, kinds, mixed)
      && x in tables && x < nextTable && (x !in kinds ==> tables[x].count == 0)
    }

    constructor (receiver: Account, usage: map<Account, nat>)
      requires forall a :: a in usage ==> usage[a] < TWO64
      ensures Valid() && this.receiver == receiver && this.usage == usage && mixed == {}
      ensures rows == map[] && tables == map[] && cache == map[]
    {
      this.receiver, this.usage, rows, tables, cache := receiver, usage, map[], map[], map[];
      nextRow, nextTable := 0, 0;
      other := map a | a in usage :: usage[a];
      kinds, mixed := map[], {};
      new;
      forall a | a in usage ensures BalancedAt(usage, other, rows, a) { assert Bills(rows, a) == map[]; }
    }

    /** Starts the next action, with empty caches. */
    method Begin(receiver: Account)
      requires Valid()
      modifies this`receiver, this`cache
      ensures Valid() && this.receiver == receiver && cache == map[]
    {
      this.receiver := receiver;
      cache := map[];
      forall t | t in kinds && t !in mixed ensures TableOk(t, kinds[t], rows, tables, cache) {
        assert TableOk(t, kinds[t], rows, tables, old(cache));
      }
    }

    /** Remembers the current copy of a table, up to eight tables for each kind of index. */
    method CacheTable(k: Kind, t: TableId)
      requires t in tables
      modifies this`cache
      ensures cache == Cached(old(cache), k, t, tables[t])
      ensures (k, t) in cache ==> cache[(k, t)] == tables[t]
      ensures (k, t) in cache <==> (k, t) in old(cache) || |set e | e in old(cache) && e.0 == k| < 8
      ensures forall e :: e != (k, t) ==> (e in cache <==> e in old(cache)) && (e in cache ==> cache[e] == old(cache)[e])
    {
      if (k, t) in cache {
        cache := cache[(k, t) := tables[t]];
      } else if |CachedBy(cache, k)| < 8 {
        cache := cache[(k, t) := tables[t]];
      }
    }

    /** Adds to the memory usage of an account, refusing to leave the range of 64-bit numbers. */
    method AddPendingRamUsage(a: Account, delta: int) returns (ok: bool)
      requires a in usage && usage[a] < TWO64 && -TWO64 < delta < TWO64
      modifies this`usage
      ensures ok <==> 0 <= old(usage[a]) + delta < TWO64
      ensures usage == if ok then old(usage)[a := old(usage[a]) + delta] else old(usage)
    {
      if delta == 0 {
        assert usage == usage[a := usage[a]];
        return true;
      }
      if !(delta <= 0 || TWO64 - 1 - usage[a] >= delta) { return false; }
      if !(delta >= 0 || usage[a] >= -delta) { return false; }
      WrappingAddExact(usage[a], delta);
      usage := usage[a := WrappingAdd(usage[a], delta)];
      return true;
    }

    /** Only an authorized account may be charged more. */
    method UpdateDbUsage(a: Account, delta: int, authorized: bool) returns (ok: bool)
      requires a in usage && usage[a] < TWO64 && -TWO64 < delta < TWO64
      modifies this`usage
      ensures ok <==> (delta > 0 ==> authorized) && 0 <= old(usage[a]) + delta < TWO64
      ensures usage == if ok then old(usage)[a := old(usage[a]) + delta] else old(usage)
    {
      if delta > 0 && !authorized { return false; }
      ok := AddPendingRamUsage(a, delta);
    }

    /** The table of the receiver with the given name, created at the expense of `payer` if there is none. */
    method FindOrCreateTable(name: nat, payer: Account, authorized: bool) returns (ok: bool, t: TableId)
      requires Valid() && payer in usage
      modifies this`usage, this`tables, this`nextTable, this`other
      ensures var known := exists u :: u in old(tables) && old(tables)[u].code == receiver && old(tables)[u].name == name;
              && (ok <==> known || (authorized && old(usage)[payer] + 112 < TWO64))
              && (ok ==> (t in old(tables) <==> known) && usage == old(usage)[payer := old(usage)[payer] + if known then 0 else 112])
      ensures ok ==> Balanced(usage, other, rows) && TablesOkBut(t)
      ensures ok ==> tables[t].code == receiver && tables[t].name == name && usage.Keys == old(usage).Keys
      ensures ok ==> if t in old(tables) then tables == old(tables)
                     else tables == old(tables)[t := Table(receiver, name, payer, 0)] && t !in kinds
    {
      if u :| u in tables && tables[u].code == receiver && tables[u].name == name {
        assert usage == usage[payer := usage[payer]];
        return true, u;
      }
      ok, t := CreateTable(name, payer, authorized);
    }

    method CreateTable(name: nat, payer: Account, authorized: bool) returns (ok: bool, t: TableId)
      requires Valid() && payer in usage
      modifies this`usage, this`tables, this`nextTable, this`other
      ensures ok <==> authorized && old(usage)[payer] + TABLE_SIZE < TWO64
      ensures ok ==> Balanced(usage, other, rows) && TablesOkBut(t) && t !in kinds && t !in old(tables)
      ensures ok ==> usage == old(usage)[payer := old(usage)[payer] + TABLE_SIZE]
      ensures ok ==> tables == old(tables)[t := Table(receiver, name, payer, 0)]
    {
      t := nextTable;
      assert BalancedAt(usage, other, rows, payer);
      ok := UpdateDbUsage(payer, TABLE_SIZE, authorized);
      if !ok { return; }
      BalancedOther(old(usage), other, rows, payer, TABLE_SIZE);
      other := other[payer := other[payer] + TABLE_SIZE];
      tables := tables[t := Table(receiver, name, payer, 0)];
      nextTable := nextTable + 1;
      NewTableOk(rows, old(tables), cache, kinds, mixed, t, tables[t]);
    }

    /** Notes the kind of the first row of a table, and tables that hold both kinds. */
    ghost method Classify(k: Kind, t: TableId)
      modifies this`kinds, this`mixed
      ensures kinds == (if t in old(kinds) then old(kinds) else old(kinds)[t := k]) && mixed == MixedBy(old(kinds), old(mixed), t, k)
    {
      if t !in kinds {
        kinds := kinds[t := k];
      } else if kinds[t] != k {
        mixed := mixed + {t};
      }
    }

    /** Adds a row to a table and bills its payer. */
    method StoreRow(k: Kind, t: TableId, payer: Account, size: nat, authorized: bool) returns (ok: bool, i: RowId)
      requires Balanced(usage, other, rows) && TablesOkBut(t) && payer in usage && size < TWO32
      requires |Members(rows, t)| + 1 < TWO32
      modifies this`usage, this`rows, this`tables, this`nextRow, this`cache, this`kinds, this`mixed
      ensures ok <==> authorized && old(usage)[payer] + Billable(Row(k, t, payer, size)) < TWO64
      ensures ok ==> Valid()
      ensures t in tables
      ensures ok ==> cache == Cached(old(cache), k, t, tables[t])
      ensures i == old(nextRow) && rows == old(rows)[i := Row(k, t, payer, size)]
      ensures tables == Counted(old(tables), t)
      ensures ok ==> usage == old(usage)[payer := old(usage[payer]) + Billable(Row(k, t, payer, size))]
      ensures ok ==> mixed == MixedBy(old(kinds), old(mixed), t, k)
    {
      ok, i := PutRow(Row(k, t, payer, size), authorized);
      if !ok { return; }
      CacheTable(k, t);
      Classify(k, t);
      StoredTablesOk(t, k, i, rows[i], old(rows), old(tables), old(cache), rows, tables, cache, old(kinds), old(mixed), kinds, mixed);
    }

    /** Inserts a row, counts it in its table and bills its payer. */
    method PutRow(r: Row, authorized: bool) returns (ok: bool, i: RowId)
      requires Balanced(usage, other, rows) && r.payer in usage && Billable(r) < TWO64 && r.tid in tables
      requires forall j :: j in rows ==> j < nextRow
      modifies this`usage, this`rows, this`tables, this`nextRow
      ensures ok <==> authorized && old(usage)[r.payer] + Billable(r) < TWO64
      ensures ok ==> Balanced(usage, other, rows)
      ensures i == old(nextRow) && nextRow == i + 1 && i !in old(rows) && rows == old(rows)[i := r]
      ensures tables == Counted(old(tables), r.tid)
      ensures ok ==> usage == old(usage)[r.payer := old(usage[r.payer]) + Billable(r)]
    {
      i := nextRow;
      assert BalancedAt(usage, other, rows, r.payer);
      rows := rows[i := r];
      nextRow := nextRow + 1;
      tables := tables[r.tid := tables[r.tid].(count := Up(tables[r.tid].count))];
      ok := UpdateDbUsage(r.payer, Billable(r), authorized);
      if !ok { return; }
      BalancedStore(old(usage), other, old(rows), i, r);
    }

    /** Stores a row of the given kind in the receiver's table of the given name. The two kinds check the payer
        at different moments; either way a row without payer is refused. */
    method Store(k: Kind, name: nat, payer: Account, size: nat, authorized: bool) returns (ok: bool, i: RowId)
      requires Valid() && payer in usage && size < TWO32 && |rows| + 1 < TWO32
      modifies this
      ensures var cost := (if HasTable(old(tables), old(receiver), name) then 0 else 112) + if k == KeyValue then size + 112 else 128;
              && (ok <==> payer != 0 && authorized && old(usage)[payer] + cost < TWO64)
              && (ok ==> usage == old(usage)[payer := old(usage)[payer] + cost])
      ensures ok ==> Valid() && i !in old(rows) && i in rows && receiver == old(receiver)
      ensures ok ==> rows == old(rows)[i := Row(k, rows[i].tid, payer, size)]
      ensures ok ==> rows[i].tid in tables && tables[rows[i].tid].code == receiver && tables[rows[i].tid].name == name
      ensures ok ==> mixed == MixedBy(old(kinds), old(mixed), rows[i].tid, k)
      ensures ok ==> (rows[i].tid in old(tables) <==> HasTable(old(tables), old(receiver), name))
      ensures ok ==> tables == Counted(if HasTable(old(tables), old(receiver), name) then old(tables)
                                       else old(tables)[rows[i].tid := Table(receiver, name, payer, 0)], rows[i].tid)
      ensures ok ==> cache == Cached(old(cache), k, rows[i].tid, tables[rows[i].tid])
    {
      i := nextRow;
      if k == Idx64 && payer == 0 { return false, i; }
      var t;
      ok, t := FindOrCreateTable(name, payer, authorized);
      if !ok { return; }
      if payer == 0 { return false, i; }
      ghost var paid := usage[payer];
      ok, i := StoreInTable(k, t, payer, size, authorized);
      if ok { PutTwice(old(usage), payer, paid, usage[payer]); }
    }

    /** Stores a row in a table that exists, and perhaps has just been created. */
    method StoreInTable(k: Kind, t: TableId, payer: Account, size: nat, authorized: bool) returns (ok: bool, i: RowId)
      requires Balanced(usage, other, rows) && TablesOkBut(t) && payer in usage && size < TWO32 && |rows| + 1 < TWO32
      modifies this
      ensures var cost := if k == KeyValue then size + 112 else 128;
              && (ok <==> authorized && old(usage)[payer] + cost < TWO64)
              && (ok ==> usage == old(usage)[payer := old(usage)[payer] + cost])
      ensures ok ==> Valid() && i !in old(rows) && receiver == old(receiver) && rows == old(rows)[i := Row(k, t, payer, size)]
      ensures ok ==> tables == Counted(old(tables), t) && mixed == MixedBy(old(kinds), old(mixed), t, k)
      ensures ok ==> cache == Cached(old(cache), k, t, tables[t])
    {
      FewMembers(rows, t);
      ok, i := StoreRow(k, t, payer, size, authorized);
    }

    /** The table of a row, as the index of that row remembers it, if the receiver may change it. */
    predicate Writable(i: RowId)
      reads this
      requires i in rows
    {
      (rows[i].kind, rows[i].tid) in cache && cache[(rows[i].kind, rows[i].tid)].code == receiver
    }

    /** Changes the value and, unless `payer` is 0, the payer of a row. Only a charge to the payer can fail: the
        refund is always covered. */
    method Update(i: RowId, payer: Account, size: nat, authorized: bool) returns (ok: bool)
      requires Valid() && i in rows && (payer == 0 || payer in usage) && size < TWO32
      modifies this`usage, this`rows
      ensures var r := old(rows[i]);
              var p := if payer == 0 then r.payer else payer;
              var was, now := if r.kind == KeyValue then r.size + 112 else 128, if r.kind == KeyValue then size + 112 else 128;
              && (ok <==> && (r.kind, r.tid) in cache && cache[(r.kind, r.tid)].code == receiver
                          && if p != r.payer then authorized && old(usage)[p] + now < TWO64
                             else now > was ==> authorized && old(usage)[p] - was + now < TWO64)
              && (ok ==> rows == old(rows)[i := Row(r.kind, r.tid, p, size)])
              && (ok && p == r.payer ==> old(usage)[p] >= was && usage == old(usage)[p := old(usage)[p] - was + now])
              && (ok && p != r.payer ==> && old(usage)[r.payer] >= was && usage.Keys == old(usage).Keys
                                         && usage[r.payer] == old(usage)[r.payer] - was && usage[p] == old(usage)[p] + now
                                         && forall a :: a in usage && a != p && a != r.payer ==> usage[a] == old(usage)[a])
      ensures ok ==> Valid()
      ensures !ok ==> rows == old(rows)
    {
      if !Writable(i) { return false; }
      ok := Replace(i, Updated(rows[i], payer, size), authorized);
    }

    /** Puts a row in the place of another one of its table, and charges for the one instead of the other. */
    method Replace(i: RowId, r': Row, authorized: bool) returns (ok: bool)
      requires Valid() && i in rows && r'.payer in usage && r'.size < TWO32
      requires r'.kind == rows[i].kind && r'.tid == rows[i].tid
      modifies this`usage, this`rows
      ensures ok <==> CanRebill(old(usage), old(rows[i]), r', authorized)
      ensures Billable(old(rows[i])) <= old(usage)[old(rows[i]).payer]
      ensures ok ==> var r := old(rows[i]);
                     var refunded := old(usage)[r.payer := old(usage)[r.payer] - Billable(r)];
                     Valid() && rows == old(rows)[i := r'] && usage == refunded[r'.payer := refunded[r'.payer] + Billable(r')]
      ensures !ok ==> rows == old(rows)
    {
      var r := rows[i];
      BalancedUpdate(usage, other, rows, i, r');
      assert BalancedAt(usage, other, rows, r.payer) && BalancedAt(usage, other, rows, r'.payer);
      ok := Rebill(r, r', authorized);
      if !ok { return; }
      rows := rows[i := r'];
      UpdatedTablesOk(i, r', old(rows), tables, cache, kinds, mixed);
    }

    /** Moves the charge for a row from its old payer and size to the new ones. */
    method Rebill(r: Row, r': Row, authorized: bool) returns (ok: bool)
      requires r.payer in usage && r'.payer in usage && Billable(r) <= usage[r.payer] && Billable(r') < TWO64
      requires usage[r.payer] < TWO64 && usage[r'.payer] < TWO64
      modifies this`usage
      ensures ok <==> CanRebill(old(usage), r, r', authorized)
      ensures ok ==> var refunded := old(usage)[r.payer := old(usage)[r.payer] - Billable(r)];
                     refunded[r'.payer] + Billable(r') < TWO64 && usage == refunded[r'.payer := refunded[r'.payer] + Billable(r')]
    {
      if r.payer != r'.payer {
        ok := UpdateDbUsage(r.payer, -(Billable(r) as int), true);
        assert ok;
        ok := UpdateDbUsage(r'.payer, Billable(r'), authorized);
      } else if Billable(r) != Billable(r') {
        ok := UpdateDbUsage(r.payer, Billable(r') - Billable(r), authorized);
      } else {
        ok := true;
        assert usage == usage[r.payer := usage[r.payer]];
      }
    }

    /** Pays the payer of a row back; that never fails. */
    method Refund(i: RowId)
      requires Balanced(usage, other, rows) && i in rows
      modifies this`usage
      ensures var r := rows[i]; var size := if r.kind == KeyValue then r.size + 112 else 128;
              old(usage)[r.payer] >= size && usage == old(usage)[r.payer := old(usage)[r.payer] - size]
      ensures Balanced(usage, other, rows - {i})
    {
      var r := rows[i];
      BalancedRemove(usage, other, rows, i);
      assert BalancedAt(usage, other, rows, r.payer);
      var ok := UpdateDbUsage(r.payer, -(Billable(r) as int), true);
    }

    /** Removes a row: its payer is paid back, and the count of its table goes down from what the row's own
        index remembers; a table whose count reaches zero is dropped. */
    method Remove(i: RowId) returns (ok: bool)
      requires Valid() && i in rows
      modifies this`usage, this`rows, this`tables, this`cache
      ensures var r := old(rows[i]); ok <==> (r.kind, r.tid) in old(cache) && old(cache)[(r.kind, r.tid)].code == receiver
      ensures ok ==> Valid() && rows == old(rows) - {i}
      ensures ok ==> var r := old(rows[i]); var size := if r.kind == KeyValue then r.size + 112 else 128;
                     old(usage)[r.payer] >= size && usage == old(usage)[r.payer := old(usage)[r.payer] - size]
      ensures ok ==> var t, table := old(rows[i]).tid, old(cache[(rows[i].kind, rows[i].tid)]);
                     var count := if table.count == 0 then TWO32 - 1 else table.count - 1;
                     tables == if count == 0 then old(tables) - {t} else old(tables)[t := table.(count := count)]
    {
      if !Writable(i) { return false; }
      ok := true;
      var r := rows[i];
      Refund(i);
      var table := cache[(r.kind, r.tid)];
      table := table.(count := Down(table.count));
      tables, cache := tables[r.tid := table], cache[(r.kind, r.tid) := table];
      rows := rows - {i};
      if table.count == 0 {
        tables := tables - {r.tid};
      }
      RemovedTablesOk(i, old(rows), old(tables), old(cache), tables, cache, kinds, mixed);
    }
  }
  /** Account 1 with one row of the primary index in its table 7. */
  ghost predicate OneRow(context: ApplyContext, i: RowId, t: TableId)
    reads context
  {
    && context.receiver == 1 && context.usage == map[1 := 224] && context.rows == map[i := Row(KeyValue, t, 1, 0)]
    && context.tables == map[t := Table(1, 7, 1, 1)] && context.cache == map[(KeyValue, t) := Table(1, 7, 1, 1)]
  }

  method StorePrimary() returns (context: ApplyContext, i: RowId)
    ensures fresh(context) && context.Valid() && i in context.rows && OneRow(context, i, context.rows[i].tid)
  {
    context := new ApplyContext(1, map[1 := 0]);
    assert CachedBy(context.cache, KeyValue) == {};
    var ok;
    ok, i := context.Store(KeyValue, 7, 1, 0, true);
  }

  method StoreSecondary(context: ApplyContext, i: RowId, ghost t: TableId) returns (j: RowId)
    requires context.Valid() && OneRow(context, i, t)
    modifies context
    ensures context.Valid() && i != j && context.receiver == 1
    ensures context.rows == map[i := Row(KeyValue, t, 1, 0), j := Row(Idx64, t, 1, 0)]
    ensures context.tables == map[t := Table(1, 7, 1, 2)]
    ensures (KeyValue, t) in context.cache && context.cache[(KeyValue, t)] == Table(1, 7, 1, 1)
  {
    assert CachedBy(context.cache, Idx64) == {};
    assert context.tables[t].name == 7;
    var ok;
    ok, j := context.Store(Idx64, 7, 1, 0, true);
  }

  /** A table used by both kinds of index is dropped while it still has a row: each kind remembers its own copy. */
  method LiveTableDropped() returns (rowsLeft: nat, tablesLeft: nat)
    ensures rowsLeft == 1 && tablesLeft == 0
  {
    var context, i := StorePrimary();
    ghost var t := context.rows[i].tid;
    var j := StoreSecondary(context, i, t);
    var removed := context.Remove(i);
    assert context.rows == map[j := Row(Idx64, t, 1, 0)];
    assert context.tables == map[];
    rowsLeft, tablesLeft := |context.rows|, |context.tables|;
  }
}
