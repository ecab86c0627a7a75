/** Binary searches over the sorted arrays of the core: references by catalog ids, and rows of a
    flattened catalog by id. */
module Lookup {
  import opened Common
  import opened Order
  import opened Layout
  import opened Flatten

  const MaxSafeInteger: nat := 0x1F_FFFF_FFFF_FFFF
  const MaxUint32: nat := 0xFFFF_FFFF
  const MaxUint64: nat := 0xFFFF_FFFF_FFFF_FFFF

  /** An index entry: the catalog ids of a resolved reference, and the reference. */
  datatype Ref<K> = Ref(key: K, refId: nat)

  // ----- references to tables -----

  datatype TableKey = TableKey(database: nat, schema: nat, table: nat)
  type TableRef = Ref<TableKey>

  predicate TableKeyLess(k: TableKey, l: TableKey) {
    || k.database < l.database
    || (k.database == l.database && (k.schema < l.schema || (k.schema == l.schema && k.table < l.table)))
  }

  ghost predicate TableRefsSorted(index: seq<TableRef>) {
    forall i, j | 0 <= i < j < |index| :: !TableKeyLess(index[j].key, index[i].key)
  }

  /** Catalog ids fit their integer types. */
  ghost predicate TableKeyFits(k: TableKey) {
    k.database <= MaxUint32 && k.schema <= MaxUint32 && k.table <= MaxUint64
  }

  method TableRefsLowerBound(index: seq<TableRef>, begin: nat, end: nat, target: TableKey) returns (bound: nat)
    requires TableRefsSorted(index) && begin <= end <= |index|
    ensures begin <= bound <= end
    ensures forall i | begin <= i < bound :: TableKeyLess(index[i].key, target)
    ensures forall i | bound <= i < end :: !TableKeyLess(index[i].key, target)
  {
    var lo, hi := begin, end;
    while lo < hi
      invariant begin <= lo <= hi <= end
      invariant forall i | begin <= i < lo :: TableKeyLess(index[i].key, target)
      invariant forall i | hi <= i < end :: !TableKeyLess(index[i].key, target)
    {
      var m := lo + (hi - lo) / 2;
      var mid := index[m].key;
      if mid.database == target.database {
        if mid.schema == target.schema {
          if mid.table < target.table {
            lo := m + 1;
          } else {
            hi := m;
          }
        } else if mid.schema < target.schema {
          lo := m + 1;
        } else {
          hi := m;
        }
      } else if mid.database < target.database {
        lo := m + 1;
      } else {
        hi := m;
      }
    }
    return hi;
  }

  method TableRefsUpperBound(index: seq<TableRef>, begin: nat, end: nat, target: TableKey) returns (bound: nat)
    requires TableRefsSorted(index) && begin <= end <= |index|
    ensures begin <= bound <= end
    ensures forall i | begin <= i < bound :: !TableKeyLess(target, index[i].key)
    ensures forall i | bound <= i < end :: TableKeyLess(target, index[i].key)
  {
    var lo, hi := begin, end;
    while lo < hi
      invariant begin <= lo <= hi <= end
      invariant forall i | begin <= i < lo :: !TableKeyLess(target, index[i].key)
      invariant forall i | hi <= i < end :: TableKeyLess(target, index[i].key)
    {
      var m := lo + (hi - lo) / 2;
      var mid := index[m].key;
      if mid.database == target.database {
        if mid.schema == target.schema {
          if mid.table <= target.table {
            lo := m + 1;
          } else {
            hi := m;
          }
        } else if mid.schema < target.schema {
          lo := m + 1;
        } else {
          hi := m;
        }
      } else if mid.database < target.database {
        lo := m + 1;
      } else {
        hi := m;
      }
    }
    return hi;
  }

  datatype TableQuery = TableQuery(database: nat, schema: Option<nat>, table: Option<nat>)

  function ValueOr(o: Option<nat>, default: nat): nat { if o.Some? then o.value else default }

  function LowestTable(q: TableQuery): TableKey { TableKey(q.database, ValueOr(q.schema, 0), ValueOr(q.table, 0)) }
  function HighestTable(q: TableQuery): TableKey {
    TableKey(q.database, ValueOr(q.schema, MaxSafeInteger), ValueOr(q.table, MaxUint64))
  }

  /** The key is one that the query asks for. */
  predicate TableMatches(k: TableKey, q: TableQuery) {
    && k.database == q.database
    && (q.schema.Some? ==> k.schema == q.schema.value)
    && (q.table.Some? ==> k.table == q.table.value)
  }

  /** The key lies between the query with all missing parts lowest and with all missing parts highest. */
  predicate TableInRange(k: TableKey, q: TableQuery) {
    !TableKeyLess(k, LowestTable(q)) && !TableKeyLess(HighestTable(q), k)
  }

  method TableRefsEqualRange(index: seq<TableRef>, q: TableQuery) returns (lb: nat, ub: nat)
    requires TableRefsSorted(index)
    ensures lb <= ub <= |index|
    ensures forall i | 0 <= i < |index| :: lb <= i < ub <==> TableInRange(index[i].key, q)
  {
    lb := TableRefsLowerBound(index, 0, |index|, LowestTable(q));
    ub := TableRefsUpperBound(index, lb, |index|, HighestTable(q));
  }

  /** A query names a prefix of (database, schema, table). */
  predicate TablePrefix(q: TableQuery) { q.table.Some? ==> q.schema.Some? }

  ghost predicate TableQueryFits(q: TableQuery) {
    q.database <= MaxUint32 && ValueOr(q.schema, 0) <= MaxUint32 && ValueOr(q.table, 0) <= MaxUint64
  }

  /** The range of a query is what it asks for, on every index, exactly when the query names a prefix:
      with the schema missing, a table of a different id lies in the range. */
  lemma TableRangeIsMatch(q: TableQuery)
    requires TableQueryFits(q)
    ensures TablePrefix(q) <==> forall k | TableKeyFits(k) :: TableInRange(k, q) <==> TableMatches(k, q)
  {
    if !TablePrefix(q) {
      var other := TableKey(q.database, 1, if q.table.value == 0 then 1 else 0);
      assert TableKeyFits(other) && TableInRange(other, q) && !TableMatches(other, q);
    }
  }

  // ----- references to columns -----

  datatype ColumnKey = ColumnKey(table: TableKey, column: nat)
  type ColumnRef = Ref<ColumnKey>

  predicate ColumnKeyLess(k: ColumnKey, l: ColumnKey) {
    TableKeyLess(k.table, l.table) || (k.table == l.table && k.column < l.column)
  }

  ghost predicate ColumnRefsSorted(index: seq<ColumnRef>) {
    forall i, j | 0 <= i < j < |index| :: !ColumnKeyLess(index[j].key, index[i].key)
  }

  ghost predicate ColumnKeyFits(k: ColumnKey) { TableKeyFits(k.table) && k.column <= MaxUint32 }

  method ColumnRefsLowerBound(index: seq<ColumnRef>, begin: nat, end: nat, target: ColumnKey) returns (bound: nat)
    requires ColumnRefsSorted(index) && begin <= end <= |index|
    ensures begin <= bound <= end
    ensures forall i | begin <= i < bound :: ColumnKeyLess(index[i].key, target)
    ensures forall i | bound <= i < end :: !ColumnKeyLess(index[i].key, target)
  {
    var lo, hi := begin, end;
    while lo < hi
      invariant begin <= lo <= hi <= end
      invariant forall i | begin <= i < lo :: ColumnKeyLess(index[i].key, target)
      invariant forall i | hi <= i < end :: !ColumnKeyLess(index[i].key, target)
    {
      var m := lo + (hi - lo) / 2;
      var mid := index[m].key;
      if mid.table.database == target.table.database {
        if mid.table.schema == target.table.schema {
          if mid.table.table == target.table.table {
            if mid.column < target.column {
              lo := m + 1;
            } else {
              hi := m;
            }
          } else if mid.table.table < target.table.table {
            lo := m + 1;
          } else {
            hi := m;
          }
        } else if mid.table.schema < target.table.schema {
          lo := m + 1;
        } else {
          hi := m;
        }
      } else if mid.table.database < target.table.database {
        lo := m + 1;
      } else {
        hi := m;
      }
    }
    return hi;
  }

  method ColumnRefsUpperBound(index: seq<ColumnRef>, begin: nat, end: nat, target: ColumnKey) returns (bound: nat)
    requires ColumnRefsSorted(index) && begin <= end <= |index|
    ensures begin <= bound <= end
    ensures forall i | begin <= i < bound :: !ColumnKeyLess(target, index[i].key)
    ensures forall i | bound <= i < end :: ColumnKeyLess(target, index[i].key)
  {
    var lo, hi := begin, end;
    while lo < hi
      invariant begin <= lo <= hi <= end
      invariant forall i | begin <= i < lo :: !ColumnKeyLess(target, index[i].key)
      invariant forall i | hi <= i < end :: ColumnKeyLess(target, index[i].key)
    {
      var m := lo + (hi - lo) / 2;
      var mid := index[m].key;
      if mid.table.database == target.table.database {
        if mid.table.schema == target.table.schema {
          if mid.table.table == target.table.table {
            if mid.column <= target.column {
              lo := m + 1;
            } else {
              hi := m;
            }
          } else if mid.table.table < target.table.table {
            lo := m + 1;
          } else {
            hi := m;
          }
        } else if mid.table.schema < target.table.schema {
          lo := m + 1;
        } else {
          hi := m;
        }
      } else if mid.table.database < target.table.database {
        lo := m + 1;
      } else {
        hi := m;
      }
    }
    return hi;
  }

  datatype ColumnQuery = ColumnQuery(table: TableQuery, column: Option<nat>)

  function LowestColumn(q: ColumnQuery): ColumnKey { ColumnKey(LowestTable(q.table), ValueOr(q.column, 0)) }
  function HighestColumn(q: ColumnQuery): ColumnKey {
    ColumnKey(HighestTable(q.table), ValueOr(q.column, MaxSafeInteger))
  }

  predicate ColumnMatches(k: ColumnKey, q: ColumnQuery) {
    TableMatches(k.table, q.table) && (q.column.Some? ==> k.column == q.column.value)
  }

  predicate ColumnInRange(k: ColumnKey, q: ColumnQuery) {
    !ColumnKeyLess(k, LowestColumn(q)) && !ColumnKeyLess(HighestColumn(q), k)
  }

  method ColumnRefsEqualRange(index: seq<ColumnRef>, q: ColumnQuery) returns (lb: nat, ub: nat)
    requires ColumnRefsSorted(index)
    ensures lb <= ub <= |index|
    ensures forall i | 0 <= i < |index| :: lb <= i < ub <==> ColumnInRange(index[i].key, q)
  {
    lb := ColumnRefsLowerBound(index, 0, |index|, LowestColumn(q));
    ub := ColumnRefsUpperBound(index, lb, |index|, HighestColumn(q));
  }

  /** A query names a prefix of (database, schema, table, column). */
  predicate ColumnPrefix(q: ColumnQuery) {
    TablePrefix(q.table) && (q.column.Some? ==> q.table.table.Some? && q.table.schema.Some?)
  }

  ghost predicate ColumnQueryFits(q: ColumnQuery) { TableQueryFits(q.table) && ValueOr(q.column, 0) <= MaxUint32 }

  function Other(o: Option<nat>): nat { if ValueOr(o, 0) == 0 then 1 else 0 }

  /** As for tables: a part that is given below one that is missing makes the range too wide. */
  lemma ColumnRangeIsMatch(q: ColumnQuery)
    requires ColumnQueryFits(q)
    ensures ColumnPrefix(q) <==> forall k | ColumnKeyFits(k) :: ColumnInRange(k, q) <==> ColumnMatches(k, q)
  {
    if !ColumnPrefix(q) {
      var t := q.table;
      var other := if t.schema.None?
        then ColumnKey(TableKey(t.database, 1, Other(t.table)), Other(q.column))
        else ColumnKey(TableKey(t.database, t.schema.value, 1), Other(q.column));
      assert ColumnKeyFits(other) && ColumnInRange(other, q) && !ColumnMatches(other, q);
    }
  }

  // ----- building the indexes -----

  datatype Reference<K> = Unresolved | Resolved(key: K)

  /** The index lists every resolved reference once. */
  ghost predicate ListsRefs<K(!new)>(index: seq<Ref<K>>, refs: seq<Reference<K>>) {
    && (forall i | 0 <= i < |index| :: index[i].refId < |refs| && refs[index[i].refId] == Resolved(index[i].key))
    && (forall j | 0 <= j < |refs| && refs[j].Resolved? :: Ref(refs[j].key, j) in index)
    && (forall i, j | 0 <= i < j < |index| :: index[i] != index[j])
  }

  method InsertTableRef(ref: TableRef, index: seq<TableRef>) returns (more: seq<TableRef>)
    requires TableRefsSorted(index)
    ensures TableRefsSorted(more) && multiset(more) == multiset(index) + multiset{ref}
  {
    var at := TableRefsUpperBound(index, 0, |index|, ref.key);
    more := index[..at] + [ref] + index[at..];
    InsertedOnce(index, at, ref);
  }

  method SortTableRefs(refs: seq<TableRef>) returns (sorted: seq<TableRef>)
    ensures TableRefsSorted(sorted) && multiset(sorted) == multiset(refs)
  {
    sorted := [];
    for i := 0 to |refs|
      invariant TableRefsSorted(sorted) && multiset(sorted) == multiset(refs[..i])
    {
      assert refs[..i + 1] == refs[..i] + [refs[i]];
      sorted := InsertTableRef(refs[i], sorted);
    }
    assert refs[..|refs|] == refs;
  }

  method InsertColumnRef(ref: ColumnRef, index: seq<ColumnRef>) returns (more: seq<ColumnRef>)
    requires ColumnRefsSorted(index)
    ensures ColumnRefsSorted(more) && multiset(more) == multiset(index) + multiset{ref}
  {
    var at := ColumnRefsUpperBound(index, 0, |index|, ref.key);
    more := index[..at] + [ref] + index[at..];
    InsertedOnce(index, at, ref);
  }

  method SortColumnRefs(refs: seq<ColumnRef>) returns (sorted: seq<ColumnRef>)
    ensures ColumnRefsSorted(sorted) && multiset(sorted) == multiset(refs)
  {
    sorted := [];
    for i := 0 to |refs|
      invariant ColumnRefsSorted(sorted) && multiset(sorted) == multiset(refs[..i])
    {
      assert refs[..i + 1] == refs[..i] + [refs[i]];
      sorted := InsertColumnRef(refs[i], sorted);
    }
    assert refs[..|refs|] == refs;
  }

  /** Sorting does not change what an index lists. */
  lemma PermutationLists<K(!new)>(index: seq<Ref<K>>, sorted: seq<Ref<K>>, refs: seq<Reference<K>>)
    requires ListsRefs(index, refs) && multiset(sorted) == multiset(index)
    ensures ListsRefs(sorted, refs)
  {
    forall x ensures x in index <==> x in sorted { assert x in multiset(index) <==> x in multiset(sorted); }
    DistinctCounts(index);
    CountsDistinct(sorted);
    forall i | 0 <= i < |sorted| ensures sorted[i].refId < |refs| && refs[sorted[i].refId] == Resolved(sorted[i].key) {
      assert sorted[i] in index;
    }
  }

  /** Collect the resolved references. */
  method CollectRefs<K(!new)>(refs: seq<Reference<K>>) returns (index: seq<Ref<K>>)
    ensures ListsRefs(index, refs)
  {
    index := [];
    for i := 0 to |refs|
      invariant forall k | 0 <= k < |index| :: index[k].refId < i && refs[index[k].refId] == Resolved(index[k].key)
      invariant forall j | 0 <= j < i && refs[j].Resolved? :: Ref(refs[j].key, j) in index
      invariant forall k, l | 0 <= k < l < |index| :: index[k] != index[l]
    {
      if refs[i].Resolved? {
        index := index + [Ref(refs[i].key, i)];
      }
    }
  }

  method PackTableRefs(refs: seq<Reference<TableKey>>) returns (index: seq<TableRef>)
    ensures TableRefsSorted(index) && ListsRefs(index, refs)
  {
    var collected := CollectRefs(refs);
    index := SortTableRefs(collected);
    PermutationLists(collected, index, refs);
  }

  method PackColumnRefs(refs: seq<Reference<ColumnKey>>) returns (index: seq<ColumnRef>)
    ensures ColumnRefsSorted(index) && ListsRefs(index, refs)
  {
    var collected := CollectRefs(refs);
    index := SortColumnRefs(collected);
    PermutationLists(collected, index, refs);
  }

  // ----- what a range selects -----

  /** The index range holds exactly the resolved references whose key is asked for, each once. */
  ghost predicate Selects<K(!new)>(index: seq<Ref<K>>, lb: nat, ub: nat, refs: seq<Reference<K>>, asked: K -> bool) {
    && lb <= ub <= |index|
    && (forall r: nat :: (exists i :: lb <= i < ub && index[i].refId == r)
         <==> r < |refs| && refs[r].Resolved? && asked(refs[r].key))
    && (forall i, j | lb <= i < j < ub :: index[i].refId != index[j].refId)
  }

  lemma RangeSelects<K(!new)>(index: seq<Ref<K>>, lb: nat, ub: nat, refs: seq<Reference<K>>, asked: K -> bool)
    requires ListsRefs(index, refs) && lb <= ub <= |index|
    requires forall i | 0 <= i < |index| :: lb <= i < ub <==> asked(index[i].key)
    ensures Selects(index, lb, ub, refs, asked)
  {
    forall r: nat | r < |refs| && refs[r].Resolved? && asked(refs[r].key)
      ensures exists i :: lb <= i < ub && index[i].refId == r
    {
      assert Ref(refs[r].key, r) in index;
      var i :| 0 <= i < |index| && index[i] == Ref(refs[r].key, r);
    }
    forall i, j | lb <= i < j < ub ensures index[i].refId != index[j].refId {
      assert index[i] != index[j];
    }
  }

  /** Looking up a prefix of (database, schema, table) finds what a scan of all references finds. */
  method FindTableRefs(refs: seq<Reference<TableKey>>, q: TableQuery) returns (index: seq<TableRef>, lb: nat, ub: nat)
    requires forall j | 0 <= j < |refs| && refs[j].Resolved? :: TableKeyFits(refs[j].key)
    requires TableQueryFits(q) && TablePrefix(q)
    ensures Selects(index, lb, ub, refs, k => TableMatches(k, q))
  {
    index := PackTableRefs(refs);
    lb, ub := TableRefsEqualRange(index, q);
    TableRangeIsMatch(q);
    assert forall i | 0 <= i < |index| :: TableKeyFits(index[i].key);
    RangeSelects(index, lb, ub, refs, k => TableMatches(k, q));
  }

  /** The same for a prefix of (database, schema, table, column). */
  method FindColumnRefs(refs: seq<Reference<ColumnKey>>, q: ColumnQuery)
    returns (index: seq<ColumnRef>, lb: nat, ub: nat)
    requires forall j | 0 <= j < |refs| && refs[j].Resolved? :: ColumnKeyFits(refs[j].key)
    requires ColumnQueryFits(q) && ColumnPrefix(q)
    ensures Selects(index, lb, ub, refs, k => ColumnMatches(k, q))
  {
    index := PackColumnRefs(refs);
    lb, ub := ColumnRefsEqualRange(index, q);
    ColumnRangeIsMatch(q);
    assert forall i | 0 <= i < |index| :: ColumnKeyFits(index[i].key);
    RangeSelects(index, lb, ub, refs, k => ColumnMatches(k, q));
  }

  // ----- rows by id -----

  /** The flat position of the entry with this id. */
  method FindById(index: seq<IndexedEntry>, id: nat) returns (position: Option<nat>)
    requires SortedById(index)
    ensures position.Some? ==> IndexedEntry(id, position.value) in index
    ensures position.None? ==> forall i | 0 <= i < |index| :: index[i].id != id
  {
    var begin, end := 0, |index|;
    while begin < end
      invariant 0 <= begin <= end <= |index|
      invariant forall i | 0 <= i < begin :: index[i].id < id
      invariant forall i | end <= i < |index| :: index[i].id > id
    {
      var m := begin + (end - begin) / 2;
      if index[m].id == id {
        return Some(index[m].flatIdx);
      } else if index[m].id < id {
        begin := m + 1;
      } else {
        end := m;
      }
    }
    return None;
  }

  /** A search over the index of a flattened catalog gives the row with that id, and nothing exactly
      when there is none: what a linear scan of the rows gives. */
  method FindRow(index: seq<IndexedEntry>, rows: seq<FlatEntry>, id: nat) returns (position: Option<nat>)
    requires IsIndex(index, rows)
    ensures position.Some? ==> position.value < |rows| && rows[position.value].catalogId == id
    ensures position.None? <==> forall i | 0 <= i < |rows| :: rows[i].catalogId != id
  {
    IndexHoldsRows(index, rows);
    position := FindById(index, id);
    if position.None? {
      forall i | 0 <= i < |rows| ensures rows[i].catalogId != id {
        assert IndexedEntry(rows[i].catalogId, i) in index;
      }
    }
  }

  method FindDatabaseById(flat: FlatCatalog, id: nat) returns (position: Option<nat>)
    requires IsIndex(flat.databasesById, flat.databases)
    ensures position.Some? ==> position.value < |flat.databases| && flat.databases[position.value].catalogId == id
    ensures position.None? <==> forall i | 0 <= i < |flat.databases| :: flat.databases[i].catalogId != id
  {
    position := FindRow(flat.databasesById, flat.databases, id);
  }

  method FindSchemaById(flat: FlatCatalog, id: nat) returns (position: Option<nat>)
    requires IsIndex(flat.schemasById, flat.schemas)
    ensures position.Some? ==> position.value < |flat.schemas| && flat.schemas[position.value].catalogId == id
    ensures position.None? <==> forall i | 0 <= i < |flat.schemas| :: flat.schemas[i].catalogId != id
  {
    position := FindRow(flat.schemasById, flat.schemas, id);
  }

  method FindTableById(flat: FlatCatalog, id: nat) returns (position: Option<nat>)
    requires IsIndex(flat.tablesById, flat.tables)
    ensures position.Some? ==> position.value < |flat.tables| && flat.tables[position.value].catalogId == id
    ensures position.None? <==> forall i | 0 <= i < |flat.tables| :: flat.tables[i].catalogId != id
  {
    position := FindRow(flat.tablesById, flat.tables, id);
  }
}
