/** Writing a flattened catalog: four arrays of rows, one per level of the tree, and for three of
    them an index that is sorted by id. */
module Flatten {
  import opened Order
  import opened DescriptorPool
  import opened CatalogState
  import opened Layout
  import opened Outline
  import opened FlatNodes

  datatype IndexedEntry = IndexedEntry(id: nat, flatIdx: nat)
  datatype Rows = Rows(entries: seq<FlatEntry>, byId: seq<IndexedEntry>)
  datatype Output = Output(databases: Rows, schemas: Rows, tables: Rows, columns: seq<FlatEntry>)

  datatype FlatCatalog = FlatCatalog(
    version: nat,
    dictionary: seq<Name>,
    databases: seq<FlatEntry>,
    schemas: seq<FlatEntry>,
    tables: seq<FlatEntry>,
    columns: seq<FlatEntry>,
    databasesById: seq<IndexedEntry>,
    schemasById: seq<IndexedEntry>,
    tablesById: seq<IndexedEntry>)

  // ----- what has been written -----

  /** The id and the position of every row. */
  function IndexOf(rows: seq<FlatEntry>): (index: seq<IndexedEntry>) {
    seq(|rows|, i requires 0 <= i < |rows| => IndexedEntry(rows[i].catalogId, i))
  }

  function Push(rows: Rows, row: FlatEntry): Rows {
    Rows(rows.entries + [row], rows.byId + [IndexedEntry(row.catalogId, |rows.entries|)])
  }

  ghost predicate Written(rows: Rows, names: seq<Name>, ns: seq<Node>, parents: seq<nat>) {
    AreRows(rows.entries, names, ns, parents) && rows.byId == IndexOf(rows.entries)
  }

  lemma WriteRow(rows: Rows, names: seq<Name>, ns: seq<Node>, parents: seq<nat>, n: Node, parent: nat, nameId: nat)
    requires Written(rows, names, ns, parents) && Decodes(names, nameId, n.name)
    ensures Written(Push(rows, FlatEntry(|ns|, parent, n.id, nameId, |Kids(ns)|, |n.kids|)), names, ns + [n],
              parents + [parent])
  {
    AppendRow(rows.entries, names, ns, parents, n, parent, nameId);
  }

  /** Tables, and the columns below them. */
  ghost predicate TablesWritten(out: Output, names: seq<Name>, ns: seq<Node>, parents: seq<nat>) {
    && Written(out.tables, names, ns, parents)
    && AreRows(out.columns, names, Kids(ns), Parents(ns))
    && forall k | k in Kids(ns) :: k.kids == []
  }

  /** Schemas, and everything below them. */
  ghost predicate SchemasWritten(out: Output, names: seq<Name>, ns: seq<Node>, parents: seq<nat>) {
    Written(out.schemas, names, ns, parents) && TablesWritten(out, names, Kids(ns), Parents(ns))
  }

  /** Row `j` of the databases. The child range of a database is not written: it always begins at
      zero, and so does the parent. */
  ghost predicate IsDatabaseRow(row: FlatEntry, names: seq<Name>, ns: seq<Node>, j: nat)
    requires j < |ns|
  {
    && row.flatIdx == j
    && row.parentIdx == 0
    && row.catalogId == ns[j].id
    && Decodes(names, row.nameId, ns[j].name)
    && row.childBegin == 0
    && row.childCount == |ns[j].kids|
  }

  ghost predicate DatabaseRowsWritten(rows: Rows, names: seq<Name>, ns: seq<Node>) {
    && |rows.entries| == |ns|
    && (forall j | 0 <= j < |ns| :: IsDatabaseRow(rows.entries[j], names, ns, j))
    && rows.byId == IndexOf(rows.entries)
  }

  lemma WriteDatabaseRow(rows: Rows, names: seq<Name>, ns: seq<Node>, n: Node, nameId: nat)
    requires DatabaseRowsWritten(rows, names, ns) && Decodes(names, nameId, n.name)
    ensures DatabaseRowsWritten(Push(rows, FlatEntry(|ns|, 0, n.id, nameId, 0, |n.kids|)), names, ns + [n])
  {
    forall j | 0 <= j < |ns| ensures IsDatabaseRow(rows.entries[j], names, ns + [n], j) {
      assert IsDatabaseRow(rows.entries[j], names, ns, j);
    }
  }

  ghost predicate DatabasesWritten(out: Output, names: seq<Name>, ns: seq<Node>) {
    DatabaseRowsWritten(out.databases, names, ns) && SchemasWritten(out, names, Kids(ns), Parents(ns))
  }

  // ----- the nodes to write -----

  datatype Nodes = Nodes(databases: map<Name, nat>, schemas: map<SchemaName, nat>, store: TableStore,
      dictionary: Dictionary)

  ghost predicate Ready(nodes: Nodes, ids: Ids, ts: seq<Table>) {
    && nodes.databases == ids.databases
    && nodes.schemas == ids.schemas
    && TablesHeld(ts, nodes.store.nodes, nodes.store.columns)
    && DictionaryAgrees(nodes.dictionary)
    && Named(nodes.databases.Keys, nodes.dictionary, DatabaseLabel)
    && Named(nodes.schemas.Keys, nodes.dictionary, SchemaLabel)
    && Named(nodes.store.nodes.Keys, nodes.dictionary, TableLabel)
    && ColumnsNamed(nodes.store.columns, nodes.dictionary)
  }

  // ----- the four nested loops -----

  method WriteColumns(rows: seq<FlatEntry>, d: Dictionary, columns: seq<ColumnEntry>, e: TableEntry, parent: nat,
                      ghost t: Table, ghost ns: seq<Node>, ghost parents: seq<nat>)
    returns (rows': seq<FlatEntry>)
    requires DictionaryAgrees(d) && ColumnsNamed(columns, d) && Holds(e, columns, t)
    requires AreRows(rows, d.names, ns, parents) && forall n | n in ns :: n.kids == []
    ensures AreRows(rows', d.names, ns + ColumnNodes(t.columns), parents + Repeated(parent, |t.columns|))
  {
    rows' := rows;
    ghost var done, above := ns, parents;
    for i := 0 to e.count
      invariant done == ns + ColumnNodes(t.columns)[..i] && above == parents + Repeated(parent, i)
      invariant AreRows(rows', d.names, done, above)
    {
      var c := columns[e.begin + i];
      NextColumn(columns, e, t, ns, done, i);
      AppendRow(rows', d.names, done, above, Node(c.name, i, []), parent, d.index[c.name]);
      RepeatedOnceMore(parent, i);
      done, above := done + [Node(c.name, i, [])], above + [parent];
      rows' := rows' + [FlatEntry(|rows'|, parent, i, d.index[c.name], 0, 0)];
    }
    assert ColumnNodes(t.columns)[..|t.columns|] == ColumnNodes(t.columns);
  }

  lemma NextColumn(columns: seq<ColumnEntry>, e: TableEntry, t: Table, ns: seq<Node>, done: seq<Node>, i: nat)
    requires Holds(e, columns, t) && i < e.count
    requires done == ns + ColumnNodes(t.columns)[..i] && forall n | n in ns :: n.kids == []
    ensures Kids(done) == []
    ensures done + [Node(columns[e.begin + i].name, i, [])] == ns + ColumnNodes(t.columns)[..i + 1]
  {
    KidsOfLeaves(done);
    assert columns[e.begin + i] == columns[e.begin..e.begin + e.count][i];
  }

  method WriteTable(out: Output, nodes: Nodes, k: TableName, parent: nat, ghost ids: Ids, ghost ts: seq<Table>,
                    ghost ns: seq<Node>, ghost parents: seq<nat>)
    returns (out': Output)
    requires Ready(nodes, ids, ts) && k in nodes.store.nodes
    requires TablesWritten(out, nodes.dictionary.names, ns, parents)
    ensures Mentions(ts, k)
    ensures TablesWritten(out', nodes.dictionary.names, ns + [TableNode(FirstNamed(ts, k))], parents + [parent])
    ensures out'.databases == out.databases && out'.schemas == out.schemas
  {
    var e, d := nodes.store.nodes[k], nodes.dictionary;
    ghost var t := FirstNamed(ts, k);
    var row := FlatEntry(|out.tables.entries|, parent, e.id, d.index[k.table], |out.columns|, e.count);
    WriteRow(out.tables, d.names, ns, parents, TableNode(t), parent, row.nameId);
    KidsOfAppend(ns, TableNode(t));
    var columns := WriteColumns(out.columns, d, nodes.store.columns, e, |out.tables.entries|, t, Kids(ns), Parents(ns));
    out' := out.(tables := Push(out.tables, row), columns := columns);
  }

  /** The tables of a schema, in name order. */
  method ChildTables(nodes: Nodes, n: SchemaName, ghost ids: Ids, ghost ts: seq<Table>)
    returns (ks: seq<TableName>, count: nat)
    requires Ready(nodes, ids, ts)
    ensures ks == TablesUnder(ts, n) && count == |ks|
  {
    FullNamesAreOrdered();
    var children := TablesIn(nodes.store.nodes.Keys, n);
    assert children == TablesIn(TableNames(ts), n);
    ks := InOrder(TableNameLess, children);
    ListingSize(TableNameLess, children);
    count := |children|;
  }

  method WriteTables(out: Output, nodes: Nodes, ks: seq<TableName>, parent: nat, ghost ids: Ids, ghost ts: seq<Table>,
                     ghost ns: seq<Node>, ghost parents: seq<nat>)
    returns (out': Output)
    requires Ready(nodes, ids, ts) && forall k | k in ks :: Mentions(ts, k)
    requires TablesWritten(out, nodes.dictionary.names, ns, parents)
    ensures TablesWritten(out', nodes.dictionary.names, ns + TableNodes(ts, ks), parents + Repeated(parent, |ks|))
    ensures out'.databases == out.databases && out'.schemas == out.schemas
  {
    out' := out;
    ghost var kids, done, above := TableNodes(ts, ks), ns, parents;
    for i := 0 to |ks|
      invariant done == ns + kids[..i] && above == parents + Repeated(parent, i)
      invariant TablesWritten(out', nodes.dictionary.names, done, above)
      invariant out'.databases == out.databases && out'.schemas == out.schemas
    {
      assert Mentions(ts, ks[i]);
      out' := WriteTable(out', nodes, ks[i], parent, ids, ts, done, above);
      OneMore(ns, kids, parents, parent, i);
      done, above := done + [kids[i]], above + [parent];
    }
    assert kids[..|ks|] == kids;
  }

  lemma OneMore(before: seq<Node>, ns: seq<Node>, above: seq<nat>, parent: nat, i: nat)
    requires i < |ns|
    ensures (before + ns[..i]) + [ns[i]] == before + ns[..i + 1]
    ensures (above + Repeated(parent, i)) + [parent] == above + Repeated(parent, i + 1)
  {
    RepeatedOnceMore(parent, i);
  }

  method WriteSchema(out: Output, nodes: Nodes, n: SchemaName, parent: nat, ghost ids: Ids, ghost ts: seq<Table>,
                     ghost ns: seq<Node>, ghost parents: seq<nat>)
    returns (out': Output)
    requires Ready(nodes, ids, ts) && n in nodes.schemas
    requires SchemasWritten(out, nodes.dictionary.names, ns, parents)
    ensures SchemasWritten(out', nodes.dictionary.names, ns + [SchemaNode(ids, ts, n)], parents + [parent])
    ensures out'.databases == out.databases
  {
    ghost var node := SchemaNode(ids, ts, n);
    var ks, count := ChildTables(nodes, n, ids, ts);
    var index := |out.schemas.entries|;
    var row := FlatEntry(index, parent, nodes.schemas[n], nodes.dictionary.index[n.schema], |out.tables.entries|,
        count);
    WriteRow(out.schemas, nodes.dictionary.names, ns, parents, node, parent, row.nameId);
    KidsOfAppend(ns, node);
    out' := out.(schemas := Push(out.schemas, row));
    out' := WriteTables(out', nodes, ks, index, ids, ts, Kids(ns), Parents(ns));
  }

  /** The schemas of a database, in name order. */
  method ChildSchemas(nodes: Nodes, d: Name, ghost ids: Ids) returns (ms: seq<SchemaName>, count: nat)
    requires nodes.schemas == ids.schemas
    ensures ms == SchemasUnder(ids, d) && count == |ms|
  {
    FullNamesAreOrdered();
    var children := SchemasIn(nodes.schemas.Keys, d);
    ms := InOrder(SchemaNameLess, children);
    ListingSize(SchemaNameLess, children);
    count := |children|;
  }

  method WriteSchemas(out: Output, nodes: Nodes, ms: seq<SchemaName>, parent: nat, ghost ids: Ids, ghost ts: seq<Table>,
                      ghost ns: seq<Node>, ghost parents: seq<nat>)
    returns (out': Output)
    requires Ready(nodes, ids, ts) && forall m | m in ms :: m in ids.schemas
    requires SchemasWritten(out, nodes.dictionary.names, ns, parents)
    ensures SchemasWritten(out', nodes.dictionary.names, ns + SchemaNodes(ids, ts, ms),
              parents + Repeated(parent, |ms|))
    ensures out'.databases == out.databases
  {
    out' := out;
    ghost var kids, done, above := SchemaNodes(ids, ts, ms), ns, parents;
    for i := 0 to |ms|
      invariant done == ns + kids[..i] && above == parents + Repeated(parent, i)
      invariant SchemasWritten(out', nodes.dictionary.names, done, above)
      invariant out'.databases == out.databases
    {
      assert ms[i] in ids.schemas && kids[i] == SchemaNode(ids, ts, ms[i]);
      out' := WriteSchema(out', nodes, ms[i], parent, ids, ts, done, above);
      OneMore(ns, kids, parents, parent, i);
      done, above := done + [kids[i]], above + [parent];
    }
    assert kids[..|ms|] == kids;
  }

  method WriteDatabase(out: Output, nodes: Nodes, d: Name, ghost ids: Ids, ghost ts: seq<Table>, ghost ns: seq<Node>)
    returns (out': Output)
    requires Ready(nodes, ids, ts) && d in nodes.databases
    requires DatabasesWritten(out, nodes.dictionary.names, ns)
    ensures DatabasesWritten(out', nodes.dictionary.names, ns + [DatabaseNode(ids, ts, d)])
  {
    ghost var node := DatabaseNode(ids, ts, d);
    var ms, count := ChildSchemas(nodes, d, ids);
    var index := |out.databases.entries|;
    var row := FlatEntry(index, 0, nodes.databases[d], nodes.dictionary.index[d], 0, count);
    WriteDatabaseRow(out.databases, nodes.dictionary.names, ns, node, row.nameId);
    KidsOfAppend(ns, node);
    out' := out.(databases := Push(out.databases, row));
    out' := WriteSchemas(out', nodes, ms, index, ids, ts, Kids(ns), Parents(ns));
  }

  method RootDatabases(nodes: Nodes, ghost ids: Ids) returns (ds: seq<Name>)
    requires nodes.databases == ids.databases
    ensures ds == AllDatabasesListed(ids)
  {
    NamesAreOrdered();
    ds := InOrder(NameLess, nodes.databases.Keys);
  }

  lemma PrefixStep(ns: seq<Node>, i: nat)
    requires i < |ns|
    ensures ns[..i] + [ns[i]] == ns[..i + 1]
  {
  }

  method WriteAll(nodes: Nodes, ghost ids: Ids, ghost ts: seq<Table>) returns (out: Output)
    requires Ready(nodes, ids, ts)
    ensures DatabasesWritten(out, nodes.dictionary.names, DatabaseNodes(ids, ts, AllDatabasesListed(ids)))
  {
    var ds := RootDatabases(nodes, ids);
    out := Output(Rows([], []), Rows([], []), Rows([], []), []);
    ghost var all, done := DatabaseNodes(ids, ts, ds), [];
    for i := 0 to |ds|
      invariant done == all[..i]
      invariant DatabasesWritten(out, nodes.dictionary.names, done)
    {
      assert ds[i] in ids.databases;
      PrefixStep(all, i);
      out := WriteDatabase(out, nodes, ds[i], ids, ts, done);
      done := done + [all[i]];
    }
    assert all[..|ds|] == all;
  }

  // ----- the indexes by id -----

  ghost predicate SortedById(index: seq<IndexedEntry>) {
    forall i, j | 0 <= i < j < |index| :: index[i].id <= index[j].id
  }

  /** The index holds the id and the position of every row once, sorted by id. */
  ghost predicate IsIndex(index: seq<IndexedEntry>, rows: seq<FlatEntry>) {
    SortedById(index) && multiset(index) == multiset(IndexOf(rows))
  }

  method Insert(e: IndexedEntry, index: seq<IndexedEntry>) returns (more: seq<IndexedEntry>)
    requires SortedById(index)
    ensures SortedById(more) && multiset(more) == multiset(index) + multiset{e}
  {
    var i := 0;
    while i < |index| && index[i].id < e.id
      invariant 0 <= i <= |index|
      invariant forall j | 0 <= j < i :: index[j].id < e.id
    {
      i := i + 1;
    }
    more := index[..i] + [e] + index[i..];
    InsertedOnce(index, i, e);
  }

  /** Sort by id; entries of equal id may come in any order. */
  method SortById(index: seq<IndexedEntry>) returns (sorted: seq<IndexedEntry>)
    ensures SortedById(sorted) && multiset(sorted) == multiset(index)
  {
    sorted := [];
    for i := 0 to |index|
      invariant SortedById(sorted) && multiset(sorted) == multiset(index[..i])
    {
      assert index[..i + 1] == index[..i] + [index[i]];
      sorted := Insert(index[i], sorted);
    }
    assert index[..|index|] == index;
  }

  // ----- the flattened catalog -----

  /** The arrays show a tree of databases, level by level. */
  ghost predicate Shows(flat: FlatCatalog, ns: seq<Node>) {
    && |flat.databases| == |ns|
    && (forall j | 0 <= j < |ns| :: IsDatabaseRow(flat.databases[j], flat.dictionary, ns, j))
    && AreRows(flat.schemas, flat.dictionary, Kids(ns), Parents(ns))
    && AreRows(flat.tables, flat.dictionary, Kids(Kids(ns)), Parents(Kids(ns)))
    && AreRows(flat.columns, flat.dictionary, Kids(Kids(Kids(ns))), Parents(Kids(Kids(ns))))
  }

  lemma {:induction false} ColumnLevel(ts: seq<Table>, nodes: map<TableName, TableEntry>, columns: seq<ColumnEntry>,
                                       ks: seq<TableName>)
    requires TablesHeld(ts, nodes, columns) && (forall k | k in ks :: k in nodes)
    ensures (forall k | k in ks :: Mentions(ts, k)) && |Kids(TableNodes(ts, ks))| == Total(nodes, ks)
    decreases |ks|
  {
    if ks != [] {
      var front, last := ks[..|ks| - 1], ks[|ks| - 1];
      assert ks == front + [last];
      ColumnLevel(ts, nodes, columns, front);
      TotalOfConcat(nodes, front, [last]);
      assert TableNodes(ts, ks) == TableNodes(ts, front) + [TableNode(FirstNamed(ts, last))];
      KidsOfAppend(TableNodes(ts, front), TableNode(FirstNamed(ts, last)));
    }
  }

  /** Every node that was created is written exactly once: the four write cursors end at the
      numbers of nodes. */
  lemma CursorsMeet(out: Output, nodes: Nodes, ids: Ids, ts: seq<Table>, order: seq<TableName>)
    requires Ready(nodes, ids, ts) && Rooted(ids, ts) && Accounted(nodes.store.nodes, nodes.store.columns, order)
    requires DatabasesWritten(out, nodes.dictionary.names, DatabaseNodes(ids, ts, AllDatabasesListed(ids)))
    ensures |out.databases.entries| == |nodes.databases|
    ensures |out.schemas.entries| == |nodes.schemas|
    ensures |out.tables.entries| == |nodes.store.nodes|
    ensures |out.columns| == |nodes.store.columns|
  {
    OutlineLevels(ids, ts);
    ListedSizes(ids, ts);
    ColumnsCounted(ts, nodes.store.nodes, nodes.store.columns, order);
  }

  lemma ColumnsCounted(ts: seq<Table>, nodes: map<TableName, TableEntry>, columns: seq<ColumnEntry>,
                       order: seq<TableName>)
    requires TablesHeld(ts, nodes, columns) && Accounted(nodes, columns, order)
    ensures |TableNames(ts)| == |nodes| && |Kids(TableNodes(ts, AllTablesListed(ts)))| == |columns|
  {
    assert TableNames(ts) == nodes.Keys;
    var ks := AllTablesListed(ts);
    ListedSizes(Ids(map[], map[]), ts);
    ColumnLevel(ts, nodes, columns, ks);
    TotalOfPermutation(nodes, ks, order);
  }

  lemma AllHeld<K(!new)>(ids: map<K, nat>, nodes: map<K, nat>, byId: map<nat, K>)
    requires Held(ids, nodes, byId) && nodes.Keys == ids.Keys
    ensures nodes == ids
  {
  }

  lemma NodesAreReady(ids: Ids, ts: seq<Table>, n: NameNodes, s: TableStore, d: Dictionary, order: seq<TableName>)
    requires NamesHeld(ids, n) && n.databases.Keys == ids.databases.Keys && n.schemas.Keys == ids.schemas.Keys
    requires Stored(ts, s, d, order) && DictionaryGrew(n.dictionary, d)
    ensures Ready(Nodes(n.databases, n.schemas, s, d), ids, ts)
  {
    AllHeld(ids.databases, n.databases, n.databaseById);
    AllHeld(ids.schemas, n.schemas, n.schemaById);
    StillNamed(n.databases.Keys, n.dictionary, d, DatabaseLabel);
    StillNamed(n.schemas.Keys, n.dictionary, d, SchemaLabel);
  }

  /** Flatten the catalog: the arrays show exactly the outline of the registry. */
  method Flatten(r: Registry) returns (flat: FlatCatalog)
    requires Readable(r) && Consistent(r)
    ensures flat.version == r.version && Distinct(flat.dictionary)
    ensures Shows(flat, OutlineOf(r))
    ensures IsIndex(flat.databasesById, flat.databases)
    ensures IsIndex(flat.schemasById, flat.schemas)
    ensures IsIndex(flat.tablesById, flat.tables)
  {
    var names := CollectNames(r);
    forall id | id in r.entries ensures FindSchemas(EntryAt(r, id).tables, names.schemaById) {
      DeclarationsFindSchemas(r, names, id);
    }
    var store, d;
    ghost var order;
    store, d, order := CollectTables(r, names.schemaById, names.dictionary);
    ghost var ids, ts := IdsOf(r), Declarations(r);
    assert ids.databases.Keys == AllDatabases(r) && ids.schemas.Keys == AllSchemas(r);
    NodesAreReady(ids, ts, names, store, d, order);
    DictionaryIsDistinct(d);
    var nodes := Nodes(names.databases, names.schemas, store, d);
    var out := WriteAll(nodes, ids, ts);
    RegistriesAreRooted(r);
    CursorsMeet(out, nodes, ids, ts, order);
    assert |out.databases.entries| == |nodes.databases|;
    assert |out.schemas.entries| == |nodes.schemas|;
    assert |out.tables.entries| == |nodes.store.nodes|;
    assert |out.columns| == |nodes.store.columns|;
    var databasesById := SortById(out.databases.byId);
    var schemasById := SortById(out.schemas.byId);
    var tablesById := SortById(out.tables.byId);
    flat := FlatCatalog(r.version, d.names, out.databases.entries, out.schemas.entries, out.tables.entries, out.columns,
                        databasesById, schemasById, tablesById);
  }

  /** The layout in terms of the arrays alone: parent positions are valid and never decrease, and a
      row lies in the child range of its parent. The ranges of the schemas and of the tables start
      at zero, follow each other and end at the end of the next array. */
  lemma FlatLayout(flat: FlatCatalog, ns: seq<Node>)
    requires Shows(flat, ns)
    ensures RangesTile(flat.schemas, flat.tables) && RangesTile(flat.tables, flat.columns)
    ensures forall j | 0 <= j < |flat.schemas| :: flat.schemas[j].parentIdx < |flat.databases|
    ensures forall i, j | 0 <= i <= j < |flat.schemas| :: flat.schemas[i].parentIdx <= flat.schemas[j].parentIdx
  {
    RangesPartition(ns);
    LevelTiles(flat.schemas, flat.tables, flat.dictionary, Kids(ns), Parents(ns));
    LevelTiles(flat.tables, flat.columns, flat.dictionary, Kids(Kids(ns)), Parents(Kids(ns)));
  }

  ghost predicate RangesTile(above: seq<FlatEntry>, below: seq<FlatEntry>) {
    && (above != [] ==> above[0].childBegin == 0)
    && (above == [] ==> below == [])
    && (forall i | 0 <= i < |above| ::
          above[i].childBegin + above[i].childCount == (if i + 1 < |above| then above[i + 1].childBegin else |below|))
    && (forall j | 0 <= j < |below| ::
          var p := below[j].parentIdx;
          p < |above| && above[p].childBegin <= j < above[p].childBegin + above[p].childCount)
    && (forall i, j | 0 <= i <= j < |below| :: below[i].parentIdx <= below[j].parentIdx)
  }

  lemma LevelTiles(above: seq<FlatEntry>, below: seq<FlatEntry>, names: seq<Name>, ns: seq<Node>, parents: seq<nat>)
    requires AreRows(above, names, ns, parents) && AreRows(below, names, Kids(ns), Parents(ns))
    ensures RangesTile(above, below)
  {
    RangesPartition(ns);
    forall i | 0 <= i < |ns| ensures Begin(ns, i) + |ns[i].kids| == Begin(ns, i + 1) {
      ChildRange(ns, i);
    }
    forall j | 0 <= j < |below|
      ensures var p := below[j].parentIdx;
                p < |above| && above[p].childBegin <= j < above[p].childBegin + above[p].childCount
    {
      var p := Parents(ns)[j];
      assert IsRow(below[j], names, Kids(ns), Parents(ns), j) && IsRow(above[p], names, ns, parents, p);
    }
  }

  /** The rows of the index are the rows of the array. */
  lemma IndexHoldsRows(index: seq<IndexedEntry>, rows: seq<FlatEntry>)
    requires IsIndex(index, rows)
    ensures forall e | e in index :: e.flatIdx < |rows| && rows[e.flatIdx].catalogId == e.id
    ensures forall i | 0 <= i < |rows| :: IndexedEntry(rows[i].catalogId, i) in index
  {
    forall e | e in index ensures e.flatIdx < |rows| && rows[e.flatIdx].catalogId == e.id {
      assert e in multiset(IndexOf(rows));
    }
    forall i | 0 <= i < |rows| ensures IndexedEntry(rows[i].catalogId, i) in index {
      assert IndexOf(rows)[i] in multiset(index);
    }
  }
}
