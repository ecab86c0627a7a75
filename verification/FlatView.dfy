/** What the arrays of a flattened catalog say about the entries it was made from, read off the arrays
    alone: names through the dictionary and the parent positions, ids, and the columns of every table. */
module FlatView {
  import opened Common
  import opened Order
  import opened DescriptorPool
  import opened CatalogState
  import opened Precedence
  import opened Layout
  import opened Outline
  import opened Flatten

  // ----- reading names off the arrays -----

  /** Names can be looked up in the dictionary, and parents exist. */
  ghost predicate Decodable(flat: FlatCatalog) {
    && (forall i | 0 <= i < |flat.databases| :: flat.databases[i].nameId < |flat.dictionary|)
    && (forall i | 0 <= i < |flat.schemas| ::
          flat.schemas[i].nameId < |flat.dictionary| && flat.schemas[i].parentIdx < |flat.databases|)
    && (forall i | 0 <= i < |flat.tables| ::
          flat.tables[i].nameId < |flat.dictionary| && flat.tables[i].parentIdx < |flat.schemas|)
    && (forall i | 0 <= i < |flat.columns| ::
          flat.columns[i].nameId < |flat.dictionary| && flat.columns[i].parentIdx < |flat.tables|)
  }

  ghost function DatabaseAt(flat: FlatCatalog, i: nat): Name
    requires Decodable(flat) && i < |flat.databases|
  {
    flat.dictionary[flat.databases[i].nameId]
  }

  ghost function SchemaAt(flat: FlatCatalog, i: nat): SchemaName
    requires Decodable(flat) && i < |flat.schemas|
  {
    SchemaName(DatabaseAt(flat, flat.schemas[i].parentIdx), flat.dictionary[flat.schemas[i].nameId])
  }

  ghost function TableAt(flat: FlatCatalog, i: nat): TableName
    requires Decodable(flat) && i < |flat.tables|
  {
    TableName(SchemaAt(flat, flat.tables[i].parentIdx), flat.dictionary[flat.tables[i].nameId])
  }

  /** The children of the row are these columns, in order and numbered by their places. */
  ghost predicate HasColumns(flat: FlatCatalog, i: nat, columns: seq<Name>)
    requires Decodable(flat) && i < |flat.tables|
  {
    var begin := flat.tables[i].childBegin;
    && flat.tables[i].childCount == |columns| && begin + |columns| <= |flat.columns|
    && forall c | 0 <= c < |columns| ::
         var row := flat.columns[begin + c];
         row.parentIdx == i && row.catalogId == c && flat.dictionary[row.nameId] == columns[c]
  }

  // ----- what the arrays show -----

  ghost predicate HasDatabaseRow(flat: FlatCatalog, d: Name, id: nat)
    requires Decodable(flat)
  {
    exists i :: 0 <= i < |flat.databases| && DatabaseAt(flat, i) == d && flat.databases[i].catalogId == id
  }

  ghost predicate HasSchemaRow(flat: FlatCatalog, n: SchemaName, id: nat)
    requires Decodable(flat)
  {
    exists i :: 0 <= i < |flat.schemas| && SchemaAt(flat, i) == n && flat.schemas[i].catalogId == id
  }

  ghost predicate HasTableRow(flat: FlatCatalog, k: TableName)
    requires Decodable(flat)
  {
    exists i :: 0 <= i < |flat.tables| && TableAt(flat, i) == k
  }

  /** An entry holds the name of the row with its id. */
  ghost predicate IsHeldDatabase(flat: FlatCatalog, r: Registry, i: nat)
    requires Decodable(flat) && Readable(r) && i < |flat.databases|
  {
    HasDatabase(r, DatabaseAt(flat, i), flat.databases[i].catalogId)
  }

  /** An entry holds the name of the row with its id and the id of the row of its database. */
  ghost predicate IsHeldSchema(flat: FlatCatalog, r: Registry, i: nat)
    requires Decodable(flat) && Readable(r) && i < |flat.schemas|
  {
    HasSchema(r, SchemaAt(flat, i),
      SchemaIds(flat.databases[flat.schemas[i].parentIdx].catalogId, flat.schemas[i].catalogId))
  }

  /** Every database of an entry has exactly one row, with its id; rows are in name order. */
  ghost predicate ShowsDatabases(flat: FlatCatalog, r: Registry)
    requires Decodable(flat) && Readable(r)
  {
    && (forall i, j | 0 <= i < j < |flat.databases| :: NameLess(DatabaseAt(flat, i), DatabaseAt(flat, j)))
    && (forall i | 0 <= i < |flat.databases| :: IsHeldDatabase(flat, r, i))
    && (forall id, d | id in r.entries && d in EntryAt(r, id).databases ::
          HasDatabaseRow(flat, d, EntryAt(r, id).databases[d]))
  }

  /** Every schema of an entry has exactly one row, with its id, under the row of its database; rows are
      in the order of full names. */
  ghost predicate ShowsSchemas(flat: FlatCatalog, r: Registry)
    requires Decodable(flat) && Readable(r)
  {
    && (forall i, j | 0 <= i < j < |flat.schemas| :: SchemaNameLess(SchemaAt(flat, i), SchemaAt(flat, j)))
    && (forall i | 0 <= i < |flat.schemas| :: IsHeldSchema(flat, r, i))
    && (forall id, n | id in r.entries && n in EntryAt(r, id).schemas ::
          HasSchemaRow(flat, n, EntryAt(r, id).schemas[n].schema))
  }

  /** The row has the id and the columns of this declaration, which wins for its name. */
  ghost predicate ShowsTable(flat: FlatCatalog, r: Registry, i: nat, t: Table)
    requires Decodable(flat) && Readable(r) && i < |flat.tables|
  {
    && IsWinner(r, Declaring(r, TableAt(flat, i), None), TableAt(flat, i), Some(t))
    && flat.tables[i].catalogId == Pack(t.id) && HasColumns(flat, i, t.columns)
  }

  ghost predicate ShowsWinner(flat: FlatCatalog, r: Registry, i: nat)
    requires Decodable(flat) && Readable(r) && i < |flat.tables|
  {
    exists t :: ShowsTable(flat, r, i, t)
  }

  /** Every table that an entry declares has exactly one row, with the id and the columns of the declaration
      that wins by rank; rows are in the order of full names. */
  ghost predicate ShowsTables(flat: FlatCatalog, r: Registry)
    requires Decodable(flat) && Readable(r)
  {
    && (forall i, j | 0 <= i < j < |flat.tables| :: TableNameLess(TableAt(flat, i), TableAt(flat, j)))
    && (forall i | 0 <= i < |flat.tables| :: ShowsWinner(flat, r, i))
    && (forall id, name | id in r.entries && Declares(EntryAt(r, id), name) :: HasTableRow(flat, name))
  }

  // ----- parents in the tree are parents by name -----

  ghost predicate SchemasBelong(parents: seq<nat>, over: seq<SchemaName>, ds: seq<Name>) {
    |parents| == |over| && forall j | 0 <= j < |over| :: parents[j] < |ds| && over[j].database == ds[parents[j]]
  }

  ghost predicate TablesBelong(parents: seq<nat>, over: seq<TableName>, ns: seq<SchemaName>) {
    |parents| == |over| && forall j | 0 <= j < |over| :: parents[j] < |ns| && over[j].schemaName == ns[parents[j]]
  }

  lemma MoreSchemasBelong(parents: seq<nat>, over: seq<SchemaName>, front: seq<Name>, last: Name,
                          under: seq<SchemaName>)
    requires SchemasBelong(parents, over, front) && forall n | n in under :: n.database == last
    ensures SchemasBelong(parents + Repeated(|front|, |under|), over + under, front + [last])
  {
  }

  lemma LastSchemaParents(ids: Ids, ts: seq<Table>, front: seq<Name>, last: Name)
    requires (forall d | d in front :: d in ids.databases) && last in ids.databases
    ensures Parents(DatabaseNodes(ids, ts, front + [last]))
         == Parents(DatabaseNodes(ids, ts, front)) + Repeated(|front|, |SchemasUnder(ids, last)|)
  {
    assert DatabaseNodes(ids, ts, front + [last]) == DatabaseNodes(ids, ts, front) + [DatabaseNode(ids, ts, last)];
    KidsOfAppend(DatabaseNodes(ids, ts, front), DatabaseNode(ids, ts, last));
  }

  lemma {:induction false} SchemaParents(ids: Ids, ts: seq<Table>, ds: seq<Name>)
    requires forall d | d in ds :: d in ids.databases
    ensures SchemasBelong(Parents(DatabaseNodes(ids, ts, ds)), SchemasOver(ids, ds), ds)
    decreases |ds|
  {
    if ds != [] {
      var front, last := ds[..|ds| - 1], ds[|ds| - 1];
      assert ds == front + [last];
      SchemaParents(ids, ts, front);
      LastSchemaParents(ids, ts, front, last);
      MoreSchemasBelong(Parents(DatabaseNodes(ids, ts, front)), SchemasOver(ids, front), front, last,
                        SchemasUnder(ids, last));
    }
  }

  lemma MoreTablesBelong(parents: seq<nat>, over: seq<TableName>, front: seq<SchemaName>, last: SchemaName,
                         under: seq<TableName>)
    requires TablesBelong(parents, over, front) && forall k | k in under :: k.schemaName == last
    ensures TablesBelong(parents + Repeated(|front|, |under|), over + under, front + [last])
  {
  }

  lemma LastTableParents(ids: Ids, ts: seq<Table>, front: seq<SchemaName>, last: SchemaName)
    requires (forall n | n in front :: n in ids.schemas) && last in ids.schemas
    ensures Parents(SchemaNodes(ids, ts, front + [last]))
         == Parents(SchemaNodes(ids, ts, front)) + Repeated(|front|, |TablesUnder(ts, last)|)
  {
    assert SchemaNodes(ids, ts, front + [last]) == SchemaNodes(ids, ts, front) + [SchemaNode(ids, ts, last)];
    KidsOfAppend(SchemaNodes(ids, ts, front), SchemaNode(ids, ts, last));
  }

  lemma {:induction false} TableParents(ids: Ids, ts: seq<Table>, ns: seq<SchemaName>)
    requires forall n | n in ns :: n in ids.schemas
    ensures TablesBelong(Parents(SchemaNodes(ids, ts, ns)), TablesOver(ts, ns), ns)
    decreases |ns|
  {
    if ns != [] {
      var front, last := ns[..|ns| - 1], ns[|ns| - 1];
      assert ns == front + [last];
      TableParents(ids, ts, front);
      LastTableParents(ids, ts, front, last);
      MoreTablesBelong(Parents(SchemaNodes(ids, ts, front)), TablesOver(ts, front), front, last, TablesUnder(ts, last));
    }
  }

  // ----- the rows of an outline -----

  /** The rows name, identify and place the nodes. */
  ghost predicate Tells(rows: seq<FlatEntry>, dictionary: seq<Name>, ns: seq<Node>, parents: seq<nat>) {
    |rows| == |ns| == |parents| && forall j | 0 <= j < |ns| ::
      && Decodes(dictionary, rows[j].nameId, ns[j].name)
      && rows[j].catalogId == ns[j].id && rows[j].parentIdx == parents[j]
  }

  lemma {:induction false} RowsTell(rows: seq<FlatEntry>, dictionary: seq<Name>, ns: seq<Node>, parents: seq<nat>)
    requires AreRows(rows, dictionary, ns, parents)
    ensures Tells(rows, dictionary, ns, parents)
  {
    forall j | 0 <= j < |ns|
      ensures Decodes(dictionary, rows[j].nameId, ns[j].name)
                && rows[j].catalogId == ns[j].id && rows[j].parentIdx == parents[j]
    {
      assert IsRow(rows[j], dictionary, ns, parents, j);
    }
  }

  /** The positions of the parents are positions of the level above. */
  ghost predicate Within(parents: seq<nat>, count: nat) { forall j | 0 <= j < |parents| :: parents[j] < count }

  lemma {:induction false} ParentsWithin(ns: seq<Node>)
    ensures Within(Parents(ns), |ns|)
  {
    RangesPartition(ns);
  }

  lemma {:induction false} ShownIsDecodable(flat: FlatCatalog, ns: seq<Node>)
    requires Shows(flat, ns)
    ensures Decodable(flat)
    ensures |flat.databases| == |ns| && forall i | 0 <= i < |ns| ::
              DatabaseAt(flat, i) == ns[i].name && flat.databases[i].catalogId == ns[i].id
    ensures Tells(flat.schemas, flat.dictionary, Kids(ns), Parents(ns))
    ensures Tells(flat.tables, flat.dictionary, Kids(Kids(ns)), Parents(Kids(ns)))
    ensures Tells(flat.columns, flat.dictionary, Kids(Kids(Kids(ns))), Parents(Kids(Kids(ns))))
  {
    var ss, ts := Kids(ns), Kids(Kids(ns));
    RowsTell(flat.schemas, flat.dictionary, ss, Parents(ns));
    RowsTell(flat.tables, flat.dictionary, ts, Parents(ss));
    RowsTell(flat.columns, flat.dictionary, Kids(ts), Parents(ts));
    ParentsWithin(ns);
    ParentsWithin(ss);
    ParentsWithin(ts);
    forall i | 0 <= i < |ns|
      ensures Decodes(flat.dictionary, flat.databases[i].nameId, ns[i].name)
                && flat.databases[i].catalogId == ns[i].id
    {
      assert IsDatabaseRow(flat.databases[i], flat.dictionary, ns, i);
    }
  }

  /** Schemas are named by their rows and the rows of their databases. */
  lemma {:induction false} SchemasNamed(flat: FlatCatalog, ids: Ids, ts: seq<Table>, ds: seq<Name>, ns: seq<SchemaName>,
                                        parents: seq<nat>)
    requires Decodable(flat) && (forall n | n in ns :: n in ids.schemas) && SchemasBelong(parents, ns, ds)
    requires |flat.databases| == |ds| && forall i | 0 <= i < |ds| :: DatabaseAt(flat, i) == ds[i]
    requires Tells(flat.schemas, flat.dictionary, SchemaNodes(ids, ts, ns), parents)
    ensures |flat.schemas| == |ns| && forall i | 0 <= i < |ns| ::
              SchemaAt(flat, i) == ns[i] && flat.schemas[i].catalogId == ids.schemas[ns[i]]
  {
  }

  /** Tables are named by their rows and the rows of their schemas. */
  lemma {:induction false} TablesNamed(flat: FlatCatalog, ts: seq<Table>, ns: seq<SchemaName>, ks: seq<TableName>,
                                       parents: seq<nat>)
    requires Decodable(flat) && (forall k | k in ks :: Mentions(ts, k)) && TablesBelong(parents, ks, ns)
    requires |flat.schemas| == |ns| && forall i | 0 <= i < |ns| :: SchemaAt(flat, i) == ns[i]
    requires Tells(flat.tables, flat.dictionary, TableNodes(ts, ks), parents)
    ensures |flat.tables| == |ks| && forall i | 0 <= i < |ks| ::
              TableAt(flat, i) == ks[i] && flat.tables[i].catalogId == Pack(FirstNamed(ts, ks[i]).id)
  {
  }

  lemma {:induction false} KidAt(ns: seq<Node>, i: nat, c: nat)
    requires i < |ns| && c < |ns[i].kids|
    ensures Begin(ns, i) + c < |Kids(ns)| == |Parents(ns)|
    ensures Kids(ns)[Begin(ns, i) + c] == ns[i].kids[c] && Parents(ns)[Begin(ns, i) + c] == i
  {
    ChildRange(ns, i);
    assert Kids(ns)[Begin(ns, i)..Begin(ns, i + 1)][c] == Kids(ns)[Begin(ns, i) + c];
  }

  lemma {:induction false} ColumnRow(rows: seq<FlatEntry>, dictionary: seq<Name>, ns: seq<Node>, i: nat, c: nat)
    requires Tells(rows, dictionary, Kids(ns), Parents(ns)) && i < |ns| && c < |ns[i].kids|
    ensures var j := Begin(ns, i) + c;
      && j < |rows| && rows[j].parentIdx == i && rows[j].catalogId == ns[i].kids[c].id
      && Decodes(dictionary, rows[j].nameId, ns[i].kids[c].name)
  {
    KidAt(ns, i, c);
  }

  /** The columns of a table are the children of its row. */
  lemma {:induction false} ColumnsShown(flat: FlatCatalog, nodes: seq<Node>, i: nat, columns: seq<Name>)
    requires Decodable(flat) && i < |nodes| == |flat.tables| && nodes[i].kids == ColumnNodes(columns)
    requires flat.tables[i].childBegin == Begin(nodes, i) && flat.tables[i].childCount == |columns|
    requires Tells(flat.columns, flat.dictionary, Kids(nodes), Parents(nodes))
    ensures HasColumns(flat, i, columns)
  {
    ChildRange(nodes, i);
    forall c | 0 <= c < |columns|
      ensures var row := flat.columns[Begin(nodes, i) + c];
        row.parentIdx == i && row.catalogId == c && flat.dictionary[row.nameId] == columns[c]
    {
      ColumnRow(flat.columns, flat.dictionary, nodes, i, c);
    }
  }

  ghost predicate ListsDatabases(flat: FlatCatalog, ids: map<Name, nat>, ds: seq<Name>)
    requires Decodable(flat) && forall d | d in ds :: d in ids
  {
    |flat.databases| == |ds| && forall i | 0 <= i < |ds| ::
      DatabaseAt(flat, i) == ds[i] && flat.databases[i].catalogId == ids[ds[i]]
  }

  ghost predicate ListsSchemas(flat: FlatCatalog, ids: map<SchemaName, nat>, ns: seq<SchemaName>)
    requires Decodable(flat) && forall n | n in ns :: n in ids
  {
    |flat.schemas| == |ns| && forall i | 0 <= i < |ns| ::
      SchemaAt(flat, i) == ns[i] && flat.schemas[i].catalogId == ids[ns[i]]
  }

  ghost predicate ListsTables(flat: FlatCatalog, ts: seq<Table>, ks: seq<TableName>)
    requires Decodable(flat) && forall k | k in ks :: Mentions(ts, k)
  {
    |flat.tables| == |ks| && forall i | 0 <= i < |ks| ::
      && TableAt(flat, i) == ks[i] && HasColumns(flat, i, FirstNamed(ts, ks[i]).columns)
      && flat.tables[i].catalogId == Pack(FirstNamed(ts, ks[i]).id)
  }

  lemma {:induction false} TablesShown(flat: FlatCatalog, ts: seq<Table>, ns: seq<SchemaName>, ks: seq<TableName>,
                                       parents: seq<nat>)
    requires Decodable(flat) && (forall k | k in ks :: Mentions(ts, k)) && TablesBelong(parents, ks, ns)
    requires |flat.schemas| == |ns| && forall i | 0 <= i < |ns| :: SchemaAt(flat, i) == ns[i]
    requires AreRows(flat.tables, flat.dictionary, TableNodes(ts, ks), parents)
    requires AreRows(flat.columns, flat.dictionary, Kids(TableNodes(ts, ks)), Parents(TableNodes(ts, ks)))
    ensures ListsTables(flat, ts, ks)
  {
    RowsTell(flat.tables, flat.dictionary, TableNodes(ts, ks), parents);
    TablesNamed(flat, ts, ns, ks, parents);
    RowsTell(flat.columns, flat.dictionary, Kids(TableNodes(ts, ks)), Parents(TableNodes(ts, ks)));
    forall i | 0 <= i < |ks| ensures HasColumns(flat, i, FirstNamed(ts, ks[i]).columns) {
      assert IsRow(flat.tables[i], flat.dictionary, TableNodes(ts, ks), parents, i);
      ColumnsShown(flat, TableNodes(ts, ks), i, FirstNamed(ts, ks[i]).columns);
    }
  }

  /** The levels of the outline, by the names that they list. */
  lemma {:induction false} LevelsShown(flat: FlatCatalog, ids: Ids, ts: seq<Table>, ds: seq<Name>)
    requires Rooted(ids, ts) && (forall d | d in ds :: d in ids.databases) && Shows(flat, DatabaseNodes(ids, ts, ds))
    ensures var ns := SchemasOver(ids, ds); var ks := TablesOver(ts, ns);
      && Tells(flat.schemas, flat.dictionary, SchemaNodes(ids, ts, ns), Parents(DatabaseNodes(ids, ts, ds)))
      && AreRows(flat.tables, flat.dictionary, TableNodes(ts, ks), Parents(SchemaNodes(ids, ts, ns)))
      && AreRows(flat.columns, flat.dictionary, Kids(TableNodes(ts, ks)), Parents(TableNodes(ts, ks)))
  {
    SchemaLevel(ids, ts, ds);
    TableLevel(ids, ts, SchemasOver(ids, ds));
    ShownIsDecodable(flat, DatabaseNodes(ids, ts, ds));
  }

  lemma {:induction false} DatabasesShown(flat: FlatCatalog, ids: Ids, ts: seq<Table>, ds: seq<Name>)
    requires (forall d | d in ds :: d in ids.databases) && Shows(flat, DatabaseNodes(ids, ts, ds))
    ensures Decodable(flat) && ListsDatabases(flat, ids.databases, ds)
  {
    var nodes := DatabaseNodes(ids, ts, ds);
    ShownIsDecodable(flat, nodes);
    assert forall i | 0 <= i < |ds| :: nodes[i].name == ds[i] && nodes[i].id == ids.databases[ds[i]];
  }

  lemma {:induction false} SchemasShown(flat: FlatCatalog, ids: Ids, ts: seq<Table>, ds: seq<Name>)
    requires Rooted(ids, ts) && (forall d | d in ds :: d in ids.databases) && Shows(flat, DatabaseNodes(ids, ts, ds))
    ensures Decodable(flat) && ListsSchemas(flat, ids.schemas, SchemasOver(ids, ds))
  {
    DatabasesShown(flat, ids, ts, ds);
    LevelsShown(flat, ids, ts, ds);
    SchemaParents(ids, ts, ds);
    SchemasNamed(flat, ids, ts, ds, SchemasOver(ids, ds), Parents(DatabaseNodes(ids, ts, ds)));
  }

  /** The rows are those of the names of the outline, with their ids and columns. */
  lemma {:induction false} OutlineShown(flat: FlatCatalog, ids: Ids, ts: seq<Table>, ds: seq<Name>)
    requires Rooted(ids, ts) && (forall d | d in ds :: d in ids.databases) && Shows(flat, DatabaseNodes(ids, ts, ds))
    ensures Decodable(flat) && ListsDatabases(flat, ids.databases, ds)
    ensures ListsSchemas(flat, ids.schemas, SchemasOver(ids, ds))
    ensures ListsTables(flat, ts, TablesOver(ts, SchemasOver(ids, ds)))
  {
    var ns := SchemasOver(ids, ds);
    DatabasesShown(flat, ids, ts, ds);
    SchemasShown(flat, ids, ts, ds);
    LevelsShown(flat, ids, ts, ds);
    TableParents(ids, ts, ns);
    TablesShown(flat, ts, ns, TablesOver(ts, ns), Parents(SchemaNodes(ids, ts, ns)));
  }

  // ----- the main result -----

  lemma HeldDatabase(r: Registry, d: Name, i: nat)
    requires Readable(r) && Consistent(r) && HasDatabase(r, d, i)
    ensures d in AllDatabases(r) && i == DatabaseId(r, d)
  {
    var q :| q in r.entries && d in EntryAt(r, q).databases && EntryAt(r, q).databases[d] == i;
    ConsistentIds(r, q);
  }

  lemma DatabaseRowFound(flat: FlatCatalog, r: Registry, ds: seq<Name>, id: EntryId, d: Name)
    requires Decodable(flat) && Readable(r) && Consistent(r) && id in r.entries && d in EntryAt(r, id).databases
    requires (forall e :: e in ds <==> e in AllDatabases(r)) && ListsDatabases(flat, IdsOf(r).databases, ds)
    ensures HasDatabaseRow(flat, d, EntryAt(r, id).databases[d])
  {
    ConsistentIds(r, id);
    assert d in ds;
    var i :| 0 <= i < |ds| && ds[i] == d;
    assert DatabaseAt(flat, i) == d;
  }

  lemma DatabasesAgree(flat: FlatCatalog, r: Registry, ds: seq<Name>)
    requires Decodable(flat) && Readable(r) && Consistent(r) && Ascending(NameLess, ds)
    requires (forall d :: d in ds <==> d in AllDatabases(r)) && ListsDatabases(flat, IdsOf(r).databases, ds)
    ensures ShowsDatabases(flat, r)
  {
    forall i | 0 <= i < |flat.databases| ensures IsHeldDatabase(flat, r, i) {
      assert ds[i] in ds && DatabaseAt(flat, i) == ds[i];
    }
    forall id, d | id in r.entries && d in EntryAt(r, id).databases
      ensures HasDatabaseRow(flat, d, EntryAt(r, id).databases[d])
    {
      DatabaseRowFound(flat, r, ds, id, d);
    }
  }

  /** The ids of a schema row and of its database row are those that an entry holds for the schema. */
  lemma SchemaHeld(r: Registry, n: SchemaName, database: nat)
    requires Readable(r) && Consistent(r) && n in AllSchemas(r) && HasDatabase(r, n.database, database)
    ensures HasSchema(r, n, SchemaIds(database, SchemaIdsOf(r, n).schema))
  {
    HeldDatabase(r, n.database, database);
    var id :| id in r.entries && n in EntryAt(r, id).schemas && EntryAt(r, id).schemas[n] == SchemaIdsOf(r, n);
    ConsistentIds(r, id);
  }

  lemma SchemaRowFound(flat: FlatCatalog, r: Registry, ns: seq<SchemaName>, id: EntryId, n: SchemaName)
    requires Decodable(flat) && Readable(r) && Consistent(r) && id in r.entries && n in EntryAt(r, id).schemas
    requires (forall m :: m in ns <==> m in AllSchemas(r)) && ListsSchemas(flat, IdsOf(r).schemas, ns)
    ensures HasSchemaRow(flat, n, EntryAt(r, id).schemas[n].schema)
  {
    ConsistentIds(r, id);
    assert n in ns;
    var i :| 0 <= i < |ns| && ns[i] == n;
    assert SchemaAt(flat, i) == n;
  }

  lemma SchemaRowHeld(flat: FlatCatalog, r: Registry, ns: seq<SchemaName>, i: nat)
    requires Decodable(flat) && Readable(r) && Consistent(r) && i < |flat.schemas|
    requires IsHeldDatabase(flat, r, flat.schemas[i].parentIdx)
    requires (forall m :: m in ns <==> m in AllSchemas(r)) && ListsSchemas(flat, IdsOf(r).schemas, ns)
    ensures IsHeldSchema(flat, r, i)
  {
    assert ns[i] in ns && SchemaAt(flat, i) == ns[i];
    SchemaHeld(r, ns[i], flat.databases[flat.schemas[i].parentIdx].catalogId);
  }

  lemma SchemasAgree(flat: FlatCatalog, r: Registry, ns: seq<SchemaName>)
    requires Decodable(flat) && Readable(r) && Consistent(r) && Ascending(SchemaNameLess, ns)
    requires forall p | 0 <= p < |flat.databases| :: IsHeldDatabase(flat, r, p)
    requires (forall n :: n in ns <==> n in AllSchemas(r)) && ListsSchemas(flat, IdsOf(r).schemas, ns)
    ensures ShowsSchemas(flat, r)
  {
    forall i, j | 0 <= i < j < |flat.schemas| ensures SchemaNameLess(SchemaAt(flat, i), SchemaAt(flat, j)) {
      assert SchemaNameLess(ns[i], ns[j]);
    }
    forall i | 0 <= i < |flat.schemas| ensures IsHeldSchema(flat, r, i) {
      SchemaRowHeld(flat, r, ns, i);
    }
    forall id, n | id in r.entries && n in EntryAt(r, id).schemas
      ensures HasSchemaRow(flat, n, EntryAt(r, id).schemas[n].schema)
    {
      SchemaRowFound(flat, r, ns, id, n);
    }
  }

  lemma DeclaredIsMentioned(r: Registry, id: EntryId, name: TableName)
    requires Readable(r) && id in r.entries && Declares(EntryAt(r, id), name)
    ensures Mentions(Declarations(r), name)
  {
    RanksAreOrdered();
    var k :| k in r.ranked && k.id == id;
    MentionedByEntry(r, Listing(RankLess, r.ranked), k, name);
  }

  lemma TablesAgree(flat: FlatCatalog, r: Registry, ks: seq<TableName>)
    requires Decodable(flat) && Readable(r) && Ascending(TableNameLess, ks)
    requires (forall k :: k in ks <==> Mentions(Declarations(r), k)) && ListsTables(flat, Declarations(r), ks)
    ensures ShowsTables(flat, r)
  {
    forall i, j | 0 <= i < j < |flat.tables| ensures TableNameLess(TableAt(flat, i), TableAt(flat, j)) {
      assert TableNameLess(ks[i], ks[j]);
    }
    forall i | 0 <= i < |flat.tables| ensures ShowsWinner(flat, r, i) {
      assert ks[i] in ks && TableAt(flat, i) == ks[i];
      KeptIsWinner(r, ks[i]);
      assert ShowsTable(flat, r, i, FirstNamed(Declarations(r), ks[i]));
    }
    forall id, name | id in r.entries && Declares(EntryAt(r, id), name)
      ensures HasTableRow(flat, name)
    {
      DeclaredIsMentioned(r, id, name);
      assert name in ks;
      var i :| 0 <= i < |ks| && ks[i] == name;
      assert TableAt(flat, i) == name;
    }
  }

  lemma SchemaOrder(ids: Ids, ts: seq<Table>)
    requires Rooted(ids, ts)
    ensures var ns := SchemasOver(ids, AllDatabasesListed(ids));
      && Ascending(SchemaNameLess, ns) && (forall n :: n in ns <==> n in ids.schemas)
      && Ascending(TableNameLess, TablesOver(ts, ns)) && forall k :: k in TablesOver(ts, ns) <==> Mentions(ts, k)
  {
    SchemasOverAscends(ids, AllDatabasesListed(ids));
    TablesOverAscends(ts, SchemasOver(ids, AllDatabasesListed(ids)));
  }

  /** The arrays alone tell every database, schema and table of every entry exactly once, in name order,
      with its id; and for every table the columns of the declaration that wins by rank. */
  lemma FlatShowsCatalog(flat: FlatCatalog, r: Registry)
    requires Readable(r) && Consistent(r) && Shows(flat, OutlineOf(r))
    ensures Decodable(flat) && ShowsDatabases(flat, r) && ShowsSchemas(flat, r) && ShowsTables(flat, r)
  {
    var ids, ts := IdsOf(r), Declarations(r);
    var ds := AllDatabasesListed(ids);
    var ns := SchemasOver(ids, ds);
    RegistriesAreRooted(r);
    OutlineShown(flat, ids, ts, ds);
    SchemaOrder(ids, ts);
    DatabasesAgree(flat, r, ds);
    SchemasAgree(flat, r, ns);
    TablesAgree(flat, r, TablesOver(ts, ns));
  }

  lemma TableRowIsWinner(flat: FlatCatalog, r: Registry, i: nat, found: Option<Table>)
    requires Decodable(flat) && Readable(r) && ShowsTables(flat, r) && i < |flat.tables|
    requires IsWinner(r, Declaring(r, TableAt(flat, i), None), TableAt(flat, i), found)
    ensures found.Some? && flat.tables[i].catalogId == Pack(found.value.id) && HasColumns(flat, i, found.value.columns)
  {
    var name := TableAt(flat, i);
    assert ShowsWinner(flat, r, i);
    var t :| ShowsTable(flat, r, i, t);
    WinnerIsUnique(r, Declaring(r, name, None), name, Some(t), found);
  }

  lemma TableRowsDiffer(flat: FlatCatalog, r: Registry)
    requires Decodable(flat) && Readable(r) && ShowsTables(flat, r)
    ensures forall i, j | 0 <= i < j < |flat.tables| :: TableAt(flat, i) != TableAt(flat, j)
  {
    FullNamesAreOrdered();
    forall i, j | 0 <= i < j < |flat.tables| ensures TableAt(flat, i) != TableAt(flat, j) {
      assert TableNameLess(TableAt(flat, i), TableAt(flat, j));
    }
  }

  lemma WinnerHasRow(flat: FlatCatalog, r: Registry, name: TableName, found: Option<Table>)
    requires Decodable(flat) && Readable(r) && ShowsTables(flat, r)
    requires IsWinner(r, Declaring(r, name, None), name, found)
    ensures found.Some? ==> HasTableRow(flat, name)
  {
    if found.Some? {
      var k :| k in Declaring(r, name, None);
      assert k.id in r.entries && Declares(EntryAt(r, k.id), name);
    }
  }

  /** The row of the name, if there is one, is that of the table that was found. */
  ghost predicate RowsMatch(flat: FlatCatalog, name: TableName, found: Option<Table>)
    requires Decodable(flat)
  {
    && (found.Some? <==> HasTableRow(flat, name))
    && forall i | 0 <= i < |flat.tables| && TableAt(flat, i) == name ::
         found.Some? && flat.tables[i].catalogId == Pack(found.value.id) && HasColumns(flat, i, found.value.columns)
  }

  lemma WinnerMatches(flat: FlatCatalog, r: Registry, name: TableName, found: Option<Table>)
    requires Decodable(flat) && Readable(r) && ShowsTables(flat, r)
    requires IsWinner(r, Declaring(r, name, None), name, found)
    ensures RowsMatch(flat, name, found)
  {
    WinnerHasRow(flat, r, name, found);
    forall i | 0 <= i < |flat.tables| && TableAt(flat, i) == name
      ensures found.Some? && flat.tables[i].catalogId == Pack(found.value.id)
                && HasColumns(flat, i, found.value.columns)
    {
      TableRowIsWinner(flat, r, i, found);
    }
  }

  /** A flattened catalog and a lookup agree: there is a row of the name exactly if the lookup finds a
      table, there is only one, and it has the id and the columns of the table that is found. */
  lemma FlatAgreesWithLookup(flat: FlatCatalog, r: Registry, name: TableName, found: Option<Table>)
    requires Valid(r) && Readable(r) && Consistent(r) && Searchable(r.pools, r.bySchema.Keys)
    requires Shows(flat, OutlineOf(r)) && IsWinner(r, Findable(r, name, None), name, found)
    ensures Decodable(flat) && RowsMatch(flat, name, found)
    ensures forall i, j | 0 <= i < j < |flat.tables| :: TableAt(flat, i) != TableAt(flat, j)
  {
    FlatShowsCatalog(flat, r);
    FindableIsDeclaring(r, name, None);
    WinnerMatches(flat, r, name, found);
    TableRowsDiffer(flat, r);
  }
}
