/** A flattened catalog exported as a tree of names, and a tree of names turned into schema
    descriptors. */
module Export {
  import opened Common
  import opened Order
  import opened DescriptorPool
  import opened Layout
  import opened Flatten

  datatype ProtoTable = ProtoTable(name: Name, columns: seq<Name>)
  datatype ProtoSchema = ProtoSchema(name: Name, tables: seq<ProtoTable>)
  datatype ProtoDatabase = ProtoDatabase(name: Name, schemas: seq<ProtoSchema>)

  // ----- the names of a tree -----

  function ColumnNames(ns: seq<Node>): seq<Name> {
    seq(|ns|, i requires 0 <= i < |ns| => ns[i].name)
  }

  function ProtoTables(ns: seq<Node>): seq<ProtoTable> {
    seq(|ns|, i requires 0 <= i < |ns| => ProtoTable(ns[i].name, ColumnNames(ns[i].kids)))
  }

  function ProtoSchemas(ns: seq<Node>): seq<ProtoSchema> {
    seq(|ns|, i requires 0 <= i < |ns| => ProtoSchema(ns[i].name, ProtoTables(ns[i].kids)))
  }

  function ProtoDatabases(ns: seq<Node>): seq<ProtoDatabase> {
    seq(|ns|, i requires 0 <= i < |ns| => ProtoDatabase(ns[i].name, ProtoSchemas(ns[i].kids)))
  }

  ghost predicate NamesColumns(t: ProtoTable, n: Node) {
    t.name == n.name && |t.columns| == |n.kids| && forall c | 0 <= c < |n.kids| :: t.columns[c] == n.kids[c].name
  }

  ghost predicate NamesTables(s: ProtoSchema, n: Node) {
    s.name == n.name && |s.tables| == |n.kids| && forall t | 0 <= t < |n.kids| :: NamesColumns(s.tables[t], n.kids[t])
  }

  ghost predicate NamesSchemas(d: ProtoDatabase, n: Node) {
    d.name == n.name && |d.schemas| == |n.kids| && forall s | 0 <= s < |n.kids| :: NamesTables(d.schemas[s], n.kids[s])
  }

  /** Every database, schema, table and column of the tree is there by its name and at its place. */
  ghost predicate NamesTree(ds: seq<ProtoDatabase>, ns: seq<Node>) {
    |ds| == |ns| && forall i | 0 <= i < |ns| :: NamesSchemas(ds[i], ns[i])
  }

  lemma ProtoNamesTree(ns: seq<Node>)
    ensures NamesTree(ProtoDatabases(ns), ns)
  {
    forall i | 0 <= i < |ns| ensures NamesSchemas(ProtoDatabases(ns)[i], ns[i]) {
      SchemasNamed(ns[i].kids);
    }
  }

  lemma SchemasNamed(ns: seq<Node>)
    ensures forall s | 0 <= s < |ns| :: NamesTables(ProtoSchemas(ns)[s], ns[s])
  {
    forall s | 0 <= s < |ns| ensures NamesTables(ProtoSchemas(ns)[s], ns[s]) {
      TablesNamed(ns[s].kids);
    }
  }

  lemma TablesNamed(ns: seq<Node>)
    ensures forall t | 0 <= t < |ns| :: NamesColumns(ProtoTables(ns)[t], ns[t])
  {
  }

  // ----- export: children pushed into earlier-built parents -----

  /** The positions at which `p` is the parent. */
  function ChildrenOf(parents: seq<nat>, p: nat): (at: seq<nat>)
    ensures forall j | j in at :: j < |parents|
    decreases |parents|
  {
    if parents == [] then []
    else
      var last := |parents| - 1;
      ChildrenOf(parents[..last], p) + if parents[last] == p then [last] else []
  }

  function Consecutive(begin: nat, count: nat): (ps: seq<nat>)
    ensures |ps| == count && forall i | 0 <= i < count :: ps[i] == begin + i
  {
    seq(count, i => begin + i)
  }

  lemma ConsecutiveOnceMore(begin: nat, count: nat)
    ensures Consecutive(begin, count) + [begin + count] == Consecutive(begin, count + 1)
  {
  }

  lemma ChildrenOfOneMore(parents: seq<nat>, parent: nat, p: nat)
    ensures ChildrenOf(parents + [parent], p) == ChildrenOf(parents, p) + if p == parent then [|parents|] else []
  {
    assert (parents + [parent])[..|parents|] == parents;
  }

  /** What a run of `count` children adds to what `p` collects. */
  function OfRun(begin: nat, count: nat, parent: nat, p: nat): seq<nat> {
    if p == parent then Consecutive(begin, count) else []
  }

  lemma OfRunOnceMore(before: seq<nat>, begin: nat, count: nat, parent: nat, p: nat)
    ensures before + OfRun(begin, 0, parent, p) == before
    ensures (before + OfRun(begin, count, parent, p)) + (if p == parent then [begin + count] else [])
         == before + OfRun(begin, count + 1, parent, p)
  {
    ConsecutiveOnceMore(begin, count);
  }

  lemma RunOnceMore(parents: seq<nat>, parent: nat, count: nat)
    ensures parents + Repeated(parent, 0) == parents
    ensures (parents + Repeated(parent, count)) + [parent] == parents + Repeated(parent, count + 1)
  {
    RepeatedOnceMore(parent, count);
  }

  lemma {:induction false} ChildrenOfRun(parents: seq<nat>, count: nat, parent: nat, p: nat)
    ensures ChildrenOf(parents + Repeated(parent, count), p)
         == ChildrenOf(parents, p) + OfRun(|parents|, count, parent, p)
    decreases count
  {
    if count == 0 {
      RunOnceMore(parents, parent, 0);
      OfRunOnceMore(ChildrenOf(parents, p), |parents|, 0, parent, p);
    } else {
      ChildrenOfRun(parents, count - 1, parent, p);
      ChildrenOfOneMore(parents + Repeated(parent, count - 1), parent, p);
      RunOnceMore(parents, parent, count - 1);
      OfRunOnceMore(ChildrenOf(parents, p), |parents|, count - 1, parent, p);
    }
  }

  /** The positions of the children of `p`. */
  function RangeOf(ns: seq<Node>, p: nat): seq<nat> {
    if p < |ns| then Consecutive(Begin(ns, p), |ns[p].kids|) else []
  }

  lemma RangeOfOneMore(ns: seq<Node>, p: nat)
    requires ns != []
    ensures var front, last := ns[..|ns| - 1], |ns| - 1;
      RangeOf(ns, p) == RangeOf(front, p) + OfRun(|Parents(front)|, |ns[last].kids|, last, p)
  {
    var front := ns[..|ns| - 1];
    if p < |front| { assert front[..p] == ns[..p]; }
  }

  /** A parent collects exactly the positions of its child range, in order. */
  lemma {:induction false} ChildrenAreRange(ns: seq<Node>, p: nat)
    ensures ChildrenOf(Parents(ns), p) == RangeOf(ns, p)
    decreases |ns|
  {
    if ns != [] {
      var last := |ns| - 1;
      ChildrenAreRange(ns[..last], p);
      ChildrenOfRun(Parents(ns[..last]), |ns[last].kids|, last, p);
      RangeOfOneMore(ns, p);
    }
  }

  function Pick<T>(items: seq<T>, at: seq<nat>): seq<T>
    requires forall i | 0 <= i < |at| :: at[i] < |items|
  {
    seq(|at|, i requires 0 <= i < |at| => items[at[i]])
  }

  lemma PickedRange<T>(all: seq<T>, begin: nat, part: seq<T>, at: seq<nat>)
    requires begin + |part| <= |all| && all[begin..begin + |part|] == part && at == Consecutive(begin, |part|)
    ensures |at| == |part| && forall i | 0 <= i < |at| :: at[i] < |all| && all[at[i]] == part[i]
  {
    forall i | 0 <= i < |at| ensures at[i] < |all| && all[at[i]] == part[i] {
      assert all[begin..begin + |part|][i] == all[begin + i];
    }
  }

  /** The children that `p` collects are its children in the tree. */
  lemma PickedKids(ns: seq<Node>, p: nat, at: seq<nat>)
    requires p < |ns| && at == ChildrenOf(Parents(ns), p)
    ensures |at| == |ns[p].kids|
    ensures forall i | 0 <= i < |at| :: at[i] < |Kids(ns)| && Kids(ns)[at[i]] == ns[p].kids[i]
  {
    ChildrenAreRange(ns, p);
    ChildRange(ns, p);
    PickedRange(Kids(ns), Begin(ns, p), ns[p].kids, at);
  }

  /** One loop over the rows of a level: read the names, and push every row into its parent. */
  method PushChildren(rows: seq<FlatEntry>, dictionary: seq<Name>, parentCount: nat, ghost ns: seq<Node>,
                      ghost above: seq<nat>)
    returns (names: seq<Name>, pushed: seq<seq<nat>>)
    requires AreRows(rows, dictionary, ns, above) && forall j | 0 <= j < |above| :: above[j] < parentCount
    ensures names == ColumnNames(ns)
    ensures |pushed| == parentCount && forall p | 0 <= p < parentCount :: pushed[p] == ChildrenOf(above, p)
  {
    names, pushed := [], seq(parentCount, i => []);
    for i := 0 to |rows|
      invariant names == ColumnNames(ns[..i])
      invariant |pushed| == parentCount && forall p | 0 <= p < parentCount :: pushed[p] == ChildrenOf(above[..i], p)
    {
      var row := rows[i];
      assert IsRow(row, dictionary, ns, above, i);
      names := names + [dictionary[row.nameId]];
      pushed := pushed[row.parentIdx := pushed[row.parentIdx] + [i]];
      assert above[..i + 1][..i] == above[..i];
    }
    assert ns[..|rows|] == ns && above[..|rows|] == above;
  }

  method ReadDatabaseNames(rows: seq<FlatEntry>, dictionary: seq<Name>, ghost ns: seq<Node>) returns (names: seq<Name>)
    requires |rows| == |ns| && forall j | 0 <= j < |ns| :: IsDatabaseRow(rows[j], dictionary, ns, j)
    ensures names == ColumnNames(ns)
  {
    names := [];
    for i := 0 to |rows|
      invariant names == ColumnNames(ns[..i])
    {
      assert IsDatabaseRow(rows[i], dictionary, ns, i);
      names := names + [dictionary[rows[i].nameId]];
    }
    assert ns[..|rows|] == ns;
  }

  ghost predicate Pushed(ns: seq<Node>, pushed: seq<seq<nat>>) {
    |pushed| == |ns| && forall p | 0 <= p < |ns| :: pushed[p] == ChildrenOf(Parents(ns), p)
  }

  /** What the parents hold once all their children have been pushed. */
  function AssembleTables(names: seq<Name>, pushed: seq<seq<nat>>, columns: seq<Name>): seq<ProtoTable>
    requires |pushed| == |names| && forall p, i | 0 <= p < |pushed| && 0 <= i < |pushed[p]| :: pushed[p][i] < |columns|
  {
    seq(|names|, p requires 0 <= p < |names| => ProtoTable(names[p], Pick(columns, pushed[p])))
  }

  function AssembleSchemas(names: seq<Name>, pushed: seq<seq<nat>>, tables: seq<ProtoTable>): seq<ProtoSchema>
    requires |pushed| == |names| && forall p, i | 0 <= p < |pushed| && 0 <= i < |pushed[p]| :: pushed[p][i] < |tables|
  {
    seq(|names|, p requires 0 <= p < |names| => ProtoSchema(names[p], Pick(tables, pushed[p])))
  }

  function AssembleDatabases(names: seq<Name>, pushed: seq<seq<nat>>, schemas: seq<ProtoSchema>): seq<ProtoDatabase>
    requires |pushed| == |names| && forall p, i | 0 <= p < |pushed| && 0 <= i < |pushed[p]| :: pushed[p][i] < |schemas|
  {
    seq(|names|, p requires 0 <= p < |names| => ProtoDatabase(names[p], Pick(schemas, pushed[p])))
  }

  lemma PushedInRange(ns: seq<Node>, pushed: seq<seq<nat>>)
    requires Pushed(ns, pushed)
    ensures forall p, i | 0 <= p < |pushed| && 0 <= i < |pushed[p]| :: pushed[p][i] < |Kids(ns)|
  {
    forall p | 0 <= p < |pushed| ensures forall i | 0 <= i < |pushed[p]| :: pushed[p][i] < |Kids(ns)| {
      PickedKids(ns, p, pushed[p]);
    }
  }

  lemma TablesAssembled(ns: seq<Node>, pushed: seq<seq<nat>>, columns: seq<Name>)
    requires Pushed(ns, pushed) && columns == ColumnNames(Kids(ns))
    ensures forall p, i | 0 <= p < |pushed| && 0 <= i < |pushed[p]| :: pushed[p][i] < |columns|
    ensures AssembleTables(ColumnNames(ns), pushed, columns) == ProtoTables(ns)
  {
    PushedInRange(ns, pushed);
    forall p | 0 <= p < |ns| ensures Pick(columns, pushed[p]) == ColumnNames(ns[p].kids) {
      PickedKids(ns, p, pushed[p]);
    }
  }

  lemma SchemasAssembled(ns: seq<Node>, pushed: seq<seq<nat>>, tables: seq<ProtoTable>)
    requires Pushed(ns, pushed) && tables == ProtoTables(Kids(ns))
    ensures forall p, i | 0 <= p < |pushed| && 0 <= i < |pushed[p]| :: pushed[p][i] < |tables|
    ensures AssembleSchemas(ColumnNames(ns), pushed, tables) == ProtoSchemas(ns)
  {
    PushedInRange(ns, pushed);
    forall p | 0 <= p < |ns| ensures Pick(tables, pushed[p]) == ProtoTables(ns[p].kids) {
      PickedKids(ns, p, pushed[p]);
    }
  }

  lemma DatabasesAssembled(ns: seq<Node>, pushed: seq<seq<nat>>, schemas: seq<ProtoSchema>)
    requires Pushed(ns, pushed) && schemas == ProtoSchemas(Kids(ns))
    ensures forall p, i | 0 <= p < |pushed| && 0 <= i < |pushed[p]| :: pushed[p][i] < |schemas|
    ensures AssembleDatabases(ColumnNames(ns), pushed, schemas) == ProtoDatabases(ns)
  {
    PushedInRange(ns, pushed);
    forall p | 0 <= p < |ns| ensures Pick(schemas, pushed[p]) == ProtoSchemas(ns[p].kids) {
      PickedKids(ns, p, pushed[p]);
    }
  }

  /** Export a flattened catalog: whatever tree its arrays show comes out with all its names. */
  method EncodeCatalog(flat: FlatCatalog, ghost ns: seq<Node>) returns (databases: seq<ProtoDatabase>)
    requires Shows(flat, ns)
    ensures databases == ProtoDatabases(ns) && NamesTree(databases, ns)
  {
    ghost var ss, ts := Kids(ns), Kids(Kids(ns));
    RangesPartition(ns);
    RangesPartition(ss);
    RangesPartition(ts);
    var databaseNames := ReadDatabaseNames(flat.databases, flat.dictionary, ns);
    var schemaNames, schemasOf := PushChildren(flat.schemas, flat.dictionary, |flat.databases|, ss, Parents(ns));
    var tableNames, tablesOf := PushChildren(flat.tables, flat.dictionary, |flat.schemas|, ts, Parents(ss));
    var columnNames, columnsOf := PushChildren(flat.columns, flat.dictionary, |flat.tables|, Kids(ts), Parents(ts));
    TablesAssembled(ts, columnsOf, columnNames);
    var tables := AssembleTables(tableNames, columnsOf, columnNames);
    SchemasAssembled(ss, tablesOf, tables);
    var schemas := AssembleSchemas(schemaNames, tablesOf, tables);
    DatabasesAssembled(ns, schemasOf, schemas);
    databases := AssembleDatabases(databaseNames, schemasOf, schemas);
    ProtoNamesTree(ns);
  }

  // ----- import: nested loops -----

  function ColumnDescriptors(columns: seq<Name>): seq<ColumnDescriptor> {
    seq(|columns|, i requires 0 <= i < |columns| => ColumnDescriptor(Some(columns[i]), i))
  }

  function TableDescriptors(tables: seq<ProtoTable>): seq<TableDescriptor> {
    seq(|tables|, i requires 0 <= i < |tables| => TableDescriptor(tables[i].name, ColumnDescriptors(tables[i].columns)))
  }

  function SchemaDescriptors(database: Name, schemas: seq<ProtoSchema>): seq<SchemaDescriptor> {
    seq(|schemas|, i requires 0 <= i < |schemas| =>
      SchemaDescriptor(SchemaName(database, schemas[i].name), Some(TableDescriptors(schemas[i].tables))))
  }

  function Descriptors(databases: seq<ProtoDatabase>): (ds: seq<SchemaDescriptor>)
    ensures forall d | d in ds :: d.tables.Some?
    decreases |databases|
  {
    if databases == [] then []
    else
      var last := |databases| - 1;
      Descriptors(databases[..last]) + SchemaDescriptors(databases[last].name, databases[last].schemas)
  }

  /** The number of schemas in the databases before `d`. */
  function SchemasBefore(databases: seq<ProtoDatabase>, d: nat): nat
    requires d <= |databases|
  {
    if d == 0 then 0 else SchemasBefore(databases, d - 1) + |databases[d - 1].schemas|
  }

  lemma {:induction false} DescriptorsBefore(databases: seq<ProtoDatabase>, d: nat)
    requires d <= |databases|
    ensures |Descriptors(databases[..d])| == SchemasBefore(databases, d)
    ensures Descriptors(databases[..d]) <= Descriptors(databases)
    decreases |databases|
  {
    if d == |databases| {
      assert databases[..d] == databases;
      if d > 0 {
        DescriptorsBefore(databases[..d - 1], d - 1);
        assert databases[..d - 1][..d - 1] == databases[..d - 1];
        SameSchemasBefore(databases, databases[..d - 1], d - 1);
      }
    } else {
      var front := databases[..|databases| - 1];
      DescriptorsBefore(front, d);
      assert front[..d] == databases[..d];
      SameSchemasBefore(databases, front, d);
    }
  }

  lemma {:induction false} SameSchemasBefore(a: seq<ProtoDatabase>, b: seq<ProtoDatabase>, d: nat)
    requires d <= |a| && d <= |b| && a[..d] == b[..d]
    ensures SchemasBefore(a, d) == SchemasBefore(b, d)
    decreases d
  {
    if d > 0 {
      assert a[..d][d - 1] == b[..d][d - 1];
      assert a[..d - 1] == a[..d][..d - 1] && b[..d - 1] == b[..d][..d - 1];
      SameSchemasBefore(a, b, d - 1);
    }
  }

  /** There is one descriptor per schema, in order, with its tables and columns in order; the ordinal of a
      column is its place in its table. */
  lemma DescriptorsInOrder(databases: seq<ProtoDatabase>, d: nat, s: nat)
    requires d < |databases| && s < |databases[d].schemas|
    ensures |Descriptors(databases)| == SchemasBefore(databases, |databases|)
    ensures SchemasBefore(databases, d) + s < |Descriptors(databases)|
    ensures var descriptor, schema := Descriptors(databases)[SchemasBefore(databases, d) + s], databases[d].schemas[s];
      && descriptor.name == SchemaName(databases[d].name, schema.name)
      && |descriptor.tables.value| == |schema.tables|
      && forall t | 0 <= t < |schema.tables| ::
           && descriptor.tables.value[t].name == schema.tables[t].name
           && |descriptor.tables.value[t].columns| == |schema.tables[t].columns|
           && forall c | 0 <= c < |schema.tables[t].columns| ::
                descriptor.tables.value[t].columns[c] == ColumnDescriptor(Some(schema.tables[t].columns[c]), c)
  {
    DescriptorsBefore(databases, d);
    DescriptorsBefore(databases, d + 1);
    DescriptorsBefore(databases, |databases|);
    assert databases[..|databases|] == databases;
    assert databases[..d + 1][..d] == databases[..d];
    var own := SchemaDescriptors(databases[d].name, databases[d].schemas);
    assert Descriptors(databases[..d + 1]) == Descriptors(databases[..d]) + own;
    assert Descriptors(databases)[SchemasBefore(databases, d) + s] == own[s];
  }

  method DecodeColumns(names: seq<Name>) returns (columns: seq<ColumnDescriptor>)
    ensures columns == ColumnDescriptors(names)
  {
    columns := [];
    var ordinalPos := 0;
    for i := 0 to |names|
      invariant ordinalPos == i && columns == ColumnDescriptors(names)[..i]
    {
      columns := columns + [ColumnDescriptor(Some(names[i]), ordinalPos)];
      ordinalPos := ordinalPos + 1;
    }
  }

  method DecodeTables(ts: seq<ProtoTable>) returns (tables: seq<TableDescriptor>)
    ensures tables == TableDescriptors(ts)
  {
    tables := [];
    for i := 0 to |ts|
      invariant tables == TableDescriptors(ts)[..i]
    {
      var columns := DecodeColumns(ts[i].columns);
      tables := tables + [TableDescriptor(ts[i].name, columns)];
    }
  }

  method DecodeSchemas(database: Name, ss: seq<ProtoSchema>) returns (schemas: seq<SchemaDescriptor>)
    ensures schemas == SchemaDescriptors(database, ss)
  {
    schemas := [];
    for i := 0 to |ss|
      invariant schemas == SchemaDescriptors(database, ss)[..i]
    {
      var tables := DecodeTables(ss[i].tables);
      schemas := schemas + [SchemaDescriptor(SchemaName(database, ss[i].name), Some(tables))];
    }
  }

  /** Turn a tree of names into schema descriptors, one per schema, with running column ordinals. */
  method DecodeCatalog(databases: seq<ProtoDatabase>) returns (ds: seq<SchemaDescriptor>)
    ensures ds == Descriptors(databases)
  {
    ds := [];
    for i := 0 to |databases|
      invariant ds == Descriptors(databases[..i])
    {
      var schemas := DecodeSchemas(databases[i].name, databases[i].schemas);
      assert databases[..i + 1][..i] == databases[..i];
      ds := ds + schemas;
    }
    assert databases[..|databases|] == databases;
  }
}
