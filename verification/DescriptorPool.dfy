/** Catalog entries, and how a descriptor pool grows when schema descriptors are added to it.
    An entry is what the catalog sees of an analyzed script or of a descriptor pool: the databases
    and schemas it references by name and id, its table declarations, and the index of the first
    declaration of every table name. */
module DescriptorPool {
  import opened Common
  import opened Order

  type EntryId = nat
  type Rank = nat

  datatype SchemaName = SchemaName(database: Name, schema: Name)
  datatype TableName = TableName(schemaName: SchemaName, table: Name)
  datatype SchemaIds = SchemaIds(database: nat, schema: nat)
  datatype TableId = TableId(entry: EntryId, position: nat)
  datatype Table = Table(id: TableId, ids: SchemaIds, name: TableName, columns: seq<Name>)

  datatype Entry = Entry(
    id: EntryId,
    databases: map<Name, nat>,
    schemas: map<SchemaName, SchemaIds>,
    tables: seq<Table>,
    tablesByName: map<TableName, nat>)

  datatype Status =
    | Ok
    | ScriptNotAnalyzed
    | CatalogMismatch
    | IdCollision
    | IdOutOfSync
    | PoolUnknown
    | TablesNull
    | TableNameEmpty
    | TableNameCollision

  ghost predicate IsFirst(tables: seq<Table>, name: TableName, i: nat) {
    && i < |tables|
    && tables[i].name == name
    && forall j | 0 <= j < i :: tables[j].name != name
  }

  ghost predicate Declares(e: Entry, name: TableName) {
    exists i | 0 <= i < |e.tables| :: e.tables[i].name == name
  }

  /** What the analyzer guarantees of a script, and what every pool keeps. */
  ghost predicate WellFormed(e: Entry) {
    && e.databases.Keys == (set n | n in e.schemas :: n.database)
    && (forall n | n in e.schemas :: n.database in e.databases && e.schemas[n].database == e.databases[n.database])
    && (forall i | 0 <= i < |e.tables| ::
          && e.tables[i].name.schemaName in e.schemas
          && e.tables[i].ids == e.schemas[e.tables[i].name.schemaName]
          && e.tables[i].id == TableId(e.id, i))
    && (forall name | name in e.tablesByName :: IsFirst(e.tables, name, e.tablesByName[name]))
  }

  /** The name index covers every declared table. */
  ghost predicate Indexed(e: Entry) {
    forall i | 0 <= i < |e.tables| :: e.tables[i].name in e.tablesByName
  }

  /** The ids of schemas on their own. */
  function SchemaRefs(schemas: map<SchemaName, SchemaIds>): (refs: map<SchemaName, nat>)
    ensures refs.Keys == schemas.Keys
  {
    map n | n in schemas :: schemas[n].schema
  }

  // ----- schema descriptors -----

  datatype ColumnDescriptor = ColumnDescriptor(name: Option<Name>, ordinal: nat)
  datatype TableDescriptor = TableDescriptor(name: Name, columns: seq<ColumnDescriptor>)
  datatype SchemaDescriptor = SchemaDescriptor(name: SchemaName, tables: Option<seq<TableDescriptor>>)

  /** A pool while descriptors are being added, with the catalog's id counters. */
  datatype Growing = Growing(entry: Entry, nextDatabase: nat, nextSchema: nat, last: SchemaIds)

  /** The names the catalog has declared, which the id allocation consults. */
  datatype Declared = Declared(databases: map<Name, nat>, schemas: map<SchemaName, SchemaIds>)

  function InsertByOrdinal(c: ColumnDescriptor, cs: seq<ColumnDescriptor>): seq<ColumnDescriptor> {
    if cs == [] || c.ordinal <= cs[0].ordinal then [c] + cs else [cs[0]] + InsertByOrdinal(c, cs[1..])
  }

  function SortByOrdinal(cs: seq<ColumnDescriptor>): seq<ColumnDescriptor> {
    if cs == [] then [] else InsertByOrdinal(cs[0], SortByOrdinal(cs[1..]))
  }

  /** The columns that carry a name, with that name. */
  function NamesOf(cs: seq<ColumnDescriptor>): seq<Name> {
    if cs == [] then []
    else (if cs[0].name.Some? then [cs[0].name.value] else []) + NamesOf(cs[1..])
  }

  function RegisterSchema(g: Growing, declared: Declared, n: SchemaName): (g': Growing)
    ensures n in g'.entry.schemas
    ensures g'.entry.schemas[n] == (if n in g.entry.schemas then g.entry.schemas[n] else g'.last)
    ensures g'.entry.tables == g.entry.tables && g'.entry.tablesByName == g.entry.tablesByName
    ensures g'.entry.id == g.entry.id
  {
    var e := g.entry;
    var newDatabase := n.database !in e.databases;
    var allocateDatabase := newDatabase && n.database !in declared.databases;
    var db := if !newDatabase then e.databases[n.database]
              else if !allocateDatabase then declared.databases[n.database]
              else g.nextDatabase;
    var newSchema := n !in e.schemas;
    var allocateSchema := newSchema && n !in declared.schemas;
    var schema := if !newSchema then e.schemas[n].schema
                  else if !allocateSchema then declared.schemas[n].schema
                  else g.nextSchema;
    Growing(
      e.(databases := e.databases[n.database := db],
         schemas := if newSchema then e.schemas[n := SchemaIds(db, schema)] else e.schemas),
      if allocateDatabase then g.nextDatabase + 1 else g.nextDatabase,
      if allocateSchema then g.nextSchema + 1 else g.nextSchema,
      SchemaIds(db, schema))
  }

  function AppendTable(g: Growing, n: SchemaName, t: TableDescriptor): Growing {
    var table := Table(TableId(g.entry.id, |g.entry.tables|), g.last, TableName(n, t.name),
        NamesOf(SortByOrdinal(t.columns)));
    g.(entry := g.entry.(tables := g.entry.tables + [table]))
  }

  function TableStatus(e: Entry, n: SchemaName, t: TableDescriptor): Status {
    if t.name == "" then TableNameEmpty
    else if TableName(n, t.name) in e.tablesByName then TableNameCollision
    else Ok
  }

  /** Tables are appended until the first one with an empty or an already indexed name. */
  function AddTables(g: Growing, n: SchemaName, ts: seq<TableDescriptor>): (r: (Growing, Status))
    ensures r.1 == Ok || r.1 == TableNameEmpty || r.1 == TableNameCollision
    decreases |ts|
  {
    if ts == [] then (g, Ok)
    else
      var status := TableStatus(g.entry, n, ts[0]);
      if status != Ok then (g, status) else AddTables(AppendTable(g, n, ts[0]), n, ts[1..])
  }

  function AddSchemas(g: Growing, declared: Declared, ds: seq<SchemaDescriptor>): (r: (Growing, Status))
    requires forall d | d in ds :: d.tables.Some?
    ensures r.1 == Ok || r.1 == TableNameEmpty || r.1 == TableNameCollision
    decreases |ds|
  {
    if ds == [] then (g, Ok)
    else
      var (g1, status) := AddTables(RegisterSchema(g, declared, ds[0].name), ds[0].name, ds[0].tables.value);
      if status != Ok then (g1, status) else AddSchemas(g1, declared, ds[1..])
  }

  /** Index tables by name: a name that is indexed keeps its position. */
  function IndexFrom(tables: seq<Table>, indexed: map<TableName, nat>): (m: map<TableName, nat>)
    decreases |tables|
  {
    if tables == [] then indexed
    else
      var last := |tables| - 1;
      var before := IndexFrom(tables[..last], indexed);
      if tables[last].name in before then before else before[tables[last].name := last]
  }

  /** Every table is indexed; a new name is indexed with its first declaration. */
  lemma {:induction false} FirstIsIndexed(tables: seq<Table>, indexed: map<TableName, nat>)
    ensures var m := IndexFrom(tables, indexed);
      && (forall i | 0 <= i < |tables| :: tables[i].name in m)
      && (forall name | name in indexed :: name in m && m[name] == indexed[name])
      && (forall name | name in m && name !in indexed :: IsFirst(tables, name, m[name]))
    decreases |tables|
  {
    if tables != [] {
      var front, last := tables[..|tables| - 1], tables[|tables| - 1];
      FirstIsIndexed(front, indexed);
      assert forall i | 0 <= i < |front| :: tables[i] == front[i];
    }
  }

  lemma IndexStep(tables: seq<Table>, indexed: map<TableName, nat>, i: nat)
    requires i < |tables|
    ensures var before := IndexFrom(tables[..i], indexed);
      IndexFrom(tables[..i + 1], indexed) == if tables[i].name in before then before else before[tables[i].name := i]
  {
    assert tables[..i + 1][..i] == tables[..i];
  }

  /** Add descriptors to a pool. The status tells whether everything was added; after an early
      exit, whatever was registered up to that point stays. */
  function AddDescriptors(g: Growing, declared: Declared, ds: seq<SchemaDescriptor>): (Growing, Status) {
    if exists d | d in ds :: d.tables.None? then (g, TablesNull)
    else
      var (g1, status) := AddSchemas(g, declared, ds);
      if status != Ok then (g1, status)
      else (g1.(entry := g1.entry.(tablesByName := IndexFrom(g1.entry.tables, g1.entry.tablesByName))), Ok)
  }

  // ----- what a pool keeps -----

  /** `e` grew into `e'`: nothing was renamed, re-identified or removed. */
  ghost predicate Grown(e: Entry, e': Entry) {
    && e'.id == e.id
    && (forall d | d in e.databases :: d in e'.databases && e'.databases[d] == e.databases[d])
    && (forall n | n in e.schemas :: n in e'.schemas && e'.schemas[n] == e.schemas[n])
    && e.tables <= e'.tables
  }

  /** The tables that came in belong to the described schemas. */
  ghost predicate NewTablesIn(e: Entry, e': Entry, names: set<SchemaName>) {
    forall i | |e.tables| <= i < |e'.tables| :: e'.tables[i].name.schemaName in names
  }

  lemma GrownTransitive(a: Entry, b: Entry, c: Entry)
    requires Grown(a, b) && Grown(b, c)
    ensures Grown(a, c)
  {
  }

  /** The ids handed to the tables of the current schema are the ids of that schema. */
  ghost predicate Current(g: Growing, n: SchemaName) {
    n in g.entry.schemas && g.entry.schemas[n] == g.last
  }

  lemma RegisterKeeps(g: Growing, declared: Declared, n: SchemaName)
    requires WellFormed(g.entry)
    ensures var g' := RegisterSchema(g, declared, n);
      WellFormed(g'.entry) && Grown(g.entry, g'.entry) && Current(g', n)
      && g'.entry.schemas.Keys == g.entry.schemas.Keys + {n}
  {
    var g' := RegisterSchema(g, declared, n);
    var e, e' := g.entry, g'.entry;
    assert e'.databases.Keys == e.databases.Keys + {n.database};
    assert e'.schemas.Keys == e.schemas.Keys + {n};
    assert e'.databases.Keys == (set m | m in e'.schemas :: m.database) by {
      assert n in e'.schemas;
    }
  }

  lemma {:induction false} AddTablesKeeps(g: Growing, n: SchemaName, ts: seq<TableDescriptor>)
    requires WellFormed(g.entry) && Current(g, n)
    ensures var g' := AddTables(g, n, ts).0;
      WellFormed(g'.entry) && Grown(g.entry, g'.entry) && Current(g', n)
      && g'.entry.schemas == g.entry.schemas && g'.entry.tablesByName == g.entry.tablesByName
      && NewTablesIn(g.entry, g'.entry, {n})
    decreases |ts|
  {
    if ts != [] && TableStatus(g.entry, n, ts[0]) == Ok {
      AddTablesKeeps(AppendTable(g, n, ts[0]), n, ts[1..]);
    }
  }

  /** Appending tables changes nothing but the tables. */
  lemma {:induction false} OnlyTablesChange(g: Growing, n: SchemaName, ts: seq<TableDescriptor>)
    ensures var g' := AddTables(g, n, ts).0; g' == g.(entry := g.entry.(tables := g'.entry.tables))
    decreases |ts|
  {
    if ts != [] && TableStatus(g.entry, n, ts[0]) == Ok { OnlyTablesChange(AppendTable(g, n, ts[0]), n, ts[1..]); }
  }

  function DescribedNames(ds: seq<SchemaDescriptor>): set<SchemaName> { set d | d in ds :: d.name }

  lemma NamesOfFirst(ds: seq<SchemaDescriptor>)
    requires ds != []
    ensures DescribedNames(ds) == {ds[0].name} + DescribedNames(ds[1..])
  {
    assert ds == [ds[0]] + ds[1..];
  }

  /** What adding descriptors of these names keeps; a complete add covers all of them. */
  ghost predicate Kept(e: Entry, e': Entry, names: set<SchemaName>, complete: bool) {
    && WellFormed(e') && Grown(e, e') && NewTablesIn(e, e', names)
    && e'.schemas.Keys <= e.schemas.Keys + names
    && (complete ==> e'.schemas.Keys == e.schemas.Keys + names)
  }

  lemma KeptTwice(a: Entry, b: Entry, c: Entry, names: set<SchemaName>, more: set<SchemaName>, complete: bool)
    requires Kept(a, b, names, true) && Kept(b, c, more, complete)
    ensures Kept(a, c, names + more, complete)
  {
    GrownTransitive(a, b, c);
    forall i | |a.tables| <= i < |c.tables| ensures c.tables[i].name.schemaName in names + more {
      if i < |b.tables| { assert c.tables[i] == b.tables[i]; }
    }
  }

  lemma KeptPartly(a: Entry, b: Entry, names: set<SchemaName>, more: set<SchemaName>)
    requires Kept(a, b, names, true)
    ensures Kept(a, b, names + more, false)
  {
  }

  lemma OneSchemaKept(g: Growing, declared: Declared, d: SchemaDescriptor)
    requires WellFormed(g.entry) && d.tables.Some?
    ensures var g' := AddTables(RegisterSchema(g, declared, d.name), d.name, d.tables.value).0;
      Kept(g.entry, g'.entry, {d.name}, true) && g'.entry.tablesByName == g.entry.tablesByName
  {
    var g0 := RegisterSchema(g, declared, d.name);
    RegisterKeeps(g, declared, d.name);
    AddTablesKeeps(g0, d.name, d.tables.value);
    GrownTransitive(g.entry, g0.entry, AddTables(g0, d.name, d.tables.value).0.entry);
  }

  lemma {:induction false} AddSchemasKeeps(g: Growing, declared: Declared, ds: seq<SchemaDescriptor>)
    requires WellFormed(g.entry) && forall d | d in ds :: d.tables.Some?
    ensures var (g', status) := AddSchemas(g, declared, ds);
      Kept(g.entry, g'.entry, DescribedNames(ds), status == Ok) && g'.entry.tablesByName == g.entry.tablesByName
    decreases |ds|
  {
    if ds != [] {
      var d := ds[0];
      var (g1, status) := AddTables(RegisterSchema(g, declared, d.name), d.name, d.tables.value);
      OneSchemaKept(g, declared, d);
      NamesOfFirst(ds);
      if status == Ok {
        AddSchemasKeeps(g1, declared, ds[1..]);
        var (g2, final) := AddSchemas(g1, declared, ds[1..]);
        KeptTwice(g.entry, g1.entry, g2.entry, {d.name}, DescribedNames(ds[1..]), final == Ok);
      } else {
        KeptPartly(g.entry, g1.entry, {d.name}, DescribedNames(ds[1..]));
      }
    }
  }

  /** Every add, also one that fails half way, leaves a well-formed pool that has lost nothing. A
      complete add covers exactly the described schemas and indexes every table. */
  lemma AddDescriptorsKeeps(g: Growing, declared: Declared, ds: seq<SchemaDescriptor>)
    requires WellFormed(g.entry)
    ensures var (g', status) := AddDescriptors(g, declared, ds);
      WellFormed(g'.entry) && Grown(g.entry, g'.entry)
      && (status == TablesNull ==> g' == g)
      && NewTablesIn(g.entry, g'.entry, DescribedNames(ds))
      && g'.entry.schemas.Keys <= g.entry.schemas.Keys + DescribedNames(ds)
      && (status == Ok ==> g'.entry.schemas.Keys == g.entry.schemas.Keys + DescribedNames(ds) && Indexed(g'.entry))
  {
    if forall d | d in ds :: d.tables.Some? {
      AddSchemasKeeps(g, declared, ds);
      var e := AddSchemas(g, declared, ds).0.entry;
      FirstIsIndexed(e.tables, e.tablesByName);
    }
  }

  // ----- what an add appends -----

  ghost predicate InOrdinalOrder(cs: seq<ColumnDescriptor>) {
    forall i, j | 0 <= i < j < |cs| :: cs[i].ordinal <= cs[j].ordinal
  }

  /** The columns that have a name, in the order of their ordinals. */
  ghost predicate OrdersNamed(ordered: seq<ColumnDescriptor>, cs: seq<ColumnDescriptor>) {
    && InOrdinalOrder(ordered)
    && forall c: ColumnDescriptor :: multiset(ordered)[c] == if c.name.Some? then multiset(cs)[c] else 0
  }

  ghost predicate NamesAre(names: seq<Name>, cs: seq<ColumnDescriptor>) {
    |names| == |cs| && forall i | 0 <= i < |cs| :: cs[i].name == Some(names[i])
  }

  /** The names of the described columns that have one, in the order of their ordinals. */
  ghost predicate ColumnsOf(names: seq<Name>, cs: seq<ColumnDescriptor>) {
    exists ordered :: OrdersNamed(ordered, cs) && NamesAre(names, ordered)
  }

  function WithNames(cs: seq<ColumnDescriptor>): seq<ColumnDescriptor> {
    if cs == [] then [] else (if cs[0].name.Some? then [cs[0]] else []) + WithNames(cs[1..])
  }

  lemma PrependInOrder(c: ColumnDescriptor, cs: seq<ColumnDescriptor>)
    requires InOrdinalOrder(cs) && forall d | d in cs :: c.ordinal <= d.ordinal
    ensures InOrdinalOrder([c] + cs)
  {
  }

  lemma {:induction false} InsertKeeps(c: ColumnDescriptor, cs: seq<ColumnDescriptor>)
    ensures multiset(InsertByOrdinal(c, cs)) == multiset(cs) + multiset{c}
    ensures forall d :: d in InsertByOrdinal(c, cs) <==> d in cs || d == c
    decreases |cs|
  {
    if cs != [] {
      InsertKeeps(c, cs[1..]);
      assert cs == [cs[0]] + cs[1..];
    }
  }

  lemma {:induction false} InsertKeepsOrder(c: ColumnDescriptor, cs: seq<ColumnDescriptor>)
    requires InOrdinalOrder(cs)
    ensures InOrdinalOrder(InsertByOrdinal(c, cs))
    decreases |cs|
  {
    if cs != [] {
      if c.ordinal <= cs[0].ordinal {
        PrependInOrder(c, cs);
      } else {
        InsertKeeps(c, cs[1..]);
        InsertKeepsOrder(c, cs[1..]);
        PrependInOrder(cs[0], InsertByOrdinal(c, cs[1..]));
      }
    }
  }

  lemma {:induction false} SortedByOrdinal(cs: seq<ColumnDescriptor>)
    ensures InOrdinalOrder(SortByOrdinal(cs)) && multiset(SortByOrdinal(cs)) == multiset(cs)
    decreases |cs|
  {
    if cs != [] {
      SortedByOrdinal(cs[1..]);
      InsertKeeps(cs[0], SortByOrdinal(cs[1..]));
      InsertKeepsOrder(cs[0], SortByOrdinal(cs[1..]));
      assert cs == [cs[0]] + cs[1..];
    }
  }

  lemma {:induction false} NamedOnly(cs: seq<ColumnDescriptor>)
    ensures forall c: ColumnDescriptor :: multiset(WithNames(cs))[c] == if c.name.Some? then multiset(cs)[c] else 0
    ensures forall c | c in WithNames(cs) :: c in cs
    decreases |cs|
  {
    if cs != [] {
      NamedOnly(cs[1..]);
      assert cs == [cs[0]] + cs[1..];
    }
  }

  lemma {:induction false} NamedInOrder(cs: seq<ColumnDescriptor>)
    requires InOrdinalOrder(cs)
    ensures InOrdinalOrder(WithNames(cs))
    decreases |cs|
  {
    if cs != [] {
      NamedOnly(cs[1..]);
      NamedInOrder(cs[1..]);
      PrependInOrder(cs[0], WithNames(cs[1..]));
      assert [] + WithNames(cs[1..]) == WithNames(cs[1..]);
    }
  }

  lemma {:induction false} NamesOfNamed(cs: seq<ColumnDescriptor>)
    ensures NamesAre(NamesOf(cs), WithNames(cs))
    decreases |cs|
  {
    if cs != [] { NamesOfNamed(cs[1..]); }
  }

  /** The columns of an appended table are the described names in the order of their ordinals. */
  lemma ColumnsAreOrdered(cs: seq<ColumnDescriptor>)
    ensures ColumnsOf(NamesOf(SortByOrdinal(cs)), cs)
  {
    SortedByOrdinal(cs);
    NamedOnly(SortByOrdinal(cs));
    NamedInOrder(SortByOrdinal(cs));
    NamesOfNamed(SortByOrdinal(cs));
    assert OrdersNamed(WithNames(SortByOrdinal(cs)), cs);
  }

  datatype DescribedTable = DescribedTable(schemaName: SchemaName, table: TableDescriptor)

  function TablesOfSchema(n: SchemaName, ts: seq<TableDescriptor>): seq<DescribedTable> {
    seq(|ts|, i requires 0 <= i < |ts| => DescribedTable(n, ts[i]))
  }

  /** All described tables, in order. */
  function AllTables(ds: seq<SchemaDescriptor>): seq<DescribedTable>
    requires forall d | d in ds :: d.tables.Some?
  {
    if ds == [] then [] else TablesOfSchema(ds[0].name, ds[0].tables.value) + AllTables(ds[1..])
  }

  /** The table has the name and, in order, the columns that were described. */
  ghost predicate AddedAs(t: Table, d: DescribedTable) {
    t.name == TableName(d.schemaName, d.table.name) && ColumnsOf(t.columns, d.table.columns)
  }

  /** Why a table is turned down. */
  function Objection(byName: map<TableName, nat>, d: DescribedTable): Status {
    if d.table.name == "" then TableNameEmpty
    else if TableName(d.schemaName, d.table.name) in byName then TableNameCollision
    else Ok
  }

  /** The described tables were appended in order, up to the first one that is turned down. */
  ghost predicate AddedInOrder(e: Entry, e': Entry, ds: seq<DescribedTable>, status: Status) {
    var n := |e'.tables| - |e.tables|;
    && e.tables <= e'.tables && n <= |ds| && e'.tablesByName == e.tablesByName
    && (forall i | 0 <= i < n ::
          AddedAs(e'.tables[|e.tables| + i], ds[i]) && Objection(e.tablesByName, ds[i]) == Ok)
    && status == (if n == |ds| then Ok else Objection(e.tablesByName, ds[n]))
    && (n < |ds| ==> status != Ok)
  }

  lemma AddedOneMore(e: Entry, e1: Entry, e2: Entry, ds: seq<DescribedTable>, status: Status)
    requires ds != [] && AddedInOrder(e, e1, ds[..1], Ok) && AddedInOrder(e1, e2, ds[1..], status)
    ensures AddedInOrder(e, e2, ds, status)
  {
    AddedTwice(e, e1, e2, ds[..1], ds[1..], status);
    assert ds[..1] + ds[1..] == ds;
  }

  lemma AddedTwice(e: Entry, e1: Entry, e2: Entry, ds: seq<DescribedTable>, more: seq<DescribedTable>, status: Status)
    requires AddedInOrder(e, e1, ds, Ok) && AddedInOrder(e1, e2, more, status)
    ensures AddedInOrder(e, e2, ds + more, status)
  {
    var n, m, all := |e1.tables| - |e.tables|, |e2.tables| - |e1.tables|, ds + more;
    assert n == |ds|;
    forall i | 0 <= i < n + m
      ensures AddedAs(e2.tables[|e.tables| + i], all[i]) && Objection(e.tablesByName, all[i]) == Ok
    {
      if i < n {
        assert e2.tables[|e.tables| + i] == e1.tables[|e.tables| + i];
      } else {
        assert e2.tables[|e1.tables| + (i - n)] == e2.tables[|e.tables| + i];
      }
    }
  }

  lemma AddedPartly(e: Entry, e1: Entry, ds: seq<DescribedTable>, more: seq<DescribedTable>, status: Status)
    requires AddedInOrder(e, e1, ds, status) && status != Ok
    ensures AddedInOrder(e, e1, ds + more, status)
  {
    var n := |e1.tables| - |e.tables|;
    assert forall i | 0 <= i <= n :: (ds + more)[i] == ds[i];
  }

  lemma {:induction false} TablesAddedInOrder(g: Growing, n: SchemaName, ts: seq<TableDescriptor>)
    ensures var (g', status) := AddTables(g, n, ts); AddedInOrder(g.entry, g'.entry, TablesOfSchema(n, ts), status)
    decreases |ts|
  {
    if ts != [] {
      var ds := TablesOfSchema(n, ts);
      assert ds[..1] == [DescribedTable(n, ts[0])] && ds[1..] == TablesOfSchema(n, ts[1..]);
      if TableStatus(g.entry, n, ts[0]) == Ok {
        var g1 := AppendTable(g, n, ts[0]);
        ColumnsAreOrdered(ts[0].columns);
        TablesAddedInOrder(g1, n, ts[1..]);
        var (g2, status) := AddTables(g1, n, ts[1..]);
        AddedOneMore(g.entry, g1.entry, g2.entry, ds, status);
      }
    }
  }

  lemma OneSchemaAddedInOrder(g: Growing, declared: Declared, d: SchemaDescriptor)
    requires d.tables.Some?
    ensures var (g', status) := AddTables(RegisterSchema(g, declared, d.name), d.name, d.tables.value);
      AddedInOrder(g.entry, g'.entry, TablesOfSchema(d.name, d.tables.value), status)
  {
    TablesAddedInOrder(RegisterSchema(g, declared, d.name), d.name, d.tables.value);
  }

  /** The tables an add appends: the described ones in order, up to the first that has no name or an
      indexed one, each with its named columns in the order of their ordinals. */
  lemma {:induction false} SchemasAddedInOrder(g: Growing, declared: Declared, ds: seq<SchemaDescriptor>)
    requires forall d | d in ds :: d.tables.Some?
    ensures var (g', status) := AddSchemas(g, declared, ds); AddedInOrder(g.entry, g'.entry, AllTables(ds), status)
    decreases |ds|
  {
    if ds != [] {
      var d := ds[0];
      var (g1, status) := AddTables(RegisterSchema(g, declared, d.name), d.name, d.tables.value);
      OneSchemaAddedInOrder(g, declared, d);
      var tables := TablesOfSchema(d.name, d.tables.value);
      if status == Ok {
        SchemasAddedInOrder(g1, declared, ds[1..]);
        var (g2, final) := AddSchemas(g1, declared, ds[1..]);
        AddedTwice(g.entry, g1.entry, g2.entry, tables, AllTables(ds[1..]), final);
      } else {
        AddedPartly(g.entry, g1.entry, tables, AllTables(ds[1..]), status);
      }
    }
  }

  /** An add is turned down for a null table list before it changes anything; else it appends the
      described tables in order, up to the first one that is turned down. */
  lemma AddAppendsTables(g: Growing, declared: Declared, ds: seq<SchemaDescriptor>)
    ensures var (g', status) := AddDescriptors(g, declared, ds);
      if exists d :: d in ds && d.tables.None? then status == TablesNull && g' == g
      else
        && AddedInOrder(g.entry, g'.entry.(tablesByName := g.entry.tablesByName), AllTables(ds), status)
        && (status != Ok ==> g'.entry.tablesByName == g.entry.tablesByName)
  {
    if forall d | d in ds :: d.tables.Some? { SchemasAddedInOrder(g, declared, ds); }
  }

  // ----- which adds complete -----

  function FullName(d: DescribedTable): TableName { TableName(d.schemaName, d.table.name) }

  function FullNames(ds: seq<DescribedTable>): seq<TableName> {
    seq(|ds|, i requires 0 <= i < |ds| => FullName(ds[i]))
  }

  function QualifiedNames(n: SchemaName, ts: seq<TableDescriptor>): seq<TableName> { FullNames(TablesOfSchema(n, ts)) }

  /** The names of all described tables, in order. */
  function AllNames(ds: seq<SchemaDescriptor>): seq<TableName>
    requires forall d | d in ds :: d.tables.Some?
  {
    FullNames(AllTables(ds))
  }

  /** A table of this name cannot be added to a pool with this name index. */
  predicate Rejects(byName: map<TableName, nat>, k: TableName) { k.table == "" || k in byName }

  /** What an add of tables with these names did to the tables: it completed exactly if no name is
      rejected, and it appended something exactly if the first name is not. */
  ghost predicate Appended(e: Entry, e': Entry, names: seq<TableName>, status: Status) {
    && e.tables <= e'.tables && e'.tablesByName == e.tablesByName
    && (status == Ok <==> forall i | 0 <= i < |names| :: !Rejects(e.tablesByName, names[i]))
    && (names == [] || Rejects(e.tablesByName, names[0]) ==> e'.tables == e.tables)
    && (names != [] && !Rejects(e.tablesByName, names[0]) ==>
          |e'.tables| > |e.tables| && e'.tables[|e.tables|].name == names[0])
  }

  lemma AddedIsAppended(e: Entry, e': Entry, ds: seq<DescribedTable>, status: Status)
    requires AddedInOrder(e, e', ds, status)
    ensures Appended(e, e', FullNames(ds), status)
  {
    var n := |e'.tables| - |e.tables|;
    assert forall i | 0 <= i < |ds| ::
        Rejects(e.tablesByName, FullNames(ds)[i]) <==> Objection(e.tablesByName, ds[i]) != Ok;
    if n > 0 { assert AddedAs(e'.tables[|e.tables| + 0], ds[0]); }
  }

  /** An add completes exactly if every table name is nonempty and not indexed yet; it appends
      nothing exactly if the very first table is rejected or there is none. */
  lemma SchemasAppended(g: Growing, declared: Declared, ds: seq<SchemaDescriptor>)
    requires forall d | d in ds :: d.tables.Some?
    ensures var (g', status) := AddSchemas(g, declared, ds); Appended(g.entry, g'.entry, AllNames(ds), status)
  {
    SchemasAddedInOrder(g, declared, ds);
    var (g', status) := AddSchemas(g, declared, ds);
    AddedIsAppended(g.entry, g'.entry, AllTables(ds), status);
  }

  // ----- the loops -----

  method AppendTables(g: Growing, n: SchemaName, ts: seq<TableDescriptor>) returns (g': Growing, status: Status)
    ensures (g', status) == AddTables(g, n, ts)
  {
    g' := g;
    for i := 0 to |ts|
      invariant AddTables(g', n, ts[i..]) == AddTables(g, n, ts)
    {
      assert ts[i..][0] == ts[i] && ts[i..][1..] == ts[i + 1..];
      status := TableStatus(g'.entry, n, ts[i]);
      if status != Ok {
        return;
      }
      g' := AppendTable(g', n, ts[i]);
    }
    status := Ok;
  }

  /** Add schema descriptors to a pool: reject null table lists up front, then register the schemas
      and append their tables one by one, and index all tables at the end. */
  method AddSchemaDescriptor(g: Growing, declared: Declared, ds: seq<SchemaDescriptor>)
    returns (g': Growing, status: Status)
    ensures (g', status) == AddDescriptors(g, declared, ds)
  {
    g' := g;
    for i := 0 to |ds|
      invariant forall j | 0 <= j < i :: ds[j].tables.Some?
    {
      if ds[i].tables.None? {
        return g', TablesNull;
      }
    }
    for i := 0 to |ds|
      invariant AddSchemas(g', declared, ds[i..]) == AddSchemas(g, declared, ds)
    {
      assert ds[i..][0] == ds[i] && ds[i..][1..] == ds[i + 1..];
      g' := RegisterSchema(g', declared, ds[i].name);
      g', status := AppendTables(g', ds[i].name, ds[i].tables.value);
      if status != Ok {
        return;
      }
    }
    var byName := IndexTables(g'.entry.tables, g'.entry.tablesByName);
    return g'.(entry := g'.entry.(tablesByName := byName)), Ok;
  }

  method IndexTables(tables: seq<Table>, indexed: map<TableName, nat>) returns (byName: map<TableName, nat>)
    ensures byName == IndexFrom(tables, indexed)
  {
    byName := indexed;
    for i := 0 to |tables|
      invariant byName == IndexFrom(tables[..i], indexed)
    {
      IndexStep(tables, indexed, i);
      if tables[i].name !in byName {
        byName := byName[tables[i].name := i];
      }
    }
    assert tables[..|tables|] == tables;
  }
}
