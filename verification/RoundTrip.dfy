/** Exporting a catalog and importing it into an empty one gives the same tree of names. */
module RoundTrip {
  import opened Common
  import opened Order
  import opened DescriptorPool
  import opened CatalogState
  import opened Precedence
  import opened Outline
  import opened Flatten
  import opened Export

  // ----- the descriptors of an outline -----

  ghost function TableDescriptorOf(ts: seq<Table>, k: TableName): TableDescriptor
    requires Mentions(ts, k)
  {
    TableDescriptor(k.table, ColumnDescriptors(FirstNamed(ts, k).columns))
  }

  ghost function SchemaDescriptorOf(ts: seq<Table>, n: SchemaName): SchemaDescriptor {
    var ks := TablesUnder(ts, n);
    SchemaDescriptor(n, Some(seq(|ks|, i requires 0 <= i < |ks| => assert ks[i] in ks; TableDescriptorOf(ts, ks[i]))))
  }

  ghost function DescriptorsOf(ts: seq<Table>, ns: seq<SchemaName>): seq<SchemaDescriptor> {
    seq(|ns|, i requires 0 <= i < |ns| => SchemaDescriptorOf(ts, ns[i]))
  }

  lemma TablesDecoded(ts: seq<Table>, n: SchemaName)
    ensures TableDescriptors(ProtoTables(TableNodes(ts, TablesUnder(ts, n)))) == SchemaDescriptorOf(ts, n).tables.value
  {
    var ks := TablesUnder(ts, n);
    forall i | 0 <= i < |ks|
      ensures Mentions(ts, ks[i])
                && ColumnNames(ColumnNodes(FirstNamed(ts, ks[i]).columns)) == FirstNamed(ts, ks[i]).columns
    {
      assert ks[i] in ks;
    }
  }

  lemma SchemasDecoded(ids: Ids, ts: seq<Table>, d: Name, ns: seq<SchemaName>)
    requires forall n | n in ns :: n in ids.schemas && n.database == d
    ensures SchemaDescriptors(d, ProtoSchemas(SchemaNodes(ids, ts, ns))) == DescriptorsOf(ts, ns)
  {
    forall i | 0 <= i < |ns|
      ensures SchemaDescriptors(d, ProtoSchemas(SchemaNodes(ids, ts, ns)))[i] == SchemaDescriptorOf(ts, ns[i])
    {
      assert ns[i] in ns;
      TablesDecoded(ts, ns[i]);
    }
  }

  lemma DescriptorsOfConcat(ts: seq<Table>, a: seq<SchemaName>, b: seq<SchemaName>)
    ensures DescriptorsOf(ts, a + b) == DescriptorsOf(ts, a) + DescriptorsOf(ts, b)
  {
  }

  lemma OneMoreDatabase(databases: seq<ProtoDatabase>, d: ProtoDatabase)
    ensures Descriptors(databases + [d]) == Descriptors(databases) + SchemaDescriptors(d.name, d.schemas)
  {
    assert (databases + [d])[..|databases|] == databases;
  }

  lemma LastDatabase(ids: Ids, ts: seq<Table>, front: seq<Name>, last: Name)
    requires last in ids.databases && forall d | d in front :: d in ids.databases
    ensures ProtoDatabases(DatabaseNodes(ids, ts, front + [last]))
         == ProtoDatabases(DatabaseNodes(ids, ts, front))
             + [ProtoDatabase(last, ProtoSchemas(SchemaNodes(ids, ts, SchemasUnder(ids, last))))]
  {
  }

  lemma OneMoreDecoded(ids: Ids, ts: seq<Table>, front: seq<Name>, last: Name)
    requires last in ids.databases && forall d | d in front :: d in ids.databases
    requires Descriptors(ProtoDatabases(DatabaseNodes(ids, ts, front))) == DescriptorsOf(ts, SchemasOver(ids, front))
    ensures Descriptors(ProtoDatabases(DatabaseNodes(ids, ts, front + [last])))
              == DescriptorsOf(ts, SchemasOver(ids, front) + SchemasUnder(ids, last))
  {
    var proto := ProtoDatabase(last, ProtoSchemas(SchemaNodes(ids, ts, SchemasUnder(ids, last))));
    LastDatabase(ids, ts, front, last);
    OneMoreDatabase(ProtoDatabases(DatabaseNodes(ids, ts, front)), proto);
    SchemasDecoded(ids, ts, last, SchemasUnder(ids, last));
    DescriptorsOfConcat(ts, SchemasOver(ids, front), SchemasUnder(ids, last));
  }

  /** Decoding the exported outline gives one descriptor per schema, listing its tables. */
  lemma {:induction false} OutlineDecoded(ids: Ids, ts: seq<Table>, ds: seq<Name>)
    requires forall d | d in ds :: d in ids.databases
    ensures Descriptors(ProtoDatabases(DatabaseNodes(ids, ts, ds))) == DescriptorsOf(ts, SchemasOver(ids, ds))
    decreases |ds|
  {
    if ds != [] {
      var front, last := ds[..|ds| - 1], ds[|ds| - 1];
      OutlineDecoded(ids, ts, front);
      OneMoreDecoded(ids, ts, front, last);
      assert ds == front + [last];
    }
  }

  // ----- what an add makes of them -----

  lemma {:induction false} OrderedColumnsStay(cs: seq<ColumnDescriptor>)
    requires InOrdinalOrder(cs)
    ensures SortByOrdinal(cs) == cs
    decreases |cs|
  {
    if cs != [] {
      OrderedColumnsStay(cs[1..]);
      assert cs == [cs[0]] + cs[1..];
    }
  }

  lemma {:induction false} NamedColumns(cs: seq<ColumnDescriptor>, names: seq<Name>)
    requires |cs| == |names| && forall i | 0 <= i < |cs| :: cs[i].name == Some(names[i])
    ensures NamesOf(cs) == names
    decreases |cs|
  {
    if cs != [] {
      NamedColumns(cs[1..], names[1..]);
      assert names == [names[0]] + names[1..];
    }
  }

  /** The ordinals keep the columns in order. */
  lemma ColumnsComeBack(columns: seq<Name>)
    ensures NamesOf(SortByOrdinal(ColumnDescriptors(columns))) == columns
  {
    OrderedColumnsStay(ColumnDescriptors(columns));
    NamedColumns(ColumnDescriptors(columns), columns);
  }

  /** Every table of `copies` has the columns of the first table of that name in `ts`. */
  ghost predicate Copies(copies: seq<Table>, ts: seq<Table>) {
    forall i | 0 <= i < |copies| ::
        Mentions(ts, copies[i].name) && copies[i].columns == FirstNamed(ts, copies[i].name).columns
  }

  lemma {:induction false} AddTablesCopies(g: Growing, ts: seq<Table>, n: SchemaName, ks: seq<TableName>,
                                           tds: seq<TableDescriptor>)
    requires g.entry.tablesByName == map[] && Copies(g.entry.tables, ts)
    requires |tds| == |ks| && forall i | 0 <= i < |ks| ::
               Mentions(ts, ks[i]) && ks[i].schemaName == n && tds[i] == TableDescriptorOf(ts, ks[i])
    ensures var (g', status) := AddTables(g, n, tds);
      && (status == Ok <==> forall i | 0 <= i < |ks| :: ks[i].table != "")
      && Copies(g'.entry.tables, ts)
      && (status == Ok ==> forall k :: Mentions(g'.entry.tables, k) <==> Mentions(g.entry.tables, k) || k in ks)
    decreases |ks|
  {
    if ks != [] {
      var k := ks[0];
      assert TableName(n, tds[0].name) == k;
      if k.table != "" {
        ColumnsComeBack(FirstNamed(ts, k).columns);
        var next := AppendTable(g, n, tds[0]);
        AddTablesCopies(next, ts, n, ks[1..], tds[1..]);
        forall l ensures Mentions(next.entry.tables, l) <==> Mentions(g.entry.tables, l) || l == k {
          FirstOfConcat(g.entry.tables, [next.entry.tables[|g.entry.tables|]], l);
        }
        assert forall l :: l in ks <==> l == k || l in ks[1..];
      }
    }
  }

  /** Ids are handed out once. */
  ghost predicate IdsFresh(g: Growing) {
    && (forall d | d in g.entry.databases :: g.entry.databases[d] < g.nextDatabase)
    && (forall d, e | d in g.entry.databases && e in g.entry.databases
         && g.entry.databases[d] == g.entry.databases[e] :: d == e)
    && (forall n | n in g.entry.schemas :: g.entry.schemas[n].schema < g.nextSchema)
    && (forall m, n | m in g.entry.schemas && n in g.entry.schemas
         && g.entry.schemas[m].schema == g.entry.schemas[n].schema :: m == n)
  }

  lemma RegisterKeepsIdsFresh(g: Growing, n: SchemaName)
    requires IdsFresh(g)
    ensures IdsFresh(RegisterSchema(g, Declared(map[], map[]), n))
  {
  }

  /** Some table of these schemas has no name. */
  ghost predicate HasUnnamed(ts: seq<Table>, ns: seq<SchemaName>) {
    exists k :: Mentions(ts, k) && k.schemaName in ns && k.table == ""
  }

  lemma OneSchemaCopies(g: Growing, ts: seq<Table>, n: SchemaName)
    requires g.entry.tablesByName == map[] && Copies(g.entry.tables, ts) && IdsFresh(g)
    ensures var (g', status) :=
              AddTables(RegisterSchema(g, Declared(map[], map[]), n), n, SchemaDescriptorOf(ts, n).tables.value);
      && (status == Ok <==> !HasUnnamed(ts, [n]))
      && g'.entry.tablesByName == map[] && Copies(g'.entry.tables, ts) && IdsFresh(g')
      && (status == Ok ==>
            forall k :: Mentions(g'.entry.tables, k) <==>
              Mentions(g.entry.tables, k) || (Mentions(ts, k) && k.schemaName == n))
  {
    var g0, ks := RegisterSchema(g, Declared(map[], map[]), n), TablesUnder(ts, n);
    var tds := SchemaDescriptorOf(ts, n).tables.value;
    RegisterKeepsIdsFresh(g, n);
    OnlyTablesChange(g0, n, tds);
    forall i | 0 <= i < |ks| ensures Mentions(ts, ks[i]) && ks[i].schemaName == n { assert ks[i] in ks; }
    AddTablesCopies(g0, ts, n, ks, tds);
    assert HasUnnamed(ts, [n]) <==> exists k :: k in ks && k.table == "";
  }

  lemma RestOfDescriptors(ts: seq<Table>, ns: seq<SchemaName>)
    requires ns != []
    ensures DescriptorsOf(ts, ns)[1..] == DescriptorsOf(ts, ns[1..])
  {
  }

  lemma {:induction false} AllSchemasCopy(g: Growing, ts: seq<Table>, ns: seq<SchemaName>)
    requires g.entry.tablesByName == map[] && Copies(g.entry.tables, ts) && IdsFresh(g)
    ensures var (g', status) := AddSchemas(g, Declared(map[], map[]), DescriptorsOf(ts, ns));
      && (status == Ok <==> !HasUnnamed(ts, ns))
      && Copies(g'.entry.tables, ts) && IdsFresh(g')
      && (status == Ok ==>
            forall k :: Mentions(g'.entry.tables, k) <==>
              Mentions(g.entry.tables, k) || (Mentions(ts, k) && k.schemaName in ns))
    decreases |ns|
  {
    if ns != [] {
      var n, rest := ns[0], ns[1..];
      assert forall m :: m in ns <==> m == n || m in rest;
      OneSchemaCopies(g, ts, n);
      var (g1, status) :=
          AddTables(RegisterSchema(g, Declared(map[], map[]), n), n, SchemaDescriptorOf(ts, n).tables.value);
      RestOfDescriptors(ts, ns);
      if status == Ok {
        AllSchemasCopy(g1, ts, rest);
      }
    }
  }

  // ----- trees of names -----

  lemma SameTables(a: seq<Table>, b: seq<Table>, n: SchemaName)
    requires TableNames(a) == TableNames(b) && Copies(b, a)
    ensures ProtoTables(TableNodes(a, TablesUnder(a, n))) == ProtoTables(TableNodes(b, TablesUnder(b, n)))
  {
    var ks := TablesUnder(a, n);
    assert TablesUnder(b, n) == ks;
    forall i | 0 <= i < |ks|
      ensures Mentions(a, ks[i]) && Mentions(b, ks[i]) && FirstNamed(a, ks[i]).columns == FirstNamed(b, ks[i]).columns
    {
      assert ks[i] in ks;
      MentionsMeansDeclares(b, ks[i]);
    }
  }

  lemma SameSchemas(i: Ids, a: seq<Table>, j: Ids, b: seq<Table>, d: Name)
    requires TableNames(a) == TableNames(b) && Copies(b, a) && i.schemas.Keys == j.schemas.Keys
    ensures ProtoSchemas(SchemaNodes(i, a, SchemasUnder(i, d))) == ProtoSchemas(SchemaNodes(j, b, SchemasUnder(j, d)))
  {
    var ns := SchemasUnder(i, d);
    assert SchemasUnder(j, d) == ns;
    forall k | 0 <= k < |ns|
      ensures ns[k] in i.schemas
      ensures ProtoTables(TableNodes(a, TablesUnder(a, ns[k]))) == ProtoTables(TableNodes(b, TablesUnder(b, ns[k])))
    {
      assert ns[k] in ns;
      SameTables(a, b, ns[k]);
    }
  }

  /** The names of an outline depend only on which names there are and on the columns of the kept
      declarations, not on ids. */
  lemma SameOutline(i: Ids, a: seq<Table>, j: Ids, b: seq<Table>)
    requires TableNames(a) == TableNames(b) && Copies(b, a)
    requires i.schemas.Keys == j.schemas.Keys && i.databases.Keys == j.databases.Keys
    ensures ProtoDatabases(DatabaseNodes(i, a, AllDatabasesListed(i)))
              == ProtoDatabases(DatabaseNodes(j, b, AllDatabasesListed(j)))
  {
    var ds := AllDatabasesListed(i);
    assert AllDatabasesListed(j) == ds;
    forall k | 0 <= k < |ds|
      ensures ds[k] in i.databases
      ensures ProtoSchemas(SchemaNodes(i, a, SchemasUnder(i, ds[k])))
                == ProtoSchemas(SchemaNodes(j, b, SchemasUnder(j, ds[k])))
    {
      assert ds[k] in ds;
      SameSchemas(i, a, j, b, ds[k]);
    }
  }

  // ----- a catalog with a single pool -----

  /** The only entry is a pool. */
  ghost predicate OnlyPool(r: Registry, id: EntryId) {
    && id in r.pools
    && r.entries == map[id := ToPool(id)]
    && r.ranked == {RankKey(r.pools[id].rank, id)}
    && WellFormed(r.pools[id].entry) && r.pools[id].entry.id == id
  }

  lemma SinglePoolNames(r: Registry, id: EntryId)
    requires OnlyPool(r, id)
    ensures Readable(r) && EntryAt(r, id) == r.pools[id].entry
    ensures AllDatabases(r) == r.pools[id].entry.databases.Keys && AllSchemas(r) == r.pools[id].entry.schemas.Keys
  {
  }

  lemma SinglePoolDeclarations(r: Registry, id: EntryId)
    requires OnlyPool(r, id) && Readable(r)
    ensures Declarations(r) == r.pools[id].entry.tables
  {
    RanksAreOrdered();
    var k := RankKey(r.pools[id].rank, id);
    ListingUnique(RankLess, r.ranked, [k]);
    assert TablesOf(r, [k]) == TablesOf(r, []) + r.pools[id].entry.tables by { assert [k][..0] == []; }
  }

  lemma SingleEntry(r: Registry, id: EntryId)
    requires OnlyPool(r, id) && Registered(r)
    ensures EntriesOf(r) == map[id := r.pools[id].entry]
  {
  }

  lemma SinglePoolIsConsistent(r: Registry, id: EntryId)
    requires OnlyPool(r, id) && Readable(r)
    requires IdsFresh(Growing(r.pools[id].entry, r.nextDatabase, r.nextSchema, SchemaIds(0, 0)))
    ensures Consistent(r)
  {
    SingleEntry(r, id);
    var e := r.pools[id].entry;
    assert Compatible(e.databases, e.databases) && Compatible(SchemaRefs(e.schemas), SchemaRefs(e.schemas));
  }

  /** Every database is there because of a schema. */
  lemma DatabasesOfSchemas(r: Registry)
    requires Readable(r)
    ensures AllDatabases(r) == set n | n in AllSchemas(r) :: n.database
  {
    forall d | d in AllDatabases(r) ensures exists n :: n in AllSchemas(r) && n.database == d {
      var id :| id in r.entries && d in EntryAt(r, id).databases;
      assert WellFormed(EntryAt(r, id));
      var n :| n in EntryAt(r, id).schemas && n.database == d;
      assert n in AllSchemas(r);
    }
    forall n | n in AllSchemas(r) ensures n.database in AllDatabases(r) {
      var id :| id in r.entries && n in EntryAt(r, id).schemas;
      assert WellFormed(EntryAt(r, id));
    }
  }

  lemma IdsCoverNames(r: Registry)
    requires Readable(r)
    ensures IdsOf(r).databases.Keys == AllDatabases(r) && IdsOf(r).schemas.Keys == AllSchemas(r)
  {
  }

  // ----- the round trip -----

  /** The descriptors an export of this registry decodes to. */
  ghost function Exported(r: Registry): seq<SchemaDescriptor>
    requires Readable(r)
  {
    Descriptors(ProtoDatabases(OutlineOf(r)))
  }

  /** An empty catalog with one pool that got these descriptors. */
  function Imported(address: nat, id: EntryId, rank: Rank, ds: seq<SchemaDescriptor>): (Registry, Status) {
    Described(PoolAdded(Empty(address), id, rank), id, ds)
  }

  lemma ExportedDescriptors(r: Registry)
    requires Readable(r)
    ensures Exported(r) == DescriptorsOf(Declarations(r), SchemasOver(IdsOf(r), AllDatabasesListed(IdsOf(r))))
    ensures forall n :: n in SchemasOver(IdsOf(r), AllDatabasesListed(IdsOf(r))) <==> n in AllSchemas(r)
  {
    RegistriesAreRooted(r);
    OutlineDecoded(IdsOf(r), Declarations(r), AllDatabasesListed(IdsOf(r)));
  }

  /** The pool holds the schemas and the tables, with fresh ids. */
  ghost predicate Replica(g: Growing, id: EntryId, ts: seq<Table>, schemas: set<SchemaName>) {
    && WellFormed(g.entry) && g.entry.id == id
    && g.entry.schemas.Keys == schemas
    && Copies(g.entry.tables, ts)
    && TableNames(g.entry.tables) == TableNames(ts)
    && IdsFresh(g)
  }

  lemma DescribedNamesOf(ts: seq<Table>, ns: seq<SchemaName>)
    ensures DescribedNames(DescriptorsOf(ts, ns)) == set n | n in ns
  {
    var ds := DescriptorsOf(ts, ns);
    forall n | n in ns ensures n in DescribedNames(ds) {
      var i :| 0 <= i < |ns| && ns[i] == n;
      assert ds[i] in ds && ds[i].name == n;
    }
  }

  lemma PoolCopies(id: EntryId, ts: seq<Table>, ns: seq<SchemaName>, g: Growing)
    requires g.entry == Entry(id, map[], map[], [], map[]) && forall k | Mentions(ts, k) :: k.schemaName in ns
    ensures var (g', status) := AddSchemas(g, Declared(map[], map[]), DescriptorsOf(ts, ns));
      && (status == Ok <==> forall k | Mentions(ts, k) :: k.table != "")
      && (status == Ok ==> Copies(g'.entry.tables, ts) && TableNames(g'.entry.tables) == TableNames(ts) && IdsFresh(g'))
  {
    assert Copies([], ts) && IdsFresh(g);
    AllSchemasCopy(g, ts, ns);
    AllNamed(ts, ns);
    var (g', status) := AddSchemas(g, Declared(map[], map[]), DescriptorsOf(ts, ns));
    if status == Ok { SameNames(ts, ns, g'.entry.tables); }
  }

  lemma PoolKeeps(id: EntryId, ts: seq<Table>, ns: seq<SchemaName>, g: Growing)
    requires g.entry == Entry(id, map[], map[], [], map[])
    ensures var (g', status) := AddDescriptors(g, Declared(map[], map[]), DescriptorsOf(ts, ns));
      status == Ok ==> WellFormed(g'.entry) && g'.entry.id == id && g'.entry.schemas.Keys == set n | n in ns
  {
    AddDescriptorsKeeps(g, Declared(map[], map[]), DescriptorsOf(ts, ns));
    DescribedNamesOf(ts, ns);
  }

  lemma PoolReplicates(id: EntryId, ts: seq<Table>, ns: seq<SchemaName>, g: Growing)
    requires g.entry == Entry(id, map[], map[], [], map[]) && forall k | Mentions(ts, k) :: k.schemaName in ns
    ensures var (g', status) := AddDescriptors(g, Declared(map[], map[]), DescriptorsOf(ts, ns));
      && (status == Ok <==> forall k | Mentions(ts, k) :: k.table != "")
      && (status == Ok ==> Replica(g', id, ts, set n | n in ns))
  {
    PoolCopies(id, ts, ns, g);
    PoolKeeps(id, ts, ns, g);
  }

  lemma AllNamed(ts: seq<Table>, ns: seq<SchemaName>)
    requires forall k | Mentions(ts, k) :: k.schemaName in ns
    ensures !HasUnnamed(ts, ns) <==> forall k | Mentions(ts, k) :: k.table != ""
  {
  }

  lemma SameNames(ts: seq<Table>, ns: seq<SchemaName>, copies: seq<Table>)
    requires forall k | Mentions(ts, k) :: k.schemaName in ns
    requires forall k :: Mentions(copies, k) <==> Mentions([], k) || (Mentions(ts, k) && k.schemaName in ns)
    ensures TableNames(copies) == TableNames(ts)
  {
    forall k ensures k in TableNames(copies) <==> k in TableNames(ts) {}
  }

  lemma ImportReplicates(r: Registry, address: nat, id: EntryId, rank: Rank)
    requires Readable(r)
    ensures var (r', status) := Imported(address, id, rank, Exported(r));
      && (status == Ok <==> forall k | Mentions(Declarations(r), k) :: k.table != "")
      && (status == Ok ==>
          && OnlyPool(r', id)
          && Replica(Growing(r'.pools[id].entry, r'.nextDatabase, r'.nextSchema, SchemaIds(0, 0)), id, Declarations(r),
               AllSchemas(r)))
  {
    var ts, ns := Declarations(r), SchemasOver(IdsOf(r), AllDatabasesListed(IdsOf(r)));
    ExportedDescriptors(r);
    RegistriesAreRooted(r);
    assert (set n | n in ns) == AllSchemas(r);
    PoolReplicates(id, ts, ns, Growing(Entry(id, map[], map[], [], map[]), 256, 65536, SchemaIds(0, 0)));
    ImportIsAdd(address, id, rank, DescriptorsOf(ts, ns));
  }

  lemma ImportIsAdd(address: nat, id: EntryId, rank: Rank, ds: seq<SchemaDescriptor>)
    ensures var (r', status) := Imported(address, id, rank, ds);
      var (g, s) := AddDescriptors(Growing(Entry(id, map[], map[], [], map[]), 256, 65536, SchemaIds(0, 0)),
          Declared(map[], map[]), ds);
      && status == s
      && (s == Ok ==>
          && r'.pools == map[id := Pool(rank, g.entry)] && r'.entries == map[id := ToPool(id)]
          && r'.ranked == {RankKey(rank, id)} && r'.nextDatabase == g.nextDatabase && r'.nextSchema == g.nextSchema)
  {
  }

  lemma ReplicaOutline(r: Registry, r': Registry, id: EntryId)
    requires Readable(r) && OnlyPool(r', id)
    requires Replica(Growing(r'.pools[id].entry, r'.nextDatabase, r'.nextSchema, SchemaIds(0, 0)), id, Declarations(r),
               AllSchemas(r))
    ensures Readable(r') && Consistent(r') && ProtoDatabases(OutlineOf(r')) == ProtoDatabases(OutlineOf(r))
  {
    SinglePoolNames(r', id);
    SinglePoolDeclarations(r', id);
    SinglePoolIsConsistent(r', id);
    DatabasesOfSchemas(r);
    DatabasesOfSchemas(r');
    IdsCoverNames(r);
    IdsCoverNames(r');
    SameOutline(IdsOf(r), Declarations(r), IdsOf(r'), Declarations(r'));
  }

  /** Import succeeds exactly when no exported table has an empty name, and then the new catalog has
      the same databases, schemas, tables and columns, in the same order; it can be flattened, and
      exported again it gives the same tree. */
  lemma RoundTrip(r: Registry, address: nat, id: EntryId, rank: Rank)
    requires Readable(r)
    ensures var (r', status) := Imported(address, id, rank, Exported(r));
      && (status == Ok <==> forall k | Mentions(Declarations(r), k) :: k.table != "")
      && (status == Ok ==>
           Readable(r') && Consistent(r') && ProtoDatabases(OutlineOf(r')) == ProtoDatabases(OutlineOf(r)))
  {
    ImportReplicates(r, address, id, rank);
    var (r', status) := Imported(address, id, rank, Exported(r));
    if status == Ok {
      ReplicaOutline(r, r', id);
    }
  }

  const Unnamed := TableName(SchemaName("db", "public"), "")
  const UnnamedEntry := Entry(1, map["db" := 256], map[Unnamed.schemaName := SchemaIds(256, 65536)],
                              [Table(TableId(1, 0), SchemaIds(256, 65536), Unnamed, [])], map[Unnamed := 0])

  lemma UnnamedIsSound(s: Script, a: Analysis)
    requires s.entryId == 1 && a.entry == UnnamedEntry
    ensures FromAnalyzer(s, a) && Declares(a.entry, Unnamed)
  {
    assert a.entry.tables[0].name == Unnamed;
    assert IsFirst(a.entry.tables, Unnamed, 0);
    assert a.entry.databases.Keys == (set n | n in a.entry.schemas :: n.database) by {
      assert Unnamed.schemaName in a.entry.schemas;
    }
  }

  lemma MentionedByOnlyEntry(r: Registry, id: EntryId, name: TableName)
    requires Readable(r) && id in r.entries && Declares(EntryAt(r, id), name)
    ensures Mentions(Declarations(r), name)
  {
    RanksAreOrdered();
    var k :| k in r.ranked && k.id == id;
    MentionedByEntry(r, Listing(RankLess, r.ranked), k, name);
  }

  /** A catalog that cannot be imported again: a script declares a table without a name. */
  lemma UnnamedTableIsNotImported(r: Registry, address: nat, id: EntryId, rank: Rank)
    requires r == Loaded(Empty(0), Script(0, 1, 0), Analysis(0, UnnamedEntry), 0)
    ensures Valid(r) && Readable(r) && Imported(address, id, rank, Exported(r)).1 != Ok
  {
    var s, a := Script(0, 1, 0), Analysis(0, UnnamedEntry);
    EmptyIsValid(0);
    UnnamedIsSound(s, a);
    LoadedIsValid(Empty(0), s, a, 0);
    ValidIsReadable(r);
    assert EntryAt(r, 1) == UnnamedEntry;
    MentionedByOnlyEntry(r, 1, Unnamed);
    RoundTrip(r, address, id, rank);
  }

  /** Flatten, export, import into a pool of an empty catalog and flatten again. */
  method ExportImport(r: Registry, address: nat, id: EntryId, rank: Rank)
    returns (flat: FlatCatalog, tree: seq<ProtoDatabase>, status: Status, flat': Option<FlatCatalog>)
    requires Readable(r) && Consistent(r)
    ensures Shows(flat, OutlineOf(r)) && tree == ProtoDatabases(OutlineOf(r))
    ensures status == Ok <==> forall k | Mentions(Declarations(r), k) :: k.table != ""
    ensures flat'.Some? <==> status == Ok
    ensures status == Ok ==> exists ns :: Shows(flat'.value, ns) && ProtoDatabases(ns) == tree
  {
    flat := Flatten.Flatten(r);
    tree := EncodeCatalog(flat, OutlineOf(r));
    var ds := DecodeCatalog(tree);
    var result := Imported(address, id, rank, ds);
    RoundTrip(r, address, id, rank);
    var r' := result.0;
    status := result.1;
    flat' := None;
    if status == Ok {
      var again := Flatten.Flatten(r');
      assert Shows(again, OutlineOf(r'));
      flat' := Some(again);
    }
  }
}
