/** What a flattened catalog has to show: the tree of databases, schemas, tables and columns that
    the registered entries describe together, in name order, with the winning declaration of every
    table. */
module Outline {
  import opened Common
  import opened Order
  import opened DescriptorPool
  import opened CatalogState
  import opened Precedence
  import opened Layout

  /** Entries can be followed and are well-formed (every valid registry is readable). */
  ghost predicate Readable(r: Registry) {
    && Registered(r)
    && (forall id | id in r.entries :: WellFormed(EntryAt(r, id)) && EntryAt(r, id).id == id)
  }

  lemma ValidIsReadable(r: Registry)
    requires Valid(r)
    ensures Readable(r)
  {
    ValidIsRegistered(r);
    forall id | id in r.entries ensures WellFormed(EntryAt(r, id)) && EntryAt(r, id).id == id {
      var k :| k in r.ranked && k.id == id;
      EntriesAreWellFormed(r, k);
    }
  }

  // ----- names and ids -----

  ghost function AllDatabases(r: Registry): set<Name>
    requires Readable(r)
  {
    set id, d | id in r.entries && d in EntryAt(r, id).databases :: d
  }

  ghost function AllSchemas(r: Registry): set<SchemaName>
    requires Readable(r)
  {
    set id, n | id in r.entries && n in EntryAt(r, id).schemas :: n
  }

  /** Some entry references the name with this id. */
  ghost predicate HasDatabase(r: Registry, d: Name, i: nat)
    requires Readable(r)
  {
    exists id | id in r.entries :: d in EntryAt(r, id).databases && EntryAt(r, id).databases[d] == i
  }

  ghost predicate HasSchema(r: Registry, n: SchemaName, i: SchemaIds)
    requires Readable(r)
  {
    exists id | id in r.entries :: n in EntryAt(r, id).schemas && EntryAt(r, id).schemas[n] == i
  }

  /** Equal names have equal ids and different names have different ids. */
  ghost predicate Compatible<K(!new)>(a: map<K, nat>, b: map<K, nat>) {
    forall k, l | k in a && l in b :: k == l <==> a[k] == b[l]
  }

  ghost predicate SameIds(a: Entry, b: Entry) {
    Compatible(a.databases, b.databases) && Compatible(SchemaRefs(a.schemas), SchemaRefs(b.schemas))
  }

  ghost function EntriesOf(r: Registry): map<EntryId, Entry>
    requires Registered(r)
  {
    map id | id in r.entries :: EntryAt(r, id)
  }

  ghost predicate OneToOne(m: map<EntryId, Entry>) {
    forall p, q | p in m && q in m :: SameIds(m[p], m[q])
  }

  /** Names and ids correspond one to one across all entries. */
  ghost predicate Consistent(r: Registry)
    requires Registered(r)
  {
    OneToOne(EntriesOf(r))
  }

  ghost function DatabaseId(r: Registry, d: Name): (i: nat)
    requires Readable(r) && d in AllDatabases(r)
    ensures HasDatabase(r, d, i)
  {
    var id :| id in r.entries && d in EntryAt(r, id).databases;
    EntryAt(r, id).databases[d]
  }

  ghost function SchemaIdsOf(r: Registry, n: SchemaName): (i: SchemaIds)
    requires Readable(r) && n in AllSchemas(r)
    ensures HasSchema(r, n, i)
  {
    var id :| id in r.entries && n in EntryAt(r, id).schemas;
    EntryAt(r, id).schemas[n]
  }

  /** In a consistent registry the ids of an entry are the ids of the names. */
  lemma ConsistentIds(r: Registry, id: EntryId)
    requires Readable(r) && Consistent(r) && id in r.entries
    ensures forall d | d in EntryAt(r, id).databases ::
              d in AllDatabases(r) && EntryAt(r, id).databases[d] == DatabaseId(r, d)
    ensures forall n | n in EntryAt(r, id).schemas ::
              && n in AllSchemas(r) && n.database in AllDatabases(r)
              && EntryAt(r, id).schemas[n].schema == SchemaIdsOf(r, n).schema
              && EntryAt(r, id).schemas[n].database == DatabaseId(r, n.database)
  {
    var e, m := EntryAt(r, id), EntriesOf(r);
    assert WellFormed(e) && m[id] == e;
    forall d | d in e.databases ensures d in AllDatabases(r) && e.databases[d] == DatabaseId(r, d) {
      var i := DatabaseId(r, d);
      var q :| q in r.entries && d in EntryAt(r, q).databases && EntryAt(r, q).databases[d] == i;
      assert m[q] == EntryAt(r, q) && SameIds(e, m[q]);
    }
    forall n | n in e.schemas ensures n in AllSchemas(r) && e.schemas[n].schema == SchemaIdsOf(r, n).schema {
      var i := SchemaIdsOf(r, n);
      var q :| q in r.entries && n in EntryAt(r, q).schemas && EntryAt(r, q).schemas[n] == i;
      assert m[q] == EntryAt(r, q) && SameIds(e, m[q]);
      assert SchemaRefs(e.schemas)[n] == SchemaRefs(EntryAt(r, q).schemas)[n];
    }
  }

  const PublicSchema := SchemaName("db", "public")
  const PublicOnly := [SchemaDescriptor(PublicSchema, Some([]))]

  function PublicEntry(id: EntryId, database: nat, schema: nat): Entry {
    Entry(id, map["db" := database], map[PublicSchema := SchemaIds(database, schema)], [], map[])
  }

  lemma PublicDescribed(r: Registry, id: EntryId)
    requires id in r.pools && r.pools[id].entry == Entry(id, map[], map[], [], map[])
    requires r.declared == Declared(map[], map[])
    ensures var (r', status) := Described(r, id, PublicOnly);
      && status == Ok && r'.declared == r.declared && r'.entries == r.entries && r'.nextDatabase == r.nextDatabase + 1
      && r'.pools == r.pools[id := r.pools[id].(entry := PublicEntry(id, r.nextDatabase, r.nextSchema))]
  {
    var g := Growing(r.pools[id].entry, r.nextDatabase, r.nextSchema, SchemaIds(0, 0));
    var g' := RegisterSchema(g, r.declared, PublicSchema);
    assert PublicOnly[1..] == [];
    assert AddTables(g', PublicSchema, []) == (g', Ok);
    assert AddSchemas(g, r.declared, PublicOnly) == (g', Ok);
    assert g'.entry == PublicEntry(id, r.nextDatabase, r.nextSchema);
  }

  lemma DisagreeingPools(r2: Registry, r3: Registry, r4: Registry)
    requires r2 == PoolAdded(PoolAdded(Empty(0), 1, 0), 2, 1)
    requires r3 == Described(r2, 1, PublicOnly).0 && r4 == Described(r3, 2, PublicOnly).0
    ensures Described(r2, 1, PublicOnly).1 == Ok && Described(r3, 2, PublicOnly).1 == Ok
    ensures r4.entries == map[1 := ToPool(1), 2 := ToPool(2)] && r4.pools.Keys == {1, 2}
    ensures r4.pools[1].entry.databases == map["db" := 256] && r4.pools[2].entry.databases == map["db" := 257]
  {
    PublicDescribed(r2, 1);
    PublicDescribed(r3, 2);
  }

  lemma IdsDisagree(r: Registry)
    requires Registered(r) && r.entries == map[1 := ToPool(1), 2 := ToPool(2)] && r.pools.Keys == {1, 2}
    requires r.pools[1].entry.databases == map["db" := 256] && r.pools[2].entry.databases == map["db" := 257]
    ensures !Consistent(r)
  {
    var m := EntriesOf(r);
    assert m[1] == r.pools[1].entry && m[2] == r.pools[2].entry;
    assert !Compatible(m[1].databases, m[2].databases) by {
      assert "db" in m[1].databases && "db" in m[2].databases;
    }
    assert !SameIds(m[1], m[2]);
  }

  /** Registries are not always consistent: a pool only looks up names that scripts declared, so two
      pools that describe the same schema get different ids for it. */
  lemma PoolsCanDisagree(r1: Registry, r2: Registry, r3: Registry, r4: Registry, run: seq<Event>)
    requires r1 == PoolAdded(Empty(0), 1, 0) && r2 == PoolAdded(r1, 2, 1)
    requires r3 == Described(r2, 1, PublicOnly).0 && r4 == Described(r3, 2, PublicOnly).0
    requires run == [Event(AddPool(1, 0), Ok, r1), Event(AddPool(2, 1), Ok, r2),
                     Event(Describe(1, PublicOnly), Ok, r3), Event(Describe(2, PublicOnly), Ok, r4)]
    ensures IsRun(Empty(0), run) && Readable(r4) && !Consistent(r4)
  {
    DisagreeingPools(r2, r3, r4);
    LongerRun(r3, run[3], []);
    LongerRun(r2, run[2], [run[3]]);
    LongerRun(r1, run[1], [run[2], run[3]]);
    LongerRun(Empty(0), run[0], [run[1], run[2], run[3]]);
    LastIsReadable(run);
    IdsDisagree(r4);
  }

  lemma LastIsReadable(run: seq<Event>)
    requires IsRun(Empty(0), run) && run != []
    ensures Readable(run[|run| - 1].after)
  {
    EmptyIsValid(0);
    RunsAreValid(Empty(0), run);
    ValidIsReadable(run[|run| - 1].after);
  }

  // ----- declarations in ranked order -----

  ghost function TablesOf(r: Registry, ks: seq<RankKey>): (ts: seq<Table>)
    requires Readable(r) && forall k | k in ks :: k in r.ranked
    decreases |ks|
  {
    if ks == [] then [] else TablesOf(r, ks[..|ks| - 1]) + EntryAt(r, ks[|ks| - 1].id).tables
  }

  /** All table declarations, entry by entry in ranked order. */
  ghost function Declarations(r: Registry): seq<Table>
    requires Readable(r)
  {
    RanksAreOrdered();
    TablesOf(r, Listing(RankLess, r.ranked))
  }

  predicate Mentions(ts: seq<Table>, name: TableName) {
    ts != [] && (ts[0].name == name || Mentions(ts[1..], name))
  }

  function FirstNamed(ts: seq<Table>, name: TableName): (t: Table)
    requires Mentions(ts, name)
    ensures t.name == name
  {
    if ts[0].name == name then ts[0] else FirstNamed(ts[1..], name)
  }

  lemma {:induction false} MentionsMeansDeclares(ts: seq<Table>, name: TableName)
    ensures Mentions(ts, name) <==> exists i :: 0 <= i < |ts| && ts[i].name == name
    ensures Mentions(ts, name) ==> exists i: nat :: IsFirst(ts, name, i) && ts[i] == FirstNamed(ts, name)
    decreases |ts|
  {
    if ts != [] {
      var rest := ts[1..];
      MentionsMeansDeclares(rest, name);
      if ts[0].name == name {
        assert IsFirst(ts, name, 0);
      } else {
        if Mentions(rest, name) {
          var i: nat :| IsFirst(rest, name, i) && rest[i] == FirstNamed(rest, name);
          assert IsFirst(ts, name, i + 1) && ts[i + 1] == FirstNamed(ts, name);
        }
        assert forall i | 0 < i < |ts| :: ts[i] == rest[i - 1];
      }
    }
  }

  lemma {:induction false} FirstOfConcat(a: seq<Table>, b: seq<Table>, name: TableName)
    ensures Mentions(a + b, name) <==> Mentions(a, name) || Mentions(b, name)
    ensures Mentions(a, name) ==> FirstNamed(a + b, name) == FirstNamed(a, name)
    ensures !Mentions(a, name) && Mentions(b, name) ==> FirstNamed(a + b, name) == FirstNamed(b, name)
    decreases |a|
  {
    if a == [] {
      assert a + b == b;
    } else {
      assert (a + b)[1..] == a[1..] + b;
      FirstOfConcat(a[1..], b, name);
    }
  }

  /** The first declaration in ranked order is the declaration of the least entry declaring it. */
  lemma {:induction false} FirstIsLeast(r: Registry, ks: seq<RankKey>, name: TableName)
    requires Readable(r) && (forall k | k in ks :: k in r.ranked) && Ascending(RankLess, ks)
    requires Mentions(TablesOf(r, ks), name)
    ensures exists k | k in ks :: IsLeastDeclaring(r, ks, k, name, FirstNamed(TablesOf(r, ks), name))
    decreases |ks|
  {
    var front, last := ks[..|ks| - 1], ks[|ks| - 1];
    var ts, own := TablesOf(r, front), EntryAt(r, last.id).tables;
    assert ks == front + [last];
    FirstOfConcat(ts, own, name);
    if Mentions(ts, name) {
      FirstIsLeast(r, front, name);
      var k :| k in front && IsLeastDeclaring(r, front, k, name, FirstNamed(ts, name));
      assert IsLeastDeclaring(r, ks, k, name, FirstNamed(ts, name));
    } else {
      MentionsMeansDeclares(own, name);
      forall l | l in front ensures !Declares(EntryAt(r, l.id), name) {
        MentionedByEntry(r, front, l, name);
      }
      assert IsLeastDeclaring(r, ks, last, name, FirstNamed(own, name));
    }
  }

  ghost predicate IsLeastDeclaring(r: Registry, ks: seq<RankKey>, k: RankKey, name: TableName, t: Table)
    requires Readable(r) && (forall l | l in ks :: l in r.ranked) && k in ks
  {
    && IsFirstOf(EntryAt(r, k.id), name, t)
    && forall l | l in ks && Declares(EntryAt(r, l.id), name) :: l == k || RankLess(k, l)
  }

  lemma {:induction false} MentionedByEntry(r: Registry, ks: seq<RankKey>, k: RankKey, name: TableName)
    requires Readable(r) && (forall l | l in ks :: l in r.ranked) && k in ks
    ensures Declares(EntryAt(r, k.id), name) ==> Mentions(TablesOf(r, ks), name)
    decreases |ks|
  {
    var front, last := ks[..|ks| - 1], ks[|ks| - 1];
    assert ks == front + [last];
    FirstOfConcat(TablesOf(r, front), EntryAt(r, last.id).tables, name);
    if k == last {
      MentionsMeansDeclares(EntryAt(r, k.id).tables, name);
    } else {
      MentionedByEntry(r, front, k, name);
    }
  }

  /** The declaration that a flattened catalog keeps is the one that wins by rank: the declaration
      a lookup without an ignored entry returns. */
  lemma KeptIsWinner(r: Registry, name: TableName)
    requires Readable(r) && Mentions(Declarations(r), name)
    ensures IsWinner(r, Declaring(r, name, None), name, Some(FirstNamed(Declarations(r), name)))
  {
    RanksAreOrdered();
    var ks := Listing(RankLess, r.ranked);
    FirstIsLeast(r, ks, name);
    var t := FirstNamed(Declarations(r), name);
    var k :| k in ks && IsLeastDeclaring(r, ks, k, name, t);
    var i: nat :| IsFirst(EntryAt(r, k.id).tables, name, i) && EntryAt(r, k.id).tables[i] == t;
    assert Declares(EntryAt(r, k.id), name);
    assert IsLeast(RankLess, Declaring(r, name, None), k);
  }

  /** A lookup finds exactly the declaration that a flattened catalog keeps: whatever wins among the
      entries that the lookup searches is the first declaration in ranked order. */
  lemma LookupFindsKept(r: Registry, name: TableName, found: Option<Table>)
    requires Valid(r) && Readable(r) && Searchable(r.pools, r.bySchema.Keys)
    requires IsWinner(r, Findable(r, name, None), name, found)
    ensures found == if Mentions(Declarations(r), name) then Some(FirstNamed(Declarations(r), name)) else None
  {
    FindableIsDeclaring(r, name, None);
    if Mentions(Declarations(r), name) {
      KeptIsWinner(r, name);
      WinnerIsUnique(r, Declaring(r, name, None), name, found, Some(FirstNamed(Declarations(r), name)));
    } else {
      RanksAreOrdered();
      forall k | k in r.ranked ensures !Declares(EntryAt(r, k.id), name) {
        MentionedByEntry(r, Listing(RankLess, r.ranked), k, name);
      }
    }
  }

  // ----- the tree -----

  /** A table id as one number: the entry in the upper, the position in the lower 32 bits. */
  function Pack(id: TableId): nat { id.entry * 0x1_0000_0000 + id.position }

  /** The entry and the position can be read back from the number, so that it identifies a table. */
  lemma PackedTwice(a: TableId, b: TableId)
    requires a.position < 0x1_0000_0000 && b.position < 0x1_0000_0000
    ensures Pack(a) / 0x1_0000_0000 == a.entry && Pack(a) % 0x1_0000_0000 == a.position
    ensures Pack(a) == Pack(b) <==> a == b
  {
  }

  predicate SchemaNameLess(m: SchemaName, n: SchemaName) {
    NameLess(m.database, n.database) || (m.database == n.database && NameLess(m.schema, n.schema))
  }

  predicate TableNameLess(k: TableName, l: TableName) {
    SchemaNameLess(k.schemaName, l.schemaName) || (k.schemaName == l.schemaName && NameLess(k.table, l.table))
  }

  lemma FullNamesAreOrdered()
    ensures StrictTotal(SchemaNameLess) && StrictTotal(TableNameLess)
  {
    NamesAreOrdered();
  }

  function SchemasIn(ns: set<SchemaName>, d: Name): set<SchemaName> { set n | n in ns && n.database == d }

  function TablesIn(ks: set<TableName>, n: SchemaName): set<TableName> { set k | k in ks && k.schemaName == n }

  ghost function TableNames(ts: seq<Table>): (ks: set<TableName>)
    ensures forall k :: k in ks <==> Mentions(ts, k)
  {
    assert forall t | t in ts :: Mentions(ts, t.name) by {
      forall t | t in ts ensures Mentions(ts, t.name) { MentionsMeansDeclares(ts, t.name); }
    }
    assert forall k | Mentions(ts, k) :: exists t :: t in ts && t.name == k by {
      forall k | Mentions(ts, k) ensures exists t :: t in ts && t.name == k { MentionsMeansDeclares(ts, k); }
    }
    set t | t in ts :: t.name
  }

  function ColumnNodes(columns: seq<Name>): seq<Node> {
    seq(|columns|, i requires 0 <= i < |columns| => Node(columns[i], i, []))
  }

  ghost function TableNode(t: Table): Node { Node(t.name.table, Pack(t.id), ColumnNodes(t.columns)) }

  ghost function TableNodes(ts: seq<Table>, ks: seq<TableName>): seq<Node>
    requires forall k | k in ks :: Mentions(ts, k)
  {
    seq(|ks|, i requires 0 <= i < |ks| => TableNode(FirstNamed(ts, ks[i])))
  }

  /** The tables of a schema, in name order. */
  ghost function TablesUnder(ts: seq<Table>, n: SchemaName): (ks: seq<TableName>)
    ensures Ascending(TableNameLess, ks) && forall k :: k in ks <==> Mentions(ts, k) && k.schemaName == n
  {
    FullNamesAreOrdered();
    Listing(TableNameLess, TablesIn(TableNames(ts), n))
  }

  /** The ids of all names of a registry. */
  datatype Ids = Ids(databases: map<Name, nat>, schemas: map<SchemaName, nat>)

  ghost function IdsOf(r: Registry): Ids
    requires Readable(r)
  {
    Ids(map d | d in AllDatabases(r) :: DatabaseId(r, d), map n | n in AllSchemas(r) :: SchemaIdsOf(r, n).schema)
  }

  ghost function SchemaNode(ids: Ids, ts: seq<Table>, n: SchemaName): Node
    requires n in ids.schemas
  {
    Node(n.schema, ids.schemas[n], TableNodes(ts, TablesUnder(ts, n)))
  }

  ghost function SchemaNodes(ids: Ids, ts: seq<Table>, ns: seq<SchemaName>): seq<Node>
    requires forall n | n in ns :: n in ids.schemas
  {
    seq(|ns|, i requires 0 <= i < |ns| => SchemaNode(ids, ts, ns[i]))
  }

  /** The schemas of a database, in name order. */
  ghost function SchemasUnder(ids: Ids, d: Name): (ns: seq<SchemaName>)
    ensures Ascending(SchemaNameLess, ns) && forall n :: n in ns <==> n in ids.schemas && n.database == d
  {
    FullNamesAreOrdered();
    Listing(SchemaNameLess, SchemasIn(ids.schemas.Keys, d))
  }

  /** All databases, in name order. */
  ghost function AllDatabasesListed(ids: Ids): (ds: seq<Name>)
    ensures Ascending(NameLess, ds) && forall d :: d in ds <==> d in ids.databases
  {
    NamesAreOrdered();
    Listing(NameLess, ids.databases.Keys)
  }

  ghost function DatabaseNode(ids: Ids, ts: seq<Table>, d: Name): Node
    requires d in ids.databases
  {
    Node(d, ids.databases[d], SchemaNodes(ids, ts, SchemasUnder(ids, d)))
  }

  ghost function DatabaseNodes(ids: Ids, ts: seq<Table>, ds: seq<Name>): seq<Node>
    requires forall d | d in ds :: d in ids.databases
  {
    seq(|ds|, i requires 0 <= i < |ds| => DatabaseNode(ids, ts, ds[i]))
  }

  /** The tree a flattened catalog shows. */
  ghost function OutlineOf(r: Registry): seq<Node>
    requires Readable(r)
  {
    DatabaseNodes(IdsOf(r), Declarations(r), AllDatabasesListed(IdsOf(r)))
  }

  // ----- the levels of the tree -----

  /** The schemas of several databases, one database after the other. */
  ghost function SchemasOver(ids: Ids, ds: seq<Name>): (ns: seq<SchemaName>)
    ensures forall n :: n in ns <==> n in ids.schemas && n.database in ds
    decreases |ds|
  {
    if ds == [] then []
    else
      assert ds == ds[..|ds| - 1] + [ds[|ds| - 1]];
      SchemasOver(ids, ds[..|ds| - 1]) + SchemasUnder(ids, ds[|ds| - 1])
  }

  ghost function TablesOver(ts: seq<Table>, ns: seq<SchemaName>): (ks: seq<TableName>)
    ensures forall k :: k in ks <==> Mentions(ts, k) && k.schemaName in ns
    decreases |ns|
  {
    if ns == [] then []
    else
      assert ns == ns[..|ns| - 1] + [ns[|ns| - 1]];
      TablesOver(ts, ns[..|ns| - 1]) + TablesUnder(ts, ns[|ns| - 1])
  }

  lemma SchemaNodesOfConcat(ids: Ids, ts: seq<Table>, a: seq<SchemaName>, b: seq<SchemaName>)
    requires (forall n | n in a :: n in ids.schemas) && (forall n | n in b :: n in ids.schemas)
    ensures SchemaNodes(ids, ts, a + b) == SchemaNodes(ids, ts, a) + SchemaNodes(ids, ts, b)
  {
  }

  lemma TableNodesOfConcat(ts: seq<Table>, a: seq<TableName>, b: seq<TableName>)
    requires (forall k | k in a :: Mentions(ts, k)) && (forall k | k in b :: Mentions(ts, k))
    ensures TableNodes(ts, a + b) == TableNodes(ts, a) + TableNodes(ts, b)
  {
  }

  lemma LastDatabaseNode(ids: Ids, ts: seq<Table>, ds: seq<Name>)
    requires ds != [] && forall d | d in ds :: d in ids.databases
    ensures Kids(DatabaseNodes(ids, ts, ds))
         == Kids(DatabaseNodes(ids, ts, ds[..|ds| - 1])) + SchemaNodes(ids, ts, SchemasUnder(ids, ds[|ds| - 1]))
  {
    assert DatabaseNodes(ids, ts, ds)[..|ds| - 1] == DatabaseNodes(ids, ts, ds[..|ds| - 1]);
  }

  lemma LastSchemaNode(ids: Ids, ts: seq<Table>, ns: seq<SchemaName>)
    requires ns != [] && forall n | n in ns :: n in ids.schemas
    ensures Kids(SchemaNodes(ids, ts, ns))
         == Kids(SchemaNodes(ids, ts, ns[..|ns| - 1])) + TableNodes(ts, TablesUnder(ts, ns[|ns| - 1]))
  {
    assert SchemaNodes(ids, ts, ns)[..|ns| - 1] == SchemaNodes(ids, ts, ns[..|ns| - 1]);
  }

  lemma {:induction false} SchemaLevel(ids: Ids, ts: seq<Table>, ds: seq<Name>)
    requires forall d | d in ds :: d in ids.databases
    ensures Kids(DatabaseNodes(ids, ts, ds)) == SchemaNodes(ids, ts, SchemasOver(ids, ds))
    decreases |ds|
  {
    if ds != [] {
      var front, last := ds[..|ds| - 1], ds[|ds| - 1];
      assert forall d | d in front :: d in ds;
      SchemaLevel(ids, ts, front);
      LastDatabaseNode(ids, ts, ds);
      SchemaNodesOfConcat(ids, ts, SchemasOver(ids, front), SchemasUnder(ids, last));
    }
  }

  lemma {:induction false} TableLevel(ids: Ids, ts: seq<Table>, ns: seq<SchemaName>)
    requires forall n | n in ns :: n in ids.schemas
    ensures Kids(SchemaNodes(ids, ts, ns)) == TableNodes(ts, TablesOver(ts, ns))
    decreases |ns|
  {
    if ns != [] {
      var front, last := ns[..|ns| - 1], ns[|ns| - 1];
      assert forall n | n in front :: n in ns;
      TableLevel(ids, ts, front);
      LastSchemaNode(ids, ts, ns);
      TableNodesOfConcat(ts, TablesOver(ts, front), TablesUnder(ts, last));
    }
  }

  lemma {:induction false} SchemasOverAscends(ids: Ids, ds: seq<Name>)
    requires Ascending(NameLess, ds)
    ensures Ascending(SchemaNameLess, SchemasOver(ids, ds))
    decreases |ds|
  {
    if ds != [] {
      var last := |ds| - 1;
      SchemasOverAscends(ids, ds[..last]);
      assert forall d | d in ds[..last] :: NameLess(d, ds[last]);
      assert forall m, n | m in SchemasOver(ids, ds[..last]) && n in SchemasUnder(ids, ds[last]) ::
               SchemaNameLess(m, n);
    }
  }

  lemma {:induction false} TablesOverAscends(ts: seq<Table>, ns: seq<SchemaName>)
    requires Ascending(SchemaNameLess, ns)
    ensures Ascending(TableNameLess, TablesOver(ts, ns))
    decreases |ns|
  {
    if ns != [] {
      var last := |ns| - 1;
      TablesOverAscends(ts, ns[..last]);
      assert forall n | n in ns[..last] :: SchemaNameLess(n, ns[last]);
      assert forall k, l | k in TablesOver(ts, ns[..last]) && l in TablesUnder(ts, ns[last]) :: TableNameLess(k, l);
    }
  }

  ghost function AllSchemasListed(ids: Ids): (ns: seq<SchemaName>)
    ensures Ascending(SchemaNameLess, ns) && forall n :: n in ns <==> n in ids.schemas
  {
    FullNamesAreOrdered();
    Listing(SchemaNameLess, ids.schemas.Keys)
  }

  ghost function AllTablesListed(ts: seq<Table>): (ks: seq<TableName>)
    ensures Ascending(TableNameLess, ks) && forall k :: k in ks <==> Mentions(ts, k)
  {
    FullNamesAreOrdered();
    Listing(TableNameLess, TableNames(ts))
  }

  lemma ListedSizes(ids: Ids, ts: seq<Table>)
    ensures |AllDatabasesListed(ids)| == |ids.databases|
    ensures |AllSchemasListed(ids)| == |ids.schemas|
    ensures |AllTablesListed(ts)| == |TableNames(ts)| && Distinct(AllTablesListed(ts))
  {
    NamesAreOrdered();
    FullNamesAreOrdered();
    ListingSize(NameLess, ids.databases.Keys);
    ListingSize(SchemaNameLess, ids.schemas.Keys);
    ListingSize(TableNameLess, TableNames(ts));
    AscendingIsDistinct(TableNameLess, AllTablesListed(ts));
  }

  /** Tables belong to known schemas and schemas to known databases. */
  ghost predicate Rooted(ids: Ids, ts: seq<Table>) {
    && (forall k | Mentions(ts, k) :: k.schemaName in ids.schemas)
    && (forall n | n in ids.schemas :: n.database in ids.databases)
  }

  /** Level by level the outline lists every database, every schema and every table exactly once,
      in the order of the full names. */
  lemma OutlineLevels(ids: Ids, ts: seq<Table>)
    requires Rooted(ids, ts)
    ensures Kids(DatabaseNodes(ids, ts, AllDatabasesListed(ids))) == SchemaNodes(ids, ts, AllSchemasListed(ids))
    ensures Kids(SchemaNodes(ids, ts, AllSchemasListed(ids))) == TableNodes(ts, AllTablesListed(ts))
  {
    var ds := AllDatabasesListed(ids);
    FullNamesAreOrdered();
    SchemaLevel(ids, ts, ds);
    SchemasOverAscends(ids, ds);
    AscendingUnique(SchemaNameLess, AllSchemasListed(ids), SchemasOver(ids, ds));
    TableLevel(ids, ts, AllSchemasListed(ids));
    TablesOverAscends(ts, AllSchemasListed(ids));
    AscendingUnique(TableNameLess, AllTablesListed(ts), TablesOver(ts, AllSchemasListed(ids)));
  }

  lemma {:induction false} DeclaredTablesBelong(r: Registry, ks: seq<RankKey>, t: Table)
    requires Readable(r) && (forall k | k in ks :: k in r.ranked) && t in TablesOf(r, ks)
    ensures exists k | k in ks :: t in EntryAt(r, k.id).tables
    decreases |ks|
  {
    var front, last := ks[..|ks| - 1], ks[|ks| - 1];
    assert ks == front + [last];
    if t in TablesOf(r, front) {
      DeclaredTablesBelong(r, front, t);
    }
  }

  /** The outline of a registry is rooted. */
  lemma RegistriesAreRooted(r: Registry)
    requires Readable(r)
    ensures Rooted(IdsOf(r), Declarations(r))
    ensures forall t | t in Declarations(r) :: t.name.schemaName in AllSchemas(r)
  {
    RanksAreOrdered();
    var ranked := Listing(RankLess, r.ranked);
    forall t | t in Declarations(r) ensures t.name.schemaName in AllSchemas(r) {
      DeclaredTablesBelong(r, ranked, t);
      var k :| k in ranked && t in EntryAt(r, k.id).tables;
      assert WellFormed(EntryAt(r, k.id));
    }
    forall k | Mentions(Declarations(r), k) ensures k.schemaName in AllSchemas(r) {
      MentionsMeansDeclares(Declarations(r), k);
    }
    forall n | n in AllSchemas(r) ensures n.database in AllDatabases(r) {
      var id :| id in r.entries && n in EntryAt(r, id).schemas;
      assert WellFormed(EntryAt(r, id));
    }
  }
}
