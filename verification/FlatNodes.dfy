/** The nodes a flattened catalog is written from: one per database and schema name, one per kept
    table declaration, and the dictionary of all names. */
module FlatNodes {
  import opened Order
  import opened DescriptorPool
  import opened CatalogState
  import opened Precedence
  import opened Layout
  import opened Outline

  // ----- the name dictionary -----

  datatype Dictionary = Dictionary(index: map<Name, nat>, names: seq<Name>)

  ghost predicate DictionaryAgrees(d: Dictionary) {
    && |d.index| == |d.names|
    && (forall n {:trigger n in d.index} | n in d.index :: Decodes(d.names, d.index[n], n))
  }

  /** A name is added once; its id is the number of names before it, and never changes. */
  method AddName(d: Dictionary, name: Name) returns (d': Dictionary)
    requires DictionaryAgrees(d)
    ensures DictionaryAgrees(d') && DictionaryGrew(d, d') && name in d'.index
  {
    d' := if name in d.index then d else Dictionary(d.index[name := |d.index|], d.names + [name]);
  }

  /** No name leaves the dictionary, and no name id changes. */
  ghost predicate DictionaryGrew(d: Dictionary, d': Dictionary) {
    forall n {:trigger n in d.index} | n in d.index :: n in d'.index && d'.index[n] == d.index[n]
  }

  // ----- counting -----

  ghost predicate Injective<K(!new), V(!new)>(m: map<K, V>) {
    forall k, l | k in m && l in m && m[k] == m[l] :: k == l
  }

  lemma {:induction false} InjectiveSize<K(!new), V(!new)>(m: map<K, V>)
    requires Injective(m)
    ensures |m.Values| == |m|
    decreases m.Keys
  {
    if m != map[] {
      var k :| k in m;
      var rest := m - {k};
      assert rest.Keys == m.Keys - {k};
      InjectiveSize(rest);
      assert m.Values == rest.Values + {m[k]} by {
        assert forall v | v in m.Values :: exists l :: l in m && m[l] == v;
        forall l | l in m ensures m[l] in rest.Values + {m[k]} {
          if l != k { assert l in rest && rest[l] == m[l]; }
        }
        forall l | l in rest ensures rest[l] in m.Values { assert l in m && m[l] == rest[l]; }
      }
      assert m[k] !in rest.Values;
    }
  }

  lemma SubsetSize<T>(a: set<T>, b: set<T>)
    requires a <= b
    ensures |a| <= |b| && (|a| == |b| ==> a == b)
  {
    var rest := b - a;
    assert b == a + rest;
    if |a| == |b| { assert rest == {}; }
  }

  /** The dictionary holds every name once. */
  lemma DictionaryIsDistinct(d: Dictionary)
    requires DictionaryAgrees(d)
    ensures Distinct(d.names)
  {
    assert Injective(d.index) by {
      forall n, o | n in d.index && o in d.index && d.index[n] == d.index[o] ensures n == o {
        assert d.names[d.index[n]] == n && d.names[d.index[o]] == o;
      }
    }
    InjectiveSize(d.index);
    var positions := Positions(|d.names|);
    assert d.index.Values <= positions;
    SubsetSize(d.index.Values, positions);
    forall i | 0 <= i < |d.names| ensures d.names[i] in d.index && d.index[d.names[i]] == i {
      assert i in d.index.Values;
      var n :| n in d.index && d.index[n] == i;
    }
  }

  ghost function Positions(n: nat): (s: set<nat>)
    ensures |s| == n && forall i: nat :: i in s <==> i < n
  {
    if n == 0 then {} else Positions(n - 1) + {n - 1}
  }

  // ----- database and schema nodes -----

  /** The nodes of one level carry their catalog ids, and `byId` finds each node by its id. */
  ghost predicate Held<K(!new)>(ids: map<K, nat>, nodes: map<K, nat>, byId: map<nat, K>) {
    && |byId| == |nodes|
    && (forall k {:trigger k in nodes} | k in nodes ::
         k in ids && nodes[k] == ids[k] && nodes[k] in byId && byId[nodes[k]] == k)
  }

  /** A node that is found by its id is the node of that name. */
  lemma KnownId<K(!new)>(ids: map<K, nat>, nodes: map<K, nat>, byId: map<nat, K>, k: K)
    requires Injective(ids) && Held(ids, nodes, byId) && k in ids && ids[k] in byId
    ensures nodes.Keys + {k} == nodes.Keys
  {
    assert Injective(nodes) by {
      forall l, m | l in nodes && m in nodes && nodes[l] == nodes[m] ensures l == m {
        assert byId[nodes[l]] == l;
      }
    }
    InjectiveSize(nodes);
    assert nodes.Values <= byId.Keys;
    SubsetSize(nodes.Values, byId.Keys);
    assert ids[k] in nodes.Values;
    var l :| l in nodes && nodes[l] == ids[k];
  }

  lemma HeldWith<K(!new)>(ids: map<K, nat>, nodes: map<K, nat>, byId: map<nat, K>, k: K)
    requires Held(ids, nodes, byId) && k in ids && ids[k] !in byId
    ensures k !in nodes && Held(ids, nodes[k := ids[k]], byId[ids[k] := k])
    ensures nodes[k := ids[k]].Keys == nodes.Keys + {k}
  {
  }

  ghost predicate Named<K(!new)>(ks: set<K>, dictionary: Dictionary, nameOf: K -> Name) {
    forall k {:trigger k in ks} | k in ks :: nameOf(k) in dictionary.index
  }

  /** Create a node, and add its name, unless there is a node with this id. */
  method RegisterNode<K(==, !new)>(nodes: map<K, nat>, byId: map<nat, K>, dictionary: Dictionary, k: K, id: nat,
                                   nameOf: K -> Name, ghost ids: map<K, nat>)
    returns (nodes': map<K, nat>, byId': map<nat, K>, dictionary': Dictionary)
    requires Injective(ids) && Held(ids, nodes, byId) && k in ids && ids[k] == id
    requires DictionaryAgrees(dictionary) && Named(nodes.Keys, dictionary, nameOf)
    ensures Held(ids, nodes', byId') && nodes'.Keys == nodes.Keys + {k}
    ensures DictionaryAgrees(dictionary') && DictionaryGrew(dictionary, dictionary')
    ensures Named(nodes'.Keys, dictionary', nameOf)
  {
    if id in byId {
      KnownId(ids, nodes, byId, k);
      return nodes, byId, dictionary;
    }
    HeldWith(ids, nodes, byId, k);
    assert k !in nodes;
    dictionary' := AddName(dictionary, nameOf(k));
    StillNamed(nodes.Keys, dictionary, dictionary', nameOf);
    nodes' := nodes[k := id];
    byId' := byId[id := k];
  }

  lemma MovedOver<K>(done: set<K>, todo: set<K>, k: K)
    requires k in todo
    ensures (done + {k}) + (todo - {k}) == done + todo
  {
  }

  /** Create the missing nodes of one entry on one level. */
  method RegisterNodes<K(==, !new)>(refs: map<K, nat>, nodes: map<K, nat>, byId: map<nat, K>, dictionary: Dictionary,
                                    nameOf: K -> Name, ghost ids: map<K, nat>)
    returns (nodes': map<K, nat>, byId': map<nat, K>, dictionary': Dictionary)
    requires Injective(ids) && Held(ids, nodes, byId) && forall k | k in refs :: k in ids && ids[k] == refs[k]
    requires DictionaryAgrees(dictionary) && Named(nodes.Keys, dictionary, nameOf)
    ensures Held(ids, nodes', byId') && nodes'.Keys == nodes.Keys + refs.Keys
    ensures DictionaryAgrees(dictionary') && DictionaryGrew(dictionary, dictionary')
    ensures Named(nodes'.Keys, dictionary', nameOf)
  {
    nodes', byId', dictionary' := nodes, byId, dictionary;
    var todo := refs.Keys;
    while todo != {}
      invariant todo <= refs.Keys && nodes'.Keys + todo == nodes.Keys + refs.Keys
      invariant Held(ids, nodes', byId')
      invariant DictionaryAgrees(dictionary') && DictionaryGrew(dictionary, dictionary')
                  && Named(nodes'.Keys, dictionary', nameOf)
      decreases |todo|
    {
      var k :| k in todo;
      MovedOver(nodes'.Keys, todo, k);
      nodes', byId', dictionary' := RegisterNode(nodes', byId', dictionary', k, refs[k], nameOf, ids);
      todo := todo - {k};
    }
  }

  lemma StillNamed<K(!new)>(ks: set<K>, d: Dictionary, d': Dictionary, nameOf: K -> Name)
    requires Named(ks, d, nameOf) && DictionaryGrew(d, d')
    ensures Named(ks, d', nameOf)
  {
  }

  ghost predicate EntryAgrees(ids: Ids, e: Entry) {
    && (forall d | d in e.databases :: d in ids.databases && ids.databases[d] == e.databases[d])
    && (forall m | m in e.schemas :: m in ids.schemas && e.schemas[m].schema == ids.schemas[m])
    && (forall m | m in e.schemas :: m.database in e.databases && e.schemas[m].database == e.databases[m.database])
  }

  lemma DatabaseIdsDiffer(r: Registry)
    requires Readable(r) && Consistent(r)
    ensures Injective(IdsOf(r).databases)
  {
    var ids := IdsOf(r).databases;
    forall d, e | d in ids && e in ids && ids[d] == ids[e] ensures d == e {
      assert HasDatabase(r, d, ids[d]) && HasDatabase(r, e, ids[e]);
      var p :| p in r.entries && d in EntryAt(r, p).databases && EntryAt(r, p).databases[d] == ids[d];
      var q :| q in r.entries && e in EntryAt(r, q).databases && EntryAt(r, q).databases[e] == ids[e];
      assert SameIds(EntriesOf(r)[p], EntriesOf(r)[q]);
    }
  }

  lemma SchemaIdsDiffer(r: Registry)
    requires Readable(r) && Consistent(r)
    ensures Injective(IdsOf(r).schemas)
  {
    var ids := IdsOf(r).schemas;
    forall m, n | m in ids && n in ids && ids[m] == ids[n] ensures m == n {
      assert HasSchema(r, m, SchemaIdsOf(r, m)) && HasSchema(r, n, SchemaIdsOf(r, n));
      var p :| p in r.entries && m in EntryAt(r, p).schemas && EntryAt(r, p).schemas[m] == SchemaIdsOf(r, m);
      var q :| q in r.entries && n in EntryAt(r, q).schemas && EntryAt(r, q).schemas[n] == SchemaIdsOf(r, n);
      assert SameIds(EntriesOf(r)[p], EntriesOf(r)[q]);
      assert SchemaRefs(EntriesOf(r)[p].schemas)[m] == SchemaRefs(EntriesOf(r)[q].schemas)[n];
    }
  }

  lemma IdsOfEntry(r: Registry, id: EntryId)
    requires Readable(r) && Consistent(r) && id in r.entries
    ensures EntryAgrees(IdsOf(r), EntryAt(r, id))
  {
    ConsistentIds(r, id);
    assert WellFormed(EntryAt(r, id));
  }

  ghost predicate Covers(r: Registry, todo: set<EntryId>, ds: set<Name>, ss: set<SchemaName>)
    requires Readable(r)
  {
    && ds <= AllDatabases(r) && ss <= AllSchemas(r)
    && forall id | id in r.entries && id !in todo ::
         EntryAt(r, id).databases.Keys <= ds && EntryAt(r, id).schemas.Keys <= ss
  }

  lemma AllNamesCovered(r: Registry, ds: set<Name>, ss: set<SchemaName>)
    requires Readable(r) && Covers(r, {}, ds, ss)
    ensures ds == AllDatabases(r) && ss == AllSchemas(r)
  {
  }

  lemma OneMoreCovered(r: Registry, todo: set<EntryId>, ds: set<Name>, ss: set<SchemaName>, id: EntryId)
    requires Readable(r) && Covers(r, todo, ds, ss) && id in r.entries
    ensures Covers(r, todo - {id}, ds + EntryAt(r, id).databases.Keys, ss + EntryAt(r, id).schemas.Keys)
  {
    assert EntryAt(r, id).databases.Keys <= AllDatabases(r) && EntryAt(r, id).schemas.Keys <= AllSchemas(r);
  }

  /** The nodes of databases and schemas, with the lookups by id and the names seen so far. */
  datatype NameNodes = NameNodes(
    databases: map<Name, nat>, databaseById: map<nat, Name>,
    schemas: map<SchemaName, nat>, schemaById: map<nat, SchemaName>,
    dictionary: Dictionary)

  ghost predicate NamesHeld(ids: Ids, n: NameNodes) {
    && Held(ids.databases, n.databases, n.databaseById)
    && Held(ids.schemas, n.schemas, n.schemaById)
    && DictionaryAgrees(n.dictionary)
    && Named(n.databases.Keys, n.dictionary, DatabaseLabel)
    && Named(n.schemas.Keys, n.dictionary, SchemaLabel)
  }

  function DatabaseLabel(d: Name): Name { d }
  function SchemaLabel(m: SchemaName): Name { m.schema }

  method RegisterEntry(n: NameNodes, e: Entry, ghost ids: Ids) returns (n': NameNodes)
    requires Injective(ids.databases) && Injective(ids.schemas) && EntryAgrees(ids, e) && NamesHeld(ids, n)
    ensures NamesHeld(ids, n')
    ensures n'.databases.Keys == n.databases.Keys + e.databases.Keys
    ensures n'.schemas.Keys == n.schemas.Keys + e.schemas.Keys
  {
    var databases, databaseById, dictionary :=
      RegisterNodes(e.databases, n.databases, n.databaseById, n.dictionary, DatabaseLabel, ids.databases);
    StillNamed(n.schemas.Keys, n.dictionary, dictionary, SchemaLabel);
    // Every schema finds its database node by id.
    assert forall m | m in e.schemas ::
             e.schemas[m].database in databaseById && databaseById[e.schemas[m].database] == m.database;
    var schemas, schemaById, dictionary' :=
      RegisterNodes(SchemaRefs(e.schemas), n.schemas, n.schemaById, dictionary, SchemaLabel, ids.schemas);
    StillNamed(databases.Keys, dictionary, dictionary', DatabaseLabel);
    n' := NameNodes(databases, databaseById, schemas, schemaById, dictionary');
  }

  /** Register the databases and schemas of all entries, in any order of the entries. */
  method CollectNames(r: Registry) returns (n: NameNodes)
    requires Readable(r) && Consistent(r)
    ensures NamesHeld(IdsOf(r), n) && n.databases.Keys == AllDatabases(r) && n.schemas.Keys == AllSchemas(r)
  {
    n := NameNodes(map[], map[], map[], map[], Dictionary(map[], []));
    DatabaseIdsDiffer(r);
    SchemaIdsDiffer(r);
    var todo := r.entries.Keys;
    ghost var ids := IdsOf(r);
    while todo != {}
      invariant todo <= r.entries.Keys
      invariant Covers(r, todo, n.databases.Keys, n.schemas.Keys)
      invariant NamesHeld(ids, n)
      decreases |todo|
    {
      var id :| id in todo;
      IdsOfEntry(r, id);
      OneMoreCovered(r, todo, n.databases.Keys, n.schemas.Keys, id);
      n := RegisterEntry(n, EntryAt(r, id), ids);
      todo := todo - {id};
    }
    AllNamesCovered(r, n.databases.Keys, n.schemas.Keys);
  }

  // ----- table and column nodes -----

  datatype ColumnEntry = ColumnEntry(columnId: nat, name: Name)
  datatype TableEntry = TableEntry(id: nat, begin: nat, count: nat)
  datatype TableStore = TableStore(nodes: map<TableName, TableEntry>, columns: seq<ColumnEntry>)

  function TableLabel(k: TableName): Name { k.table }

  function ColumnEntries(names: seq<Name>): seq<ColumnEntry> {
    seq(|names|, i requires 0 <= i < |names| => ColumnEntry(i, names[i]))
  }

  /** A table node carries the id of the declaration, and its columns in order. */
  ghost predicate Holds(e: TableEntry, columns: seq<ColumnEntry>, t: Table) {
    && e.id == Pack(t.id)
    && e.count == |t.columns|
    && e.begin + e.count <= |columns|
    && columns[e.begin..e.begin + e.count] == ColumnEntries(t.columns)
  }

  /** There is one node per table name, and it holds the first declaration. */
  ghost predicate TablesHeld(ts: seq<Table>, nodes: map<TableName, TableEntry>, columns: seq<ColumnEntry>) {
    && (forall k {:trigger k in nodes} | k in nodes :: Mentions(ts, k) && Holds(nodes[k], columns, FirstNamed(ts, k)))
    && (forall k {:trigger Mentions(ts, k)} | Mentions(ts, k) :: k in nodes)
  }

  ghost predicate ColumnsNamed(columns: seq<ColumnEntry>, d: Dictionary) {
    forall c | c in columns :: c.name in d.index
  }

  /** The number of columns of some tables. */
  function Total(nodes: map<TableName, TableEntry>, ks: seq<TableName>): nat
    requires forall k | k in ks :: k in nodes
    decreases |ks|
  {
    if ks == [] then 0 else nodes[ks[0]].count + Total(nodes, ks[1..])
  }

  lemma {:induction false} TotalOfConcat(nodes: map<TableName, TableEntry>, a: seq<TableName>, b: seq<TableName>)
    requires (forall k | k in a :: k in nodes) && (forall k | k in b :: k in nodes)
    ensures Total(nodes, a + b) == Total(nodes, a) + Total(nodes, b)
    decreases |a|
  {
    if a == [] {
      assert a + b == b;
    } else {
      assert (a + b)[1..] == a[1..] + b;
      TotalOfConcat(nodes, a[1..], b);
    }
  }

  lemma {:induction false} TotalOfOthers(nodes: map<TableName, TableEntry>, ks: seq<TableName>, k: TableName,
                                         e: TableEntry)
    requires k !in ks && forall l | l in ks :: l in nodes
    ensures Total(nodes[k := e], ks) == Total(nodes, ks)
    decreases |ks|
  {
    if ks != [] { TotalOfOthers(nodes, ks[1..], k, e); }
  }

  /** The number of columns does not depend on the order in which the tables are counted. */
  lemma {:induction false} TotalOfPermutation(nodes: map<TableName, TableEntry>, a: seq<TableName>, b: seq<TableName>)
    requires (forall k | k in a :: k in nodes) && Distinct(a) && Distinct(b) && forall k :: k in a <==> k in b
    ensures Total(nodes, a) == Total(nodes, b)
    decreases |a|
  {
    if a == [] {
      assert forall i | 0 <= i < |b| :: b[i] in b;
    } else {
      var k, rest := a[0], a[1..];
      assert k in b && k !in rest;
      var i :| 0 <= i < |b| && b[i] == k;
      var others := b[..i] + b[i + 1..];
      assert b == b[..i] + ([k] + b[i + 1..]);
      assert forall l :: l in rest <==> l in others by {
        assert forall l | l in rest :: l in a && l in b && l != k;
        assert forall l | l in others :: l in b && l in a && l != k;
      }
      TotalOfPermutation(nodes, rest, others);
      TotalOfConcat(nodes, b[..i], b[i + 1..]);
      TotalOfConcat(nodes, b[..i], [k] + b[i + 1..]);
    }
  }

  /** Every table was appended once; together the tables account for all columns. */
  ghost predicate Accounted(nodes: map<TableName, TableEntry>, columns: seq<ColumnEntry>, order: seq<TableName>) {
    && Distinct(order)
    && (forall k :: k in order <==> k in nodes)
    && |columns| == Total(nodes, order)
  }

  lemma AccountedWith(nodes: map<TableName, TableEntry>, columns: seq<ColumnEntry>, order: seq<TableName>, k: TableName,
                      e: TableEntry, more: seq<ColumnEntry>)
    requires Accounted(nodes, columns, order) && k !in nodes && e.count == |more|
    ensures Accounted(nodes[k := e], columns + more, order + [k])
  {
    var nodes' := nodes[k := e];
    TotalOfOthers(nodes, order, k, e);
    TotalOfConcat(nodes', order, [k]);
  }

  lemma KnownTable(ts: seq<Table>, nodes: map<TableName, TableEntry>, columns: seq<ColumnEntry>, t: Table)
    requires TablesHeld(ts, nodes, columns) && t.name in nodes
    ensures TablesHeld(ts + [t], nodes, columns)
  {
    forall k ensures Mentions(ts + [t], k) <==> Mentions(ts, k) {
      FirstOfConcat(ts, [t], k);
    }
    forall k | Mentions(ts, k) ensures FirstNamed(ts + [t], k) == FirstNamed(ts, k) {
      FirstOfConcat(ts, [t], k);
    }
  }

  lemma NewTable(ts: seq<Table>, nodes: map<TableName, TableEntry>, columns: seq<ColumnEntry>, t: Table)
    requires TablesHeld(ts, nodes, columns) && t.name !in nodes
    ensures TablesHeld(ts + [t], nodes[t.name := TableEntry(Pack(t.id), |columns|, |t.columns|)],
              columns + ColumnEntries(t.columns))
  {
    var more := columns + ColumnEntries(t.columns);
    forall k ensures Mentions(ts + [t], k) <==> Mentions(ts, k) || k == t.name {
      FirstOfConcat(ts, [t], k);
    }
    forall k | k in nodes
      ensures FirstNamed(ts + [t], k) == FirstNamed(ts, k) && Holds(nodes[k], more, FirstNamed(ts, k))
    {
      FirstOfConcat(ts, [t], k);
      var e := nodes[k];
      assert more[e.begin..e.begin + e.count] == columns[e.begin..e.begin + e.count];
    }
    FirstOfConcat(ts, [t], t.name);
  }

  method AddColumns(columns: seq<ColumnEntry>, dictionary: Dictionary, names: seq<Name>)
    returns (columns': seq<ColumnEntry>, dictionary': Dictionary)
    requires DictionaryAgrees(dictionary) && ColumnsNamed(columns, dictionary)
    ensures DictionaryAgrees(dictionary') && DictionaryGrew(dictionary, dictionary')
    ensures ColumnsNamed(columns', dictionary')
    ensures columns' == columns + ColumnEntries(names)
  {
    columns', dictionary' := columns, dictionary;
    for i := 0 to |names|
      invariant DictionaryAgrees(dictionary') && DictionaryGrew(dictionary, dictionary')
                  && ColumnsNamed(columns', dictionary')
      invariant columns' == columns + ColumnEntries(names)[..i]
    {
      dictionary' := AddName(dictionary', names[i]);
      columns' := columns' + [ColumnEntry(i, names[i])];
    }
  }

  ghost predicate Stored(ts: seq<Table>, s: TableStore, d: Dictionary, order: seq<TableName>) {
    && TablesHeld(ts, s.nodes, s.columns)
    && Accounted(s.nodes, s.columns, order)
    && DictionaryAgrees(d)
    && Named(s.nodes.Keys, d, TableLabel)
    && ColumnsNamed(s.columns, d)
  }

  /** Keep a declaration unless its schema already contains a table of that name. */
  method AddTable(s: TableStore, dictionary: Dictionary, t: Table, schemaById: map<nat, SchemaName>,
                  ghost ts: seq<Table>, ghost order: seq<TableName>)
    returns (s': TableStore, dictionary': Dictionary, ghost order': seq<TableName>)
    requires Stored(ts, s, dictionary, order)
    requires t.ids.schema in schemaById && schemaById[t.ids.schema] == t.name.schemaName
    ensures Stored(ts + [t], s', dictionary', order') && DictionaryGrew(dictionary, dictionary')
  {
    var k := TableName(schemaById[t.ids.schema], t.name.table);
    if k in s.nodes {
      KnownTable(ts, s.nodes, s.columns, t);
      return s, dictionary, order;
    }
    NewTable(ts, s.nodes, s.columns, t);
    AccountedWith(s.nodes, s.columns, order, k, TableEntry(Pack(t.id), |s.columns|, |t.columns|),
        ColumnEntries(t.columns));
    var columns;
    columns, dictionary' := AddColumns(s.columns, dictionary, t.columns);
    StillNamed(s.nodes.Keys, dictionary, dictionary', TableLabel);
    ghost var before := dictionary';
    dictionary' := AddName(dictionary', t.name.table);
    StillNamed(s.nodes.Keys, before, dictionary', TableLabel);
    s' := TableStore(s.nodes[k := TableEntry(Pack(t.id), |s.columns|, |t.columns|)], columns);
    order' := order + [k];
  }

  /** What iterating an ordered tree yields. */
  method InOrder<T(==, !new)>(less: (T, T) -> bool, s: set<T>) returns (l: seq<T>)
    requires StrictTotal(less)
    ensures l == Listing(less, s)
  {
    l := [];
    var rest := s;
    while rest != {}
      invariant rest <= s && Ascending(less, l)
      invariant forall x, y | x in l && y in rest :: less(x, y)
      invariant forall x :: x in l <==> x in s && x !in rest
      decreases |rest|
    {
      var m := First(less, rest);
      AppendLeast(less, l, rest, m);
      l := l + [m];
      rest := rest - {m};
    }
    ListingUnique(less, s, l);
  }

  method First<T(==, !new)>(less: (T, T) -> bool, s: set<T>) returns (m: T)
    requires StrictTotal(less) && s != {}
    ensures IsLeast(less, s, m)
  {
    m :| m in s;
    var todo := s - {m};
    while todo != {}
      invariant todo <= s && m in s
      invariant forall x | x in s && x !in todo :: x == m || less(m, x)
      decreases |todo|
    {
      var x :| x in todo;
      if less(x, m) {
        m := x;
      }
      todo := todo - {x};
    }
  }

  /** The schema id of every declaration leads to the node of its schema. */
  ghost predicate FindSchemas(ts: seq<Table>, schemaById: map<nat, SchemaName>) {
    forall t | t in ts :: t.ids.schema in schemaById && schemaById[t.ids.schema] == t.name.schemaName
  }

  lemma DeclarationsFindSchemas(r: Registry, n: NameNodes, id: EntryId)
    requires Readable(r) && Consistent(r) && NamesHeld(IdsOf(r), n) && n.schemas.Keys == AllSchemas(r)
    requires id in r.entries
    ensures FindSchemas(EntryAt(r, id).tables, n.schemaById)
  {
    IdsOfEntry(r, id);
    var e := EntryAt(r, id);
    assert WellFormed(e);
    forall t | t in e.tables ensures t.ids.schema in n.schemaById && n.schemaById[t.ids.schema] == t.name.schemaName {
      assert t.name.schemaName in e.schemas && t.ids == e.schemas[t.name.schemaName];
      assert t.name.schemaName in AllSchemas(r);
      assert t.name.schemaName in n.schemas;
    }
  }

  method AddTables(tables: seq<Table>, schemaById: map<nat, SchemaName>, s: TableStore, dictionary: Dictionary,
                   ghost ts: seq<Table>, ghost order: seq<TableName>)
    returns (s': TableStore, dictionary': Dictionary, ghost order': seq<TableName>)
    requires FindSchemas(tables, schemaById) && Stored(ts, s, dictionary, order)
    ensures Stored(ts + tables, s', dictionary', order') && DictionaryGrew(dictionary, dictionary')
  {
    s', dictionary', order' := s, dictionary, order;
    ghost var done := ts;
    assert ts + tables[..0] == ts;
    for i := 0 to |tables|
      invariant done == ts + tables[..i]
      invariant Stored(done, s', dictionary', order') && DictionaryGrew(dictionary, dictionary')
    {
      s', dictionary', order' := AddTable(s', dictionary', tables[i], schemaById, done, order');
      done := done + [tables[i]];
    }
    assert tables[..|tables|] == tables;
  }

  /** Keep one declaration per table name, going through the entries in ranked order. */
  method CollectTables(r: Registry, schemaById: map<nat, SchemaName>, known: Dictionary)
    returns (s: TableStore, dictionary: Dictionary, ghost order: seq<TableName>)
    requires Readable(r) && DictionaryAgrees(known)
    requires forall id | id in r.entries :: FindSchemas(EntryAt(r, id).tables, schemaById)
    ensures Stored(Declarations(r), s, dictionary, order) && DictionaryGrew(known, dictionary)
  {
    RanksAreOrdered();
    s, dictionary, order := TableStore(map[], []), known, [];
    var ranked := InOrder(RankLess, r.ranked);
    ghost var done: seq<Table> := [];
    for i := 0 to |ranked|
      invariant done == TablesOf(r, ranked[..i])
      invariant Stored(done, s, dictionary, order) && DictionaryGrew(known, dictionary)
    {
      var id := ranked[i].id;
      RankedEntry(r, ranked, i);
      s, dictionary, order := AddTables(EntryAt(r, id).tables, schemaById, s, dictionary, done, order);
      done := done + EntryAt(r, id).tables;
    }
    assert ranked[..|ranked|] == ranked;
  }

  lemma RankedEntry(r: Registry, ranked: seq<RankKey>, i: nat)
    requires Readable(r) && i < |ranked| && forall k | k in ranked :: k in r.ranked
    ensures ranked[i].id in r.entries
    ensures TablesOf(r, ranked[..i + 1]) == TablesOf(r, ranked[..i]) + EntryAt(r, ranked[i].id).tables
  {
    assert ranked[..i + 1][..i] == ranked[..i];
  }
}
