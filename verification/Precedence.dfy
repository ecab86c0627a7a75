/** Rank precedence: which declaration of a table name wins. The catalog finds it by walking the
    schema index in key order; this module states what that walk has to find. */
module Precedence {
  import opened Common
  import opened Order
  import opened DescriptorPool
  import opened CatalogState

  // ----- the orders of the two indexes -----

  predicate RankLess(a: RankKey, b: RankKey) {
    a.rank < b.rank || (a.rank == b.rank && a.id < b.id)
  }

  predicate KeyLess(a: SchemaKey, b: SchemaKey) {
    if a.database != b.database then NameLess(a.database, b.database)
    else if a.schema != b.schema then NameLess(a.schema, b.schema)
    else RankLess(RankKey(a.rank, a.id), RankKey(b.rank, b.id))
  }

  lemma RanksAreOrdered()
    ensures StrictTotal(RankLess)
  {
  }

  lemma KeysAreOrdered()
    ensures StrictTotal(KeyLess)
  {
    NamesAreOrdered();
    forall x: SchemaKey, y: SchemaKey, z: SchemaKey | KeyLess(x, y) && KeyLess(y, z) ensures KeyLess(x, z) {
      assert NameLess(x.database, y.database) && NameLess(y.database, z.database) ==> NameLess(x.database, z.database);
      assert NameLess(x.schema, y.schema) && NameLess(y.schema, z.schema) ==> NameLess(x.schema, z.schema);
      assert !NameLess(x.database, x.database) && !NameLess(x.schema, x.schema);
      assert NameLess(x.database, y.database) && NameLess(y.database, x.database) ==> NameLess(x.database, x.database);
      assert NameLess(x.schema, y.schema) && NameLess(y.schema, x.schema) ==> NameLess(x.schema, x.schema);
    }
    forall x: SchemaKey ensures !KeyLess(x, x) {}
    forall x: SchemaKey, y: SchemaKey ensures x == y || KeyLess(x, y) || KeyLess(y, x) {
      assert x.database == y.database || NameLess(x.database, y.database) || NameLess(y.database, x.database);
      assert x.schema == y.schema || NameLess(x.schema, y.schema) || NameLess(y.schema, x.schema);
    }
  }

  /** The first key that is not below the probe, if there is one. */
  ghost predicate IsLowerBound(keys: set<SchemaKey>, probe: SchemaKey, found: Option<SchemaKey>) {
    match found
    case None => forall k | k in keys :: KeyLess(k, probe)
    case Some(f) =>
      && f in keys && !KeyLess(f, probe)
      && forall k | k in keys :: KeyLess(k, probe) || k == f || KeyLess(f, k)
  }

  /** Probing with the least possible rank and id tells exactly whether a schema is in use. */
  lemma SchemaProbeIsExact(keys: set<SchemaKey>, n: SchemaName, found: Option<SchemaKey>)
    requires IsLowerBound(keys, SchemaKey(n.database, n.schema, 0, 0), found)
    ensures SchemaInUse(keys, n) <==> found.Some? && NameOf(found.value) == n
  {
    KeysAreOrdered();
    NamesAreOrdered();
    var probe := SchemaKey(n.database, n.schema, 0, 0);
    if SchemaInUse(keys, n) {
      var k :| k in keys && NameOf(k) == n;
      assert !KeyLess(k, probe);
      var f := found.value;
      assert k == f || KeyLess(f, k);
      assert f == probe || KeyLess(probe, f);
      Between(n.database, f.database);
      Between(n.schema, f.schema);
    }
  }

  /** Probing with the empty schema name tells exactly whether a database is in use. */
  lemma DatabaseProbeIsExact(keys: set<SchemaKey>, d: Name, found: Option<SchemaKey>)
    requires IsLowerBound(keys, SchemaKey(d, "", 0, 0), found)
    ensures DatabaseInUse(keys, d) <==> found.Some? && found.value.database == d
  {
    KeysAreOrdered();
    NamesAreOrdered();
    var probe := SchemaKey(d, "", 0, 0);
    if DatabaseInUse(keys, d) {
      var k :| k in keys && k.database == d;
      assert !KeyLess(k, probe);
      var f := found.value;
      assert k == f || KeyLess(f, k);
      assert f == probe || KeyLess(probe, f);
      Between(d, f.database);
    }
  }

  lemma Between(a: Name, b: Name)
    ensures !(NameLess(a, b) && NameLess(b, a))
  {
    NamesAreOrdered();
  }

  // ----- who declares a table -----

  ghost predicate Registered(r: Registry) {
    && r.entries.Keys == (set k | k in r.ranked :: k.id)
    && (forall id | id in r.entries && r.entries[id].ToPool? :: r.entries[id].id in r.pools)
  }

  lemma RankedIdsAreEntries(scripts: map<Script, ScriptEntry>, pools: map<EntryId, Pool>)
    ensures ScriptIds(scripts) + pools.Keys == set k | k in ScriptRanks(scripts) + PoolRanks(pools) :: k.id
  {
    forall id | id in ScriptIds(scripts) + pools.Keys
      ensures exists k :: k in ScriptRanks(scripts) + PoolRanks(pools) && k.id == id
    {
      if id in pools {
        assert RankKey(pools[id].rank, id) in PoolRanks(pools);
      } else {
        var s :| s in scripts && s.entryId == id;
        assert RankKey(scripts[s].rank, id) in ScriptRanks(scripts);
      }
    }
  }

  lemma KeysAreRanked(scripts: map<Script, ScriptEntry>, pools: map<EntryId, Pool>, k: SchemaKey)
    requires k in ScriptKeys(scripts) + PoolKeys(pools)
    ensures RankKey(k.rank, k.id) in ScriptRanks(scripts) + PoolRanks(pools)
  {
    if k in ScriptKeys(scripts) {
      var s :| s in scripts && k in KeysOfScript(s, scripts[s]);
      assert RankKey(k.rank, k.id) in ScriptRanks(scripts);
    } else {
      var p :| p in pools && k in KeysOfPool(p, pools[p]);
      assert RankKey(k.rank, k.id) in PoolRanks(pools);
    }
  }

  lemma ValidIsRegistered(r: Registry)
    requires Valid(r)
    ensures Registered(r)
  {
    RankedIdsAreEntries(r.scripts, r.pools);
  }

  /** The entries in which a lookup by schema key and by name finds the table. */
  ghost function Findable(r: Registry, name: TableName, ignored: Option<EntryId>): set<RankKey>
    requires Registered(r)
  {
    set k | k in r.ranked
      && (ignored.Some? ==> k.id != ignored.value)
      && KeyOf(name.schemaName, k.rank, k.id) in r.bySchema
      && name in EntryAt(r, k.id).tablesByName
  }

  /** The entries that declare the table. */
  ghost function Declaring(r: Registry, name: TableName, ignored: Option<EntryId>): set<RankKey>
    requires Registered(r)
  {
    set k | k in r.ranked && (ignored.Some? ==> k.id != ignored.value) && Declares(EntryAt(r, k.id), name)
  }

  /** Every table of every pool is indexed by name and by schema. */
  ghost predicate Searchable(pools: map<EntryId, Pool>, keys: set<SchemaKey>) {
    forall p | p in pools ::
      && Indexed(pools[p].entry)
      && forall i | 0 <= i < |pools[p].entry.tables| ::
           KeyOf(pools[p].entry.tables[i].name.schemaName, pools[p].rank, p) in keys
  }

  /** The winner among a set of entries: the first declaration in the entry of least rank and id. */
  ghost predicate IsWinner(r: Registry, among: set<RankKey>, name: TableName, t: Option<Table>)
    requires Registered(r) && forall k | k in among :: k.id in r.entries
  {
    match t
    case None => among == {}
    case Some(table) =>
      exists k | k in among :: IsLeast(RankLess, among, k) && IsFirstOf(EntryAt(r, k.id), name, table)
  }

  ghost predicate IsFirstOf(e: Entry, name: TableName, t: Table) {
    exists i: nat :: IsFirst(e.tables, name, i) && e.tables[i] == t
  }

  lemma WinnerIsUnique(r: Registry, among: set<RankKey>, name: TableName, t: Option<Table>, u: Option<Table>)
    requires Registered(r) && forall k | k in among :: k.id in r.entries
    requires IsWinner(r, among, name, t) && IsWinner(r, among, name, u)
    ensures t == u
  {
    RanksAreOrdered();
    if t.Some? && u.Some? {
      var k :| k in among && IsLeast(RankLess, among, k) && IsFirstOf(EntryAt(r, k.id), name, t.value);
      var l :| l in among && IsLeast(RankLess, among, l) && IsFirstOf(EntryAt(r, l.id), name, u.value);
      LeastIsUnique(RankLess, among, k);
      LeastIsUnique(RankLess, among, l);
      var e := EntryAt(r, k.id);
      var i: nat :| IsFirst(e.tables, name, i) && e.tables[i] == t.value;
      var j: nat :| IsFirst(e.tables, name, j) && e.tables[j] == u.value;
      assert i == j;
    }
  }

  /** When every pool table is indexed, the lookup finds exactly the declaring entries. */
  lemma FindableIsDeclaring(r: Registry, name: TableName, ignored: Option<EntryId>)
    requires Valid(r) && Registered(r) && Searchable(r.pools, r.bySchema.Keys)
    ensures Findable(r, name, ignored) == Declaring(r, name, ignored)
  {
    forall k | k in r.ranked
      ensures Declares(EntryAt(r, k.id), name)
         <==> KeyOf(name.schemaName, k.rank, k.id) in r.bySchema && name in EntryAt(r, k.id).tablesByName
    {
      EntryFindsOwnTables(r, k, name);
    }
  }

  /** The condition is exact: lookups find all declaring entries of every table if and only if
      every table of every pool is indexed. */
  lemma FindsAllIffSearchable(r: Registry)
    requires Valid(r) && Registered(r)
    ensures Searchable(r.pools, r.bySchema.Keys)
       <==> forall name, ignored :: Findable(r, name, ignored) == Declaring(r, name, ignored)
  {
    if Searchable(r.pools, r.bySchema.Keys) {
      forall name, ignored ensures Findable(r, name, ignored) == Declaring(r, name, ignored) {
        FindableIsDeclaring(r, name, ignored);
      }
    }
    if forall name, ignored :: Findable(r, name, ignored) == Declaring(r, name, ignored) {
      forall p, i | p in r.pools && 0 <= i < |r.pools[p].entry.tables|
        ensures r.pools[p].entry.tables[i].name in r.pools[p].entry.tablesByName
        ensures KeyOf(r.pools[p].entry.tables[i].name.schemaName, r.pools[p].rank, p) in r.bySchema
      {
        var name := r.pools[p].entry.tables[i].name;
        assert Findable(r, name, None) == Declaring(r, name, None);
        FoundTablesAreIndexed(r, p, i);
      }
    }
  }

  lemma FoundTablesAreIndexed(r: Registry, p: EntryId, i: nat)
    requires Valid(r) && Registered(r) && p in r.pools && i < |r.pools[p].entry.tables|
    requires var name := r.pools[p].entry.tables[i].name; Findable(r, name, None) == Declaring(r, name, None)
    ensures r.pools[p].entry.tables[i].name in r.pools[p].entry.tablesByName
    ensures KeyOf(r.pools[p].entry.tables[i].name.schemaName, r.pools[p].rank, p) in r.bySchema
  {
    var k, name := RankKey(r.pools[p].rank, p), r.pools[p].entry.tables[i].name;
    assert k in PoolRanks(r.pools) && EntryAt(r, p) == r.pools[p].entry;
    assert k in Declaring(r, name, None);
  }

  lemma EntryFindsOwnTables(r: Registry, k: RankKey, name: TableName)
    requires Valid(r) && Registered(r) && Searchable(r.pools, r.bySchema.Keys) && k in r.ranked
    ensures Declares(EntryAt(r, k.id), name)
       <==> KeyOf(name.schemaName, k.rank, k.id) in r.bySchema && name in EntryAt(r, k.id).tablesByName
  {
    if k in PoolRanks(r.pools) {
      assert EntryAt(r, k.id) == r.pools[k.id].entry;
      PoolFindsOwnTables(r.pools, k.id, r.bySchema.Keys, name);
    } else {
      var s :| s in r.scripts && k == RankKey(r.scripts[s].rank, s.entryId);
      assert EntryAt(r, k.id) == r.scripts[s].analysis.entry;
      ScriptSplit(r.scripts, s);
      ScriptFindsOwnTables(s, r.scripts[s], r.bySchema.Keys, name);
    }
  }

  lemma PoolFindsOwnTables(pools: map<EntryId, Pool>, p: EntryId, keys: set<SchemaKey>, name: TableName)
    requires p in pools && WellFormed(pools[p].entry) && Searchable(pools, keys)
    ensures Declares(pools[p].entry, name)
       <==> KeyOf(name.schemaName, pools[p].rank, p) in keys && name in pools[p].entry.tablesByName
  {
  }

  lemma ScriptFindsOwnTables(s: Script, e: ScriptEntry, keys: set<SchemaKey>, name: TableName)
    requires FromAnalyzer(s, e.analysis) && KeysOfScript(s, e) <= keys
    ensures Declares(e.analysis.entry, name)
       <==> KeyOf(name.schemaName, e.rank, s.entryId) in keys && name in e.analysis.entry.tablesByName
  {
    forall n | n in e.analysis.entry.schemas ensures KeyOf(n, e.rank, s.entryId) in keys {
      assert KeyOf(n, e.rank, s.entryId) in KeysOfScript(s, e);
    }
  }

  // ----- walking the schema index -----

  lemma IndexedKeysAreEntries(r: Registry, k: SchemaKey)
    requires Valid(r) && k in r.bySchema
    ensures k.id in r.entries && (r.entries[k.id].ToPool? ==> r.entries[k.id].id in r.pools)
    ensures RankKey(k.rank, k.id) in r.ranked
    ensures WellFormed(EntryAt(r, k.id))
  {
    KeysAreRanked(r.scripts, r.pools, k);
    EntriesAreWellFormed(r, RankKey(k.rank, k.id));
  }

  lemma EntriesAreWellFormed(r: Registry, k: RankKey)
    requires Valid(r) && k in r.ranked
    ensures k.id in r.entries && (r.entries[k.id].ToPool? ==> r.entries[k.id].id in r.pools)
    ensures WellFormed(EntryAt(r, k.id)) && EntryAt(r, k.id).id == k.id
  {
    if k !in PoolRanks(r.pools) {
      var s :| s in r.scripts && k == RankKey(r.scripts[s].rank, s.entryId);
      assert FromAnalyzer(s, r.scripts[s].analysis);
    }
  }

  /** Keys with the schema's name are never below the probe, and their order is that of the ranks. */
  lemma KeysOfOneSchema(n: SchemaName, k: SchemaKey, l: SchemaKey)
    requires NameOf(k) == n && NameOf(l) == n
    ensures !KeyLess(k, SchemaKey(n.database, n.schema, 0, 0))
    ensures KeyLess(k, l) <==> RankLess(RankKey(k.rank, k.id), RankKey(l.rank, l.id))
  {
  }

  lemma SearchExhausted(r: Registry, name: TableName, ignored: Option<EntryId>, rest: set<SchemaKey>,
                        found: Option<SchemaKey>)
    requires Registered(r) && rest <= r.bySchema.Keys
    requires forall k | k in r.bySchema && k !in rest :: RankKey(k.rank, k.id) !in Findable(r, name, ignored)
    requires IsLowerBound(rest, SchemaKey(name.schemaName.database, name.schemaName.schema, 0, 0), found)
    requires found.None? || NameOf(found.value) != name.schemaName
    ensures Findable(r, name, ignored) == {}
  {
    SchemaProbeIsExact(rest, name.schemaName, found);
    forall f | f in r.ranked ensures f !in Findable(r, name, ignored) {
      var k := KeyOf(name.schemaName, f.rank, f.id);
      assert RankKey(k.rank, k.id) == f && NameOf(k) == name.schemaName;
    }
  }

  lemma FirstHitWins(r: Registry, name: TableName, ignored: Option<EntryId>, rest: set<SchemaKey>, k: SchemaKey)
    requires Valid(r) && Registered(r) && rest <= r.bySchema.Keys
    requires forall l | l in r.bySchema && l !in rest :: RankKey(l.rank, l.id) !in Findable(r, name, ignored)
    requires IsLowerBound(rest, SchemaKey(name.schemaName.database, name.schemaName.schema, 0, 0), Some(k))
    requires NameOf(k) == name.schemaName && ignored != Some(k.id)
    requires k.id in r.entries && name in EntryAt(r, k.id).tablesByName
    ensures name in EntryAt(r, k.id).tablesByName && EntryAt(r, k.id).tablesByName[name] < |EntryAt(r, k.id).tables|
    ensures IsWinner(r, Findable(r, name, ignored), name,
              Some(EntryAt(r, k.id).tables[EntryAt(r, k.id).tablesByName[name]]))
  {
    IndexedKeysAreEntries(r, k);
    var e := EntryAt(r, k.id);
    var winner := RankKey(k.rank, k.id);
    var findable := Findable(r, name, ignored);
    assert IsFirst(e.tables, name, e.tablesByName[name]);
    assert IsFirstOf(e, name, e.tables[e.tablesByName[name]]);
    assert KeyOf(name.schemaName, k.rank, k.id) == k;
    assert winner in findable;
    forall f | f in findable ensures f == winner || RankLess(winner, f) {
      var l := KeyOf(name.schemaName, f.rank, f.id);
      assert RankKey(l.rank, l.id) == f;
      KeysOfOneSchema(name.schemaName, k, l);
      KeysOfOneSchema(name.schemaName, l, k);
    }
  }
}
