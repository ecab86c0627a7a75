/** The catalog object: the methods that maintain its indexes in place, each proved against the
    operation on registry values that it has to carry out. The loops over names are methods of
    their own; they work on the map they are given and return the new one. */
module CatalogObject {
  import opened Common
  import opened Order
  import opened DescriptorPool
  import opened CatalogState
  import opened Precedence
  import Outline
  import Flatten

  // ----- probing and maintaining the schema index -----

  /** The first key of the schema index that is not below a probe. */
  method LowerBound(keys: set<SchemaKey>, probe: SchemaKey) returns (found: Option<SchemaKey>)
    ensures IsLowerBound(keys, probe, found)
  {
    KeysAreOrdered();
    found := None;
    var todo := keys;
    while todo != {}
      invariant todo <= keys
      invariant IsLowerBound(keys - todo, probe, found)
      decreases |todo|
    {
      var k :| k in todo;
      if !KeyLess(k, probe) && (found.None? || KeyLess(k, found.value)) {
        found := Some(k);
      }
      todo := todo - {k};
    }
    assert keys - todo == keys;
  }

  lemma OneMoreKey(names: set<SchemaName>, todo: set<SchemaName>, n: SchemaName, rank: Rank, id: EntryId)
    requires todo <= names && n in todo
    ensures KeysOf(names - (todo - {n}), rank, id) == KeysOf(names - todo, rank, id) + {KeyOf(n, rank, id)}
  {
    assert names - (todo - {n}) == (names - todo) + {n};
  }

  method EraseKeys(m: map<SchemaKey, SchemaInfo>, names: set<SchemaName>, rank: Rank, id: EntryId)
    returns (m': map<SchemaKey, SchemaInfo>)
    ensures m' == m - KeysOf(names, rank, id)
  {
    m' := m;
    var todo := names;
    while todo != {}
      invariant todo <= names
      invariant m' == m - KeysOf(names - todo, rank, id)
      decreases |todo|
    {
      var n :| n in todo;
      OneMoreKey(names, todo, n, rank, id);
      m' := m' - {KeyOf(n, rank, id)};
      todo := todo - {n};
    }
    assert names - todo == names;
  }

  lemma OneMoreInfo(schemas: map<SchemaName, SchemaIds>, todo: set<SchemaName>, n: SchemaName, rank: Rank, id: EntryId)
    requires todo <= schemas.Keys && n in todo
    ensures InfosOf(schemas - (todo - {n}), rank, id)
         == InfosOf(schemas - todo, rank, id)[KeyOf(n, rank, id) := SchemaInfo(id, schemas[n])]
  {
    var before, after := schemas - todo, schemas - (todo - {n});
    OneMoreKey(schemas.Keys, todo, n, rank, id);
    assert before.Keys == schemas.Keys - todo && after.Keys == schemas.Keys - (todo - {n});
    assert NameOf(KeyOf(n, rank, id)) == n;
  }

  /** An insert that finds its key taken changes nothing. */
  lemma OneMoreInserted(m: map<SchemaKey, SchemaInfo>, m': map<SchemaKey, SchemaInfo>,
                        schemas: map<SchemaName, SchemaIds>,
                        todo: set<SchemaName>, n: SchemaName, rank: Rank, id: EntryId)
    requires todo <= schemas.Keys && n in todo && m' == InfosOf(schemas - todo, rank, id) + m
    ensures var k, info := KeyOf(n, rank, id), SchemaInfo(id, schemas[n]);
      InfosOf(schemas - (todo - {n}), rank, id) + m == if k in m' then m' else m'[k := info]
  {
    var k := KeyOf(n, rank, id);
    OneMoreInfo(schemas, todo, n, rank, id);
    assert NameOf(k) == n;
    assert k !in InfosOf(schemas - todo, rank, id) by {
      assert forall j | j in InfosOf(schemas - todo, rank, id) :: NameOf(j) in schemas - todo;
    }
  }

  method InsertKeys(m: map<SchemaKey, SchemaInfo>, schemas: map<SchemaName, SchemaIds>, rank: Rank, id: EntryId)
    returns (m': map<SchemaKey, SchemaInfo>)
    ensures m' == InfosOf(schemas, rank, id) + m
  {
    m' := m;
    var todo := schemas.Keys;
    assert schemas - todo == map[];
    while todo != {}
      invariant todo <= schemas.Keys
      invariant m' == InfosOf(schemas - todo, rank, id) + m
      decreases |todo|
    {
      var n :| n in todo;
      var k, info := KeyOf(n, rank, id), SchemaInfo(id, schemas[n]);
      OneMoreInserted(m, m', schemas, todo, n, rank, id);
      if k !in m' {
        m' := m'[k := info];
      }
      todo := todo - {n};
    }
    assert schemas - todo == schemas;
  }

  lemma OneMoreDescribed(ds: seq<SchemaDescriptor>, i: nat, rank: Rank, id: EntryId, last: SchemaIds)
    requires i < |ds|
    ensures PoolInfos(DescribedNames(ds[..i + 1]), rank, id, last)
         == PoolInfos(DescribedNames(ds[..i]), rank, id, last)[KeyOf(ds[i].name, rank, id) := SchemaInfo(id, last)]
  {
    assert ds[..i + 1] == ds[..i] + [ds[i]];
    assert DescribedNames(ds[..i + 1]) == DescribedNames(ds[..i]) + {ds[i].name};
  }

  /** Insert a key for every described schema, all with the ids that were registered last. */
  method InsertDescribed(m: map<SchemaKey, SchemaInfo>, ds: seq<SchemaDescriptor>, rank: Rank, id: EntryId,
                         last: SchemaIds)
    returns (m': map<SchemaKey, SchemaInfo>)
    ensures m' == PoolInfos(DescribedNames(ds), rank, id, last) + m
  {
    m' := m;
    assert DescribedNames(ds[..0]) == {};
    for i := 0 to |ds|
      invariant m' == PoolInfos(DescribedNames(ds[..i]), rank, id, last) + m
    {
      OneMoreDescribed(ds, i, rank, id, last);
      var k := KeyOf(ds[i].name, rank, id);
      if k !in m' {
        m' := m'[k := SchemaInfo(id, last)];
      }
    }
    assert ds[..|ds|] == ds;
  }

  // ----- declaring names -----

  /** Declare names until one of them turns out to be declared with a different id. */
  method Declare<K, V(==)>(declared: map<K, V>, refs: map<K, V>) returns (declared': map<K, V>, inSync: bool)
    ensures inSync <==> forall k | k in refs && k in declared :: declared[k] == refs[k]
    ensures inSync ==> declared' == refs + declared
    ensures declared.Keys <= declared'.Keys <= declared.Keys + refs.Keys
    ensures forall k | k in declared' :: declared'[k] == (refs + declared)[k]
  {
    declared' := declared;
    var todo := refs.Keys;
    while todo != {}
      invariant todo <= refs.Keys
      invariant forall k | k in refs.Keys - todo && k in declared :: declared[k] == refs[k]
      invariant declared'.Keys == declared.Keys + (refs.Keys - todo)
      invariant forall k | k in declared' :: declared'[k] == (refs + declared)[k]
      decreases |todo|
    {
      var k :| k in todo;
      if k in declared' {
        if declared'[k] != refs[k] {
          return declared', false;
        }
      } else {
        declared' := declared'[k := refs[k]];
      }
      todo := todo - {k};
    }
    inSync := true;
  }

  method DeclareNames(declared: Declared, e: Entry)
    returns (databases: map<Name, nat>, schemas: map<SchemaName, SchemaIds>, inSync: bool)
    ensures inSync <==> !OutOfSync(declared, e)
    ensures inSync ==>
              Declared(databases, schemas)
              == Declared(e.databases + declared.databases, e.schemas + declared.schemas)
    ensures !inSync ==> MoreDeclared(declared, e, Declared(databases, schemas))
  {
    databases, inSync := Declare(declared.databases, e.databases);
    schemas := declared.schemas;
    if inSync {
      schemas, inSync := Declare(declared.schemas, e.schemas);
    }
  }

  /** Which of the new names the script already had. */
  method MarkExisting<K>(now: set<K>, prev: set<K>) returns (marks: map<K, bool>)
    ensures marks.Keys == now && forall k | k in now :: marks[k] <==> k in prev
  {
    marks := map k | k in now :: false;
    var todo := prev;
    while todo != {}
      invariant todo <= prev
      invariant marks.Keys == now && forall k | k in now :: marks[k] <==> k in prev - todo
      decreases |todo|
    {
      var k :| k in todo;
      if k in marks {
        marks := marks[k := true];
      }
      todo := todo - {k};
    }
  }

  /** Declare the names the script did not have before; a name that is declared keeps its id. */
  method InsertUnmarked<K, V>(declared: map<K, V>, refs: map<K, V>, marks: map<K, bool>, ghost prev: set<K>)
    returns (declared': map<K, V>)
    requires marks.Keys == refs.Keys && forall k | k in refs :: marks[k] <==> k in prev
    ensures declared' == (refs - prev) + declared
  {
    declared' := declared;
    var todo := refs.Keys;
    while todo != {}
      invariant todo <= refs.Keys
      invariant declared'.Keys == declared.Keys + ((refs.Keys - todo) - prev)
      invariant forall k | k in declared' :: declared'[k] == (refs + declared)[k]
      decreases |todo|
    {
      var k :| k in todo;
      if !marks[k] && k !in declared' {
        declared' := declared'[k := refs[k]];
      }
      todo := todo - {k};
    }
  }

  /** Whether another key still carries the name does not depend on the given-up keys that are
      erased later. */
  lemma UseAfterErasing(keys: set<SchemaKey>, names: set<SchemaName>, more: set<SchemaName>, n: SchemaName, rank: Rank,
                        id: EntryId)
    requires n in names && names <= more
    ensures SchemaInUse(keys - KeysOf(names, rank, id), n) <==> SchemaInUse(keys - KeysOf(more, rank, id), n)
  {
    if SchemaInUse(keys - KeysOf(names, rank, id), n) {
      var k :| k in keys - KeysOf(names, rank, id) && NameOf(k) == n;
      assert k in KeysOf(more, rank, id) ==> k == KeyOf(n, rank, id);
      assert k in keys - KeysOf(more, rank, id);
    }
  }

  /** Erase the keys of the schemas a script gave up, and the declarations nothing else uses. */
  method EraseGivenUp(m: map<SchemaKey, SchemaInfo>, declared: map<SchemaName, SchemaIds>, prev: set<SchemaName>,
                      now: set<SchemaName>, rank: Rank, id: EntryId)
    returns (m': map<SchemaKey, SchemaInfo>, declared': map<SchemaName, SchemaIds>)
    ensures m' == m - KeysOf(prev - now, rank, id)
    ensures declared' == declared - (set n | n in prev - now && !SchemaInUse(m'.Keys, n))
  {
    m', declared' := m, declared;
    var todo := prev;
    ghost var finally := m.Keys - KeysOf(prev - now, rank, id);
    while todo != {}
      invariant todo <= prev
      invariant m' == m - KeysOf((prev - todo) - now, rank, id)
      invariant declared' == declared - (set n | n in (prev - todo) - now && !SchemaInUse(finally, n))
      decreases |todo|
    {
      var n :| n in todo;
      if n !in now {
        OneMoreKey(prev - now, todo - now, n, rank, id);
        assert (prev - now) - (todo - now) == (prev - todo) - now;
        assert (prev - now) - ((todo - now) - {n}) == (prev - (todo - {n})) - now;
        m' := m' - {KeyOf(n, rank, id)};
        var rest := LowerBound(m'.Keys, SchemaKey(n.database, n.schema, 0, 0));
        SchemaProbeIsExact(m'.Keys, n, rest);
        UseAfterErasing(m.Keys, (prev - (todo - {n})) - now, prev - now, n, rank, id);
        if rest.None? || rest.value.database != n.database || rest.value.schema != n.schema {
          declared' := declared' - {n};
        }
      }
      todo := todo - {n};
    }
    assert (prev - todo) - now == prev - now;
    assert m'.Keys == finally;
  }

  /** Erase the declarations of given-up databases that no key carries any more. */
  method EraseUnused(keys: set<SchemaKey>, declared: map<Name, nat>, prev: set<Name>, now: set<Name>)
    returns (declared': map<Name, nat>)
    ensures declared' == declared - (set d | d in prev - now && !DatabaseInUse(keys, d))
  {
    declared' := declared;
    var todo := prev;
    while todo != {}
      invariant todo <= prev
      invariant declared' == declared - (set d | d in (prev - todo) - now && !DatabaseInUse(keys, d))
      decreases |todo|
    {
      var d :| d in todo;
      if d !in now {
        var other := LowerBound(keys, SchemaKey(d, "", 0, 0));
        DatabaseProbeIsExact(keys, d, other);
        if other.None? || other.value.database != d {
          declared' := declared' - {d};
        }
      }
      todo := todo - {d};
    }
  }

  /** The declarations after the erase and insert loops of an update, with the uses counted before
      the new keys went in, are those with the uses counted in the final index. */
  lemma NewKeysDoNotRescue(m: map<SchemaKey, SchemaInfo>, prev: set<SchemaName>, schemas: map<SchemaName, SchemaIds>,
                           rank: Rank, id: EntryId)
    ensures var erased := m - KeysOf(prev - schemas.Keys, rank, id);
      (set n | n in prev - schemas.Keys && !SchemaInUse(erased.Keys, n))
      == (set n | n in prev - schemas.Keys && !SchemaInUse((InfosOf(schemas - prev, rank, id) + erased).Keys, n))
  {
    var erased := m - KeysOf(prev - schemas.Keys, rank, id);
    var all := InfosOf(schemas - prev, rank, id) + erased;
    assert forall k | k in all && k !in erased :: NameOf(k) in schemas;
    forall n | n in prev - schemas.Keys ensures SchemaInUse(erased.Keys, n) <==> SchemaInUse(all.Keys, n) {
      assert forall k | k in all && NameOf(k) == n :: k in erased;
    }
  }

  /** The part of an update that works on the schema index and the declared names. */
  method ReplaceNames(bySchema: map<SchemaKey, SchemaInfo>, declared: Declared, prev: Entry, e: Entry, rank: Rank,
                      id: EntryId)
    returns (bySchema': map<SchemaKey, SchemaInfo>, databases: map<Name, nat>, schemas: map<SchemaName, SchemaIds>)
    requires WellFormed(e) && prev.databases.Keys <= declared.databases.Keys
    ensures bySchema' == ReplacedKeys(bySchema, prev, e, rank, id)
    ensures Declared(databases, schemas) == ReplacedNames(declared, prev, e, bySchema'.Keys)
  {
    var marks := MarkExisting(e.databases.Keys, prev.databases.Keys);
    databases := InsertUnmarked(declared.databases, e.databases, marks, prev.databases.Keys);
    var schemaMarks := MarkExisting(e.schemas.Keys, prev.schemas.Keys);
    bySchema', schemas := EraseGivenUp(bySchema, declared.schemas, prev.schemas.Keys, e.schemas.Keys, rank, id);
    assert forall n | n in e.schemas :: n.database in databases;
    NewKeysDoNotRescue(bySchema, prev.schemas.Keys, e.schemas, rank, id);
    bySchema' := InsertKeys(bySchema', e.schemas - prev.schemas.Keys, rank, id);
    schemas := InsertUnmarked(schemas, e.schemas, schemaMarks, prev.schemas.Keys);
    databases := EraseUnused(bySchema'.Keys, databases, prev.databases.Keys, e.databases.Keys);
  }

  lemma LoadedByParts(r: Registry, r': Registry, s: Script, a: Analysis, rank: Rank)
    requires r'.declared == Declared(a.entry.databases + r.declared.databases, a.entry.schemas + r.declared.schemas)
    requires r'.bySchema == InfosOf(a.entry.schemas, rank, a.entry.id) + r.bySchema
    requires r' == r.(version := r.version + 1,
                      entries := r.entries[a.entry.id := ToScript(a.entry)],
                      scripts := r.scripts[s := ScriptEntry(a, rank)],
                      ranked := r.ranked + {RankKey(rank, a.entry.id)},
                      bySchema := r'.bySchema,
                      declared := r'.declared)
    ensures r' == Loaded(r, s, a, rank)
  {
  }

  lemma DescribedByParts(r: Registry, r': Registry, id: EntryId, ds: seq<SchemaDescriptor>)
    requires id in r.pools
    requires var (g, status) := PoolGrowth(r, id, ds); var pool := r.pools[id];
      var grown := r.(pools := r.pools[id := pool.(entry := g.entry)], nextDatabase := g.nextDatabase,
          nextSchema := g.nextSchema);
      r' == if status != Ok then grown
            else grown.(version := r.version + 1,
                bySchema := PoolInfos(DescribedNames(ds), pool.rank, id, g.last) + r.bySchema)
    ensures (r', PoolGrowth(r, id, ds).1) == Described(r, id, ds)
  {
  }

  // ----- looking up a table -----

  /** The keys outside `rest` lead to no entry that has the table. */
  ghost predicate Searched(r: Registry, name: TableName, ignored: Option<EntryId>, rest: set<SchemaKey>)
    requires Registered(r)
  {
    && rest <= r.bySchema.Keys
    && forall k | k in r.bySchema && k !in rest :: RankKey(k.rank, k.id) !in Findable(r, name, ignored)
  }

  lemma SearchedOneMore(r: Registry, name: TableName, ignored: Option<EntryId>, rest: set<SchemaKey>, k: SchemaKey)
    requires Registered(r) && Searched(r, name, ignored, rest) && k.id in r.entries
    requires ignored == Some(k.id) || name !in EntryAt(r, k.id).tablesByName
    ensures Searched(r, name, ignored, rest - {k})
  {
    assert RankKey(k.rank, k.id) !in Findable(r, name, ignored);
  }

  function ProbeOf(name: TableName): SchemaKey {
    SchemaKey(name.schemaName.database, name.schemaName.schema, 0, 0)
  }

  /** Follow the first remaining key of the schema. */
  method Follow(r: Registry, name: TableName, ignored: Option<EntryId>, ghost rest: set<SchemaKey>, k: SchemaKey)
    returns (hit: Option<Table>)
    requires Valid(r) && Registered(r) && Searched(r, name, ignored, rest)
    requires IsLowerBound(rest, ProbeOf(name), Some(k)) && NameOf(k) == name.schemaName
    ensures hit.Some? ==> IsWinner(r, Findable(r, name, ignored), name, hit)
    ensures hit.None? ==> Searched(r, name, ignored, rest - {k})
  {
    IndexedKeysAreEntries(r, k);
    if ignored != Some(k.id) {
      var entry := EntryAt(r, k.id);
      if name in entry.tablesByName {
        FirstHitWins(r, name, ignored, rest, k);
        return Some(entry.tables[entry.tablesByName[name]]);
      }
    }
    SearchedOneMore(r, name, ignored, rest, k);
    return None;
  }

  /** Walk the keys of the schema in order to the first entry that has a table of the name. */
  method FirstFound(r: Registry, name: TableName, ignored: Option<EntryId>) returns (result: Option<Table>)
    requires Valid(r)
    ensures Registered(r) && IsWinner(r, Findable(r, name, ignored), name, result)
  {
    ValidIsRegistered(r);
    var rest := r.bySchema.Keys;
    while true
      invariant Searched(r, name, ignored, rest)
      decreases |rest|
    {
      var found := LowerBound(rest, ProbeOf(name));
      if found.None? || NameOf(found.value) != name.schemaName {
        SearchExhausted(r, name, ignored, rest, found);
        return None;
      }
      result := Follow(r, name, ignored, rest, found.value);
      if result.Some? {
        return;
      }
      rest := rest - {found.value};
    }
  }

  // ----- the object -----

  class Catalog {
    const self: nat
    var version: nat
    var entries: map<EntryId, EntryPointer>
    var scripts: map<Script, ScriptEntry>
    var pools: map<EntryId, Pool>
    var ranked: set<RankKey>
    var bySchema: map<SchemaKey, SchemaInfo>
    var databases: map<Name, nat>
    var schemas: map<SchemaName, SchemaIds>
    var nextDatabase: nat
    var nextSchema: nat

    function State(): Registry
      reads this
    {
      Registry(self, version, entries, scripts, pools, ranked, bySchema, Declared(databases, schemas), nextDatabase,
          nextSchema)
    }

    /** The five indexes agree. */
    ghost predicate Valid()
      reads this
    {
      CatalogState.Valid(State())
    }

    constructor (address: nat)
      ensures State() == Empty(address) && Valid()
    {
      self := address;
      version := 1;
      entries, scripts, pools := map[], map[], map[];
      ranked, bySchema := {}, map[];
      databases, schemas := map[], map[];
      nextDatabase, nextSchema := 256, 65536;
      new;
      EmptyIsValid(address);
    }

    method Clear()
      requires Valid()
      modifies this
      ensures State() == Cleared(old(State())) && Valid()
    {
      EraseAll();
      ClearedIsValid(old(State()));
    }

    method EraseAll()
      modifies this
      ensures State() == Cleared(old(State()))
    {
      bySchema := map[];
      ranked := {};
      entries := map[];
      scripts := map[];
      pools := map[];
      version := version + 1;
    }

    /** The id of a database name: the declared one, or the next free one. */
    method AllocateDatabaseId(database: Name) returns (id: nat)
      requires Valid()
      modifies this
      ensures State() == DatabaseAllocated(old(State()), database) && Valid()
      ensures id == if database in databases then databases[database] else old(nextDatabase)
      ensures databases == old(databases) && nextDatabase == old(nextDatabase) + if database in databases then 0 else 1
    {
      if database in databases {
        return databases[database];
      }
      id := nextDatabase;
      nextDatabase := nextDatabase + 1;
      StepKeepsValid(old(State()), AllocateDatabase(database), Ok, State());
    }

    method AllocateSchemaId(schemaName: SchemaName) returns (id: nat)
      requires Valid()
      modifies this
      ensures State() == SchemaAllocated(old(State()), schemaName) && Valid()
      ensures id == if schemaName in schemas then schemas[schemaName].schema else old(nextSchema)
      ensures schemas == old(schemas) && nextSchema == old(nextSchema) + if schemaName in schemas then 0 else 1
    {
      if schemaName in schemas {
        return schemas[schemaName].schema;
      }
      id := nextSchema;
      nextSchema := nextSchema + 1;
      StepKeepsValid(old(State()), AllocateSchema(schemaName), Ok, State());
    }

    method LoadScript(script: Script, latest: Option<Analysis>, rank: Rank) returns (status: Status)
      requires Valid() && (latest.Some? ==> FromAnalyzer(script, latest.value))
      modifies this
      ensures LoadStep(old(State()), script, latest, rank, status, State()) && Valid()
    {
      if latest.None? {
        return ScriptNotAnalyzed;
      }
      if script.catalog != self {
        return CatalogMismatch;
      }
      var a := latest.value;
      if script in scripts {
        status := UpdateScript(script, a);
        return;
      }
      if script.entryId in entries {
        return IdCollision;
      }
      status := RegisterScript(script, a, rank);
      LoadKeepsValid(old(State()), script, latest, rank, status, State());
    }

    /** Declare the script's names and insert it into all indexes. */
    method RegisterScript(script: Script, a: Analysis, rank: Rank) returns (status: Status)
      modifies this
      ensures if OutOfSync(Declared(old(databases), old(schemas)), a.entry)
        then status == IdOutOfSync && State() == old(State()).(declared := Declared(databases, schemas))
             && MoreDeclared(Declared(old(databases), old(schemas)), a.entry, Declared(databases, schemas))
        else status == Ok && State() == Loaded(old(State()), script, a, rank)
    {
      var inSync;
      databases, schemas, inSync := DeclareNames(Declared(databases, schemas), a.entry);
      if inSync {
        var keys := InsertKeys(bySchema, a.entry.schemas, rank, a.entry.id);
        InsertScript(script, a, rank, keys);
        LoadedByParts(old(State()), State(), script, a, rank);
      }
      status := if inSync then Ok else IdOutOfSync;
    }

    method InsertScript(script: Script, a: Analysis, rank: Rank, keys: map<SchemaKey, SchemaInfo>)
      modifies this
      ensures State() == old(State()).(version := old(version) + 1,
                                       entries := old(entries)[a.entry.id := ToScript(a.entry)],
                                       scripts := old(scripts)[script := ScriptEntry(a, rank)],
                                       ranked := old(ranked) + {RankKey(rank, a.entry.id)},
                                       bySchema := keys)
    {
      bySchema := keys;
      scripts := scripts[script := ScriptEntry(a, rank)];
      entries := entries[a.entry.id := ToScript(a.entry)];
      ranked := ranked + {RankKey(rank, a.entry.id)};
      version := version + 1;
    }

    method UpdateScript(script: Script, a: Analysis) returns (status: Status)
      requires Valid() && script in scripts && FromAnalyzer(script, a)
      modifies this
      ensures status == Ok && Valid()
      ensures State() == if old(scripts)[script].analysis == a then old(State()) else Updated(old(State()), script, a)
    {
      if scripts[script].analysis != a {
        ReplaceScript(script, a);
        UpdatedIsValid(old(State()), script, a);
      }
      return Ok;
    }

    /** Patch all indexes with what the new analysis changes. */
    method ReplaceScript(script: Script, a: Analysis)
      requires NamesDeclared(scripts, Declared(databases, schemas))
      requires script in scripts && FromAnalyzer(script, a)
      modifies this
      ensures State() == Updated(old(State()), script, a)
    {
      var entry := scripts[script];
      bySchema, databases, schemas :=
        ReplaceNames(bySchema, Declared(databases, schemas), entry.analysis.entry, a.entry, entry.rank, script.entryId);
      scripts := scripts[script := entry.(analysis := a)];
      entries := entries[script.entryId := ToScript(a.entry)];
      version := version + 1;
    }

    method DropScript(script: Script)
      requires Valid()
      modifies this
      ensures State() == Dropped(old(State()), script) && Valid()
    {
      if script in scripts {
        EraseScript(script);
        DroppedIsValid(old(State()), script);
      }
    }

    method EraseScript(script: Script)
      requires script in scripts
      modifies this
      ensures State() == Dropped(old(State()), script)
    {
      var entry := scripts[script];
      bySchema := EraseKeys(bySchema, entry.analysis.entry.schemas.Keys, entry.rank, script.entryId);
      ranked := ranked - {RankKey(entry.rank, script.entryId)};
      entries := entries - {script.entryId};
      scripts := scripts - {script};
      version := version + 1;
    }

    method AddDescriptorPool(id: EntryId, rank: Rank) returns (status: Status)
      requires Valid()
      modifies this
      ensures Step(old(State()), AddPool(id, rank), status, State()) && Valid()
    {
      if id in entries {
        return IdCollision;
      }
      InsertPool(id, rank);
      PoolAddedIsValid(old(State()), id, rank);
      return Ok;
    }

    method InsertPool(id: EntryId, rank: Rank)
      modifies this
      ensures State() == PoolAdded(old(State()), id, rank)
    {
      entries := entries[id := ToPool(id)];
      ranked := ranked + {RankKey(rank, id)};
      pools := pools[id := Pool(rank, Entry(id, map[], map[], [], map[]))];
      version := version + 1;
    }

    method DropDescriptorPool(id: EntryId) returns (status: Status)
      requires Valid()
      modifies this
      ensures Step(old(State()), DropPool(id), status, State()) && Valid()
    {
      if id in pools {
        ErasePool(id);
        PoolDroppedIsValid(old(State()), id);
      }
      return Ok;
    }

    method ErasePool(id: EntryId)
      requires id in pools
      modifies this
      ensures State() == PoolDropped(old(State()), id)
    {
      var pool := pools[id];
      ranked := ranked - {RankKey(pool.rank, id)};
      bySchema := EraseKeys(bySchema, pool.entry.schemas.Keys, pool.rank, id);
      entries := entries - {id};
      pools := pools - {id};
      version := version + 1;
    }

    method AddSchemaDescriptors(id: EntryId, ds: seq<SchemaDescriptor>) returns (status: Status)
      requires Valid()
      modifies this
      ensures Step(old(State()), Describe(id, ds), status, State()) && Valid()
    {
      if id !in pools {
        return PoolUnknown;
      }
      status := DescribePool(id, ds);
      DescribedIsValid(old(State()), id, ds);
    }

    /** Grow the pool, and index its new schemas if everything was added. */
    method DescribePool(id: EntryId, ds: seq<SchemaDescriptor>) returns (status: Status)
      requires id in pools
      modifies this
      ensures (State(), status) == Described(old(State()), id, ds)
    {
      var last;
      status, last := GrowPool(id, ds);
      if status == Ok {
        IndexDescribed(id, ds, last);
      }
      DescribedByParts(old(State()), State(), id, ds);
    }

    method IndexDescribed(id: EntryId, ds: seq<SchemaDescriptor>, last: SchemaIds)
      requires id in pools
      modifies this
      ensures State() == old(State()).(version := old(version) + 1,
                                       bySchema := PoolInfos(DescribedNames(ds), old(pools)[id].rank, id, last)
                                           + old(bySchema))
    {
      bySchema := InsertDescribed(bySchema, ds, pools[id].rank, id, last);
      version := version + 1;
    }

    /** The pool takes the descriptors; what was added before an error stays. */
    method GrowPool(id: EntryId, ds: seq<SchemaDescriptor>) returns (status: Status, last: SchemaIds)
      requires id in pools
      modifies this
      ensures var (g, s) := PoolGrowth(old(State()), id, ds);
        && status == s && last == g.last
        && State() == old(State()).(pools := old(pools)[id := old(pools)[id].(entry := g.entry)],
                                    nextDatabase := g.nextDatabase, nextSchema := g.nextSchema)
    {
      var pool := pools[id];
      var g := Growing(pool.entry, nextDatabase, nextSchema, SchemaIds(0, 0));
      g, status := AddSchemaDescriptor(g, Declared(databases, schemas), ds);
      pools := pools[id := pool.(entry := g.entry)];
      nextDatabase, nextSchema := g.nextDatabase, g.nextSchema;
      last := g.last;
    }

    /** The declaration that wins among the entries the schema index leads to. */
    method ResolveTable(name: TableName, ignored: Option<EntryId>) returns (result: Option<Table>)
      requires Valid()
      ensures Registered(State()) && IsWinner(State(), Findable(State(), name, ignored), name, result)
    {
      result := FirstFound(State(), name, ignored);
    }

    /** Flatten the catalog; it must give equal names equal ids. */
    method FlattenCatalog() returns (flat: Flatten.FlatCatalog)
      requires Valid() && Outline.Readable(State()) && Outline.Consistent(State())
      ensures flat.version == version && Distinct(flat.dictionary)
      ensures Flatten.Shows(flat, Outline.OutlineOf(State()))
      ensures Flatten.IsIndex(flat.databasesById, flat.databases)
      ensures Flatten.IsIndex(flat.schemasById, flat.schemas)
      ensures Flatten.IsIndex(flat.tablesById, flat.tables)
    {
      flat := Flatten.Flatten(State());
    }
  }
}
