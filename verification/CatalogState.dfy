/** The catalog as a value: its redundant indexes, what every operation does to them, and the
    invariant that ties them together over every run. */
module CatalogState {
  import opened Common
  import opened Order
  import opened DescriptorPool

  /** A script object: its identity, its fixed entry id and the catalog it was created for. */
  datatype Script = Script(serial: nat, entryId: EntryId, catalog: nat)
  /** An analyzed script; the address stands for the identity of the shared object. */
  datatype Analysis = Analysis(address: nat, entry: Entry)
  datatype ScriptEntry = ScriptEntry(analysis: Analysis, rank: Rank)
  datatype Pool = Pool(rank: Rank, entry: Entry)
  datatype EntryPointer = ToScript(entry: Entry) | ToPool(id: EntryId)

  datatype RankKey = RankKey(rank: Rank, id: EntryId)
  datatype SchemaKey = SchemaKey(database: Name, schema: Name, rank: Rank, id: EntryId)
  datatype SchemaInfo = SchemaInfo(id: EntryId, ids: SchemaIds)

  datatype Registry = Registry(
    self: nat,
    version: nat,
    entries: map<EntryId, EntryPointer>,
    scripts: map<Script, ScriptEntry>,
    pools: map<EntryId, Pool>,
    ranked: set<RankKey>,
    bySchema: map<SchemaKey, SchemaInfo>,
    declared: Declared,
    nextDatabase: nat,
    nextSchema: nat)

  function NameOf(k: SchemaKey): SchemaName { SchemaName(k.database, k.schema) }
  function KeyOf(n: SchemaName, rank: Rank, id: EntryId): SchemaKey { SchemaKey(n.database, n.schema, rank, id) }
  function KeysOf(names: set<SchemaName>, rank: Rank, id: EntryId): set<SchemaKey> {
    set n | n in names :: KeyOf(n, rank, id)
  }
  function InfosOf(schemas: map<SchemaName, SchemaIds>, rank: Rank, id: EntryId): map<SchemaKey, SchemaInfo> {
    map k | k in KeysOf(schemas.Keys, rank, id) :: SchemaInfo(id, schemas[NameOf(k)])
  }

  function EntryAt(r: Registry, id: EntryId): Entry
    requires id in r.entries && (r.entries[id].ToPool? ==> r.entries[id].id in r.pools)
  {
    match r.entries[id]
    case ToScript(e) => e
    case ToPool(p) => r.pools[p].entry
  }

  // ----- the invariant -----

  ghost function ScriptIds(scripts: map<Script, ScriptEntry>): set<EntryId> { set s | s in scripts :: s.entryId }

  ghost function ScriptRanks(scripts: map<Script, ScriptEntry>): set<RankKey> {
    set s | s in scripts :: RankKey(scripts[s].rank, s.entryId)
  }
  ghost function PoolRanks(pools: map<EntryId, Pool>): set<RankKey> {
    set p | p in pools :: RankKey(pools[p].rank, p)
  }

  /** The index keys of one script, and of all scripts. */
  ghost function KeysOfScript(s: Script, e: ScriptEntry): set<SchemaKey> {
    KeysOf(e.analysis.entry.schemas.Keys, e.rank, s.entryId)
  }
  ghost function ScriptKeys(scripts: map<Script, ScriptEntry>): set<SchemaKey> {
    set s, k | s in scripts && k in KeysOfScript(s, scripts[s]) :: k
  }
  ghost function KeysOfPool(p: EntryId, pool: Pool): set<SchemaKey> {
    KeysOf(pool.entry.schemas.Keys, pool.rank, p)
  }
  ghost function PoolKeys(pools: map<EntryId, Pool>): set<SchemaKey> {
    set p, k | p in pools && k in KeysOfPool(p, pools[p]) :: k
  }

  /** `entries` is the disjoint union of the loaded scripts and the pools, and each of its pointers
      leads to the script's registered analysis or to the pool. */
  ghost predicate EntriesAgree(scripts: map<Script, ScriptEntry>, pools: map<EntryId, Pool>,
                               entries: map<EntryId, EntryPointer>) {
    && entries.Keys == ScriptIds(scripts) + pools.Keys
    && (forall s | s in scripts ::
          && s.entryId in entries
          && entries[s.entryId] == ToScript(scripts[s].analysis.entry))
    && (forall s, t | s in scripts && t in scripts && s.entryId == t.entryId :: s == t)
    && (forall p | p in pools :: p in entries && entries[p] == ToPool(p))
  }

  /** Every registered entry is well-formed and carries the id it is registered under. */
  ghost predicate EntriesSound(scripts: map<Script, ScriptEntry>, pools: map<EntryId, Pool>) {
    && (forall s | s in scripts :: FromAnalyzer(s, scripts[s].analysis))
    && (forall p | p in pools :: pools[p].entry.id == p && WellFormed(pools[p].entry))
  }

  /** `ranked` holds exactly one pair per entry, with that entry's rank. */
  ghost predicate RanksAgree(scripts: map<Script, ScriptEntry>, pools: map<EntryId, Pool>, ranked: set<RankKey>) {
    ranked == ScriptRanks(scripts) + PoolRanks(pools)
  }

  /** For scripts the schema index is exact; for pools its keys name registered schemas. */
  ghost predicate KeysAgree(scripts: map<Script, ScriptEntry>, pools: map<EntryId, Pool>, keys: set<SchemaKey>) {
    ScriptKeys(scripts) <= keys <= ScriptKeys(scripts) + PoolKeys(pools)
  }

  /** The names of every registered script are declared. */
  ghost predicate NamesDeclared(scripts: map<Script, ScriptEntry>, declared: Declared) {
    forall s | s in scripts ::
      && scripts[s].analysis.entry.schemas.Keys <= declared.schemas.Keys
      && scripts[s].analysis.entry.databases.Keys <= declared.databases.Keys
  }

  ghost predicate InfosAgree(bySchema: map<SchemaKey, SchemaInfo>) {
    forall k | k in bySchema :: bySchema[k].id == k.id
  }

  ghost predicate Valid(r: Registry) {
    && EntriesAgree(r.scripts, r.pools, r.entries)
    && EntriesSound(r.scripts, r.pools)
    && RanksAgree(r.scripts, r.pools, r.ranked)
    && KeysAgree(r.scripts, r.pools, r.bySchema.Keys)
    && InfosAgree(r.bySchema)
    && NamesDeclared(r.scripts, r.declared)
  }

  /** What the analyzer hands to the catalog for a script. */
  ghost predicate FromAnalyzer(s: Script, a: Analysis) {
    a.entry.id == s.entryId && WellFormed(a.entry) && Indexed(a.entry)
  }

  // ----- the operations -----

  function Empty(self: nat): Registry {
    Registry(self, 1, map[], map[], map[], {}, map[], Declared(map[], map[]), 256, 65536)
  }

  predicate OutOfSync(d: Declared, e: Entry) {
    || (exists n | n in e.databases :: n in d.databases && d.databases[n] != e.databases[n])
    || (exists n | n in e.schemas :: n in d.schemas && d.schemas[n] != e.schemas[n])
  }

  function Loaded(r: Registry, s: Script, a: Analysis, rank: Rank): Registry {
    var e := a.entry;
    r.(version := r.version + 1,
       entries := r.entries[e.id := ToScript(e)],
       scripts := r.scripts[s := ScriptEntry(a, rank)],
       ranked := r.ranked + {RankKey(rank, e.id)},
       bySchema := InfosOf(e.schemas, rank, e.id) + r.bySchema,
       declared := Declared(e.databases + r.declared.databases, e.schemas + r.declared.schemas))
  }

  predicate SchemaInUse(keys: set<SchemaKey>, n: SchemaName) { exists k | k in keys :: NameOf(k) == n }
  predicate DatabaseInUse(keys: set<SchemaKey>, d: Name) { exists k | k in keys :: k.database == d }

  /** A script's index entries after an update: the given-up names are erased, the names the
      script did not have before are inserted. */
  function ReplacedKeys(m: map<SchemaKey, SchemaInfo>, prev: Entry, e: Entry, rank: Rank,
                        id: EntryId): map<SchemaKey, SchemaInfo> {
    InfosOf(e.schemas - prev.schemas.Keys, rank, id) + (m - KeysOf(prev.schemas.Keys - e.schemas.Keys, rank, id))
  }

  /** The declared names after an update: given-up names stay only while some key carries them. */
  function ReplacedNames(declared: Declared, prev: Entry, e: Entry, keys: set<SchemaKey>): Declared {
    var deadSchemas := set n | n in prev.schemas.Keys - e.schemas.Keys && !SchemaInUse(keys, n);
    var deadDatabases := set d | d in prev.databases.Keys - e.databases.Keys && !DatabaseInUse(keys, d);
    Declared(
      ((e.databases - prev.databases.Keys) + declared.databases) - deadDatabases,
      (e.schemas - prev.schemas.Keys) + (declared.schemas - deadSchemas))
  }

  function UpdatedKeys(r: Registry, s: Script, e: Entry): map<SchemaKey, SchemaInfo>
    requires s in r.scripts
  {
    ReplacedKeys(r.bySchema, r.scripts[s].analysis.entry, e, r.scripts[s].rank, s.entryId)
  }

  function UpdatedDeclared(r: Registry, s: Script, e: Entry): Declared
    requires s in r.scripts
  {
    ReplacedNames(r.declared, r.scripts[s].analysis.entry, e, UpdatedKeys(r, s, e).Keys)
  }

  function Updated(r: Registry, s: Script, a: Analysis): Registry
    requires s in r.scripts
  {
    r.(version := r.version + 1,
       entries := r.entries[s.entryId := ToScript(a.entry)],
       scripts := r.scripts[s := r.scripts[s].(analysis := a)],
       bySchema := UpdatedKeys(r, s, a.entry),
       declared := UpdatedDeclared(r, s, a.entry))
  }

  function Dropped(r: Registry, s: Script): Registry {
    if s !in r.scripts then r else
    var prev := r.scripts[s];
    r.(version := r.version + 1,
       entries := r.entries - {s.entryId},
       scripts := r.scripts - {s},
       ranked := r.ranked - {RankKey(prev.rank, s.entryId)},
       bySchema := r.bySchema - KeysOf(prev.analysis.entry.schemas.Keys, prev.rank, s.entryId))
  }

  function PoolAdded(r: Registry, id: EntryId, rank: Rank): Registry {
    r.(version := r.version + 1,
       entries := r.entries[id := ToPool(id)],
       ranked := r.ranked + {RankKey(rank, id)},
       pools := r.pools[id := Pool(rank, Entry(id, map[], map[], [], map[]))])
  }

  function PoolDropped(r: Registry, id: EntryId): Registry {
    if id !in r.pools then r else
    var pool := r.pools[id];
    r.(version := r.version + 1,
       entries := r.entries - {id},
       ranked := r.ranked - {RankKey(pool.rank, id)},
       bySchema := r.bySchema - KeysOf(pool.entry.schemas.Keys, pool.rank, id),
       pools := r.pools - {id})
  }

  /** The index entries of one add all carry the ids of the schema that was registered last. */
  function PoolInfos(names: set<SchemaName>, rank: Rank, id: EntryId, last: SchemaIds): map<SchemaKey, SchemaInfo> {
    map k: SchemaKey | k in KeysOf(names, rank, id) :: SchemaInfo(id, last)
  }

  /** What a pool becomes when descriptors are added to it, and whether all of them were. */
  function PoolGrowth(r: Registry, id: EntryId, ds: seq<SchemaDescriptor>): (Growing, Status)
    requires id in r.pools
  {
    AddDescriptors(Growing(r.pools[id].entry, r.nextDatabase, r.nextSchema, SchemaIds(0, 0)), r.declared, ds)
  }

  /** A pool grows in place; the schema index is extended only when the whole add succeeded. */
  function Described(r: Registry, id: EntryId, ds: seq<SchemaDescriptor>): (Registry, Status) {
    if id !in r.pools then (r, PoolUnknown) else
    var pool := r.pools[id];
    var (g, status) := PoolGrowth(r, id, ds);
    var r' := r.(pools := r.pools[id := pool.(entry := g.entry)], nextDatabase := g.nextDatabase,
        nextSchema := g.nextSchema);
    if status != Ok then (r', status)
    else
      var infos := PoolInfos(DescribedNames(ds), pool.rank, id, g.last);
      (r'.(version := r.version + 1, bySchema := infos + r.bySchema), Ok)
  }

  /** The analyzer asks the catalog for the ids of names: a declared name has one, others get the next. */
  function DatabaseAllocated(r: Registry, d: Name): Registry {
    if d in r.declared.databases then r else r.(nextDatabase := r.nextDatabase + 1)
  }

  function SchemaAllocated(r: Registry, n: SchemaName): Registry {
    if n in r.declared.schemas then r else r.(nextSchema := r.nextSchema + 1)
  }

  function Cleared(r: Registry): Registry {
    r.(version := r.version + 1, entries := map[], scripts := map[], pools := map[], ranked := {}, bySchema := map[])
  }

  // ----- steps and runs -----

  datatype Op =
    | Load(script: Script, latest: Option<Analysis>, rank: Rank)
    | Drop(dropped: Script)
    | AddPool(id: EntryId, poolRank: Rank)
    | DropPool(droppedId: EntryId)
    | Describe(poolId: EntryId, descriptors: seq<SchemaDescriptor>)
    | AllocateDatabase(database: Name)
    | AllocateSchema(schemaName: SchemaName)
    | Clear

  /** A load that is out of sync may have declared some of the script's names before it noticed. */
  ghost predicate MoreDeclared(d: Declared, e: Entry, d': Declared) {
    && d.databases.Keys <= d'.databases.Keys <= d.databases.Keys + e.databases.Keys
    && (forall n | n in d'.databases :: d'.databases[n] == (e.databases + d.databases)[n])
    && d.schemas.Keys <= d'.schemas.Keys <= d.schemas.Keys + e.schemas.Keys
    && (forall n | n in d'.schemas :: d'.schemas[n] == (e.schemas + d.schemas)[n])
  }

  ghost predicate LoadStep(r: Registry, s: Script, latest: Option<Analysis>, rank: Rank, status: Status, r': Registry) {
    if latest.None? then status == ScriptNotAnalyzed && r' == r
    else if s.catalog != r.self then status == CatalogMismatch && r' == r
    else if s in r.scripts then
      status == Ok && r' == (if r.scripts[s].analysis == latest.value then r else Updated(r, s, latest.value))
    else if s.entryId in r.entries then status == IdCollision && r' == r
    else if OutOfSync(r.declared, latest.value.entry) then
      status == IdOutOfSync && r' == r.(declared := r'.declared)
          && MoreDeclared(r.declared, latest.value.entry, r'.declared)
    else status == Ok && r' == Loaded(r, s, latest.value, rank)
  }

  ghost predicate Step(r: Registry, op: Op, status: Status, r': Registry) {
    match op
    case Load(s, latest, rank) => LoadStep(r, s, latest, rank, status, r')
    case Drop(s) => status == Ok && r' == Dropped(r, s)
    case AddPool(id, rank) =>
      if id in r.entries then status == IdCollision && r' == r
      else status == Ok && r' == PoolAdded(r, id, rank)
    case DropPool(id) => status == Ok && r' == PoolDropped(r, id)
    case Describe(id, ds) => (r', status) == Described(r, id, ds)
    case AllocateDatabase(d) => status == Ok && r' == DatabaseAllocated(r, d)
    case AllocateSchema(n) => status == Ok && r' == SchemaAllocated(r, n)
    case Clear => status == Ok && r' == Cleared(r)
  }

  /** A load is only ever given what the analyzer made for that script. */
  ghost predicate Admissible(op: Op) {
    op.Load? && op.latest.Some? ==> FromAnalyzer(op.script, op.latest.value)
  }

  lemma ScriptSplit(scripts: map<Script, ScriptEntry>, s: Script)
    requires s in scripts
    ensures ScriptIds(scripts) == ScriptIds(scripts - {s}) + {s.entryId}
    ensures ScriptRanks(scripts) == ScriptRanks(scripts - {s}) + {RankKey(scripts[s].rank, s.entryId)}
    ensures ScriptKeys(scripts) == ScriptKeys(scripts - {s}) + KeysOfScript(s, scripts[s])
  {
    var others := scripts - {s};
    forall t | t in scripts ensures t == s || (t in others && others[t] == scripts[t]) {}
    assert forall t | t in others :: t in scripts && others[t] == scripts[t];
  }

  lemma PoolSplit(pools: map<EntryId, Pool>, p: EntryId)
    requires p in pools
    ensures PoolRanks(pools) == PoolRanks(pools - {p}) + {RankKey(pools[p].rank, p)}
    ensures PoolKeys(pools) == PoolKeys(pools - {p}) + KeysOfPool(p, pools[p])
  {
    var others := pools - {p};
    forall q | q in pools ensures q == p || (q in others && others[q] == pools[q]) {}
    assert forall q | q in others :: q in pools && others[q] == pools[q];
  }

  /** Adding one script: every index gains exactly what the script owns. */
  lemma ScriptJoins(scripts: map<Script, ScriptEntry>, pools: map<EntryId, Pool>, s: Script, e: ScriptEntry)
    requires s !in scripts
    ensures ScriptIds(scripts[s := e]) == ScriptIds(scripts) + {s.entryId}
    ensures forall ranked | RanksAgree(scripts, pools, ranked) ::
              RanksAgree(scripts[s := e], pools, ranked + {RankKey(e.rank, s.entryId)})
    ensures forall keys | KeysAgree(scripts, pools, keys) ::
              KeysAgree(scripts[s := e], pools, keys + KeysOfScript(s, e))
  {
    var more := scripts[s := e];
    ScriptSplit(more, s);
    assert more - {s} == scripts;
  }

  lemma LoadedEntriesAgree(scripts: map<Script, ScriptEntry>, pools: map<EntryId, Pool>,
                           entries: map<EntryId, EntryPointer>, s: Script, e: ScriptEntry)
    requires EntriesAgree(scripts, pools, entries)
    requires s !in scripts && s.entryId !in entries
    ensures EntriesAgree(scripts[s := e], pools, entries[s.entryId := ToScript(e.analysis.entry)])
  {
    ScriptJoins(scripts, pools, s, e);
    assert forall t | t in scripts :: t.entryId in entries;
  }

  lemma InfosInserted(bySchema: map<SchemaKey, SchemaInfo>, schemas: map<SchemaName, SchemaIds>, rank: Rank,
                      id: EntryId)
    requires InfosAgree(bySchema)
    ensures InfosAgree(InfosOf(schemas, rank, id) + bySchema)
    ensures (InfosOf(schemas, rank, id) + bySchema).Keys == bySchema.Keys + KeysOf(schemas.Keys, rank, id)
  {
  }

  lemma NamesJoin(scripts: map<Script, ScriptEntry>, declared: Declared, s: Script, e: ScriptEntry)
    requires NamesDeclared(scripts, declared)
    ensures var entry := e.analysis.entry;
      NamesDeclared(scripts[s := e], Declared(entry.databases + declared.databases, entry.schemas + declared.schemas))
  {
  }

  lemma LoadedIsValid(r: Registry, s: Script, a: Analysis, rank: Rank)
    requires Valid(r) && FromAnalyzer(s, a) && s !in r.scripts && s.entryId !in r.entries
    ensures Valid(Loaded(r, s, a, rank))
  {
    var e := ScriptEntry(a, rank);
    LoadedEntriesAgree(r.scripts, r.pools, r.entries, s, e);
    ScriptJoins(r.scripts, r.pools, s, e);
    InfosInserted(r.bySchema, a.entry.schemas, rank, s.entryId);
    NamesJoin(r.scripts, r.declared, s, e);
  }

  lemma ScriptEntryLeaves(scripts: map<Script, ScriptEntry>, pools: map<EntryId, Pool>,
                          entries: map<EntryId, EntryPointer>, s: Script)
    requires EntriesAgree(scripts, pools, entries) && s in scripts
    ensures s.entryId !in ScriptIds(scripts - {s}) && s.entryId !in pools
    ensures EntriesAgree(scripts - {s}, pools, entries - {s.entryId})
  {
    ScriptSplit(scripts, s);
  }

  lemma ScriptKeysLeave(scripts: map<Script, ScriptEntry>, pools: map<EntryId, Pool>, s: Script)
    requires s in scripts && s.entryId !in ScriptIds(scripts - {s}) && s.entryId !in pools
    ensures RankKey(scripts[s].rank, s.entryId) !in ScriptRanks(scripts - {s}) + PoolRanks(pools)
    ensures KeysOfScript(s, scripts[s]) !! ScriptKeys(scripts - {s}) + PoolKeys(pools)
  {
    var others := scripts - {s};
    forall k | k in KeysOfScript(s, scripts[s]) ensures k !in ScriptKeys(others) + PoolKeys(pools) {
      assert k.id == s.entryId;
    }
  }

  /** Removing one script: nothing it owned was shared with another entry. */
  lemma ScriptLeaves(scripts: map<Script, ScriptEntry>, pools: map<EntryId, Pool>, entries: map<EntryId, EntryPointer>,
                     s: Script)
    requires EntriesAgree(scripts, pools, entries) && s in scripts
    ensures EntriesAgree(scripts - {s}, pools, entries - {s.entryId})
    ensures forall ranked | RanksAgree(scripts, pools, ranked) ::
              && RankKey(scripts[s].rank, s.entryId) in ranked
              && RanksAgree(scripts - {s}, pools, ranked - {RankKey(scripts[s].rank, s.entryId)})
    ensures forall keys | KeysAgree(scripts, pools, keys) ::
              && KeysOfScript(s, scripts[s]) <= keys
              && KeysAgree(scripts - {s}, pools, keys - KeysOfScript(s, scripts[s]))
  {
    ScriptSplit(scripts, s);
    ScriptEntryLeaves(scripts, pools, entries, s);
    ScriptKeysLeave(scripts, pools, s);
  }

  lemma DroppedIsValid(r: Registry, s: Script)
    requires Valid(r)
    ensures Valid(Dropped(r, s))
  {
    if s in r.scripts {
      ScriptLeaves(r.scripts, r.pools, r.entries, s);
    }
  }

  lemma NamesSplit(a: set<SchemaName>, b: set<SchemaName>, rank: Rank, id: EntryId)
    ensures KeysOf(a, rank, id) == KeysOf(a - b, rank, id) + KeysOf(a * b, rank, id)
    ensures KeysOf(a - b, rank, id) !! KeysOf(a * b, rank, id)
  {
    forall k | k in KeysOf(a, rank, id) ensures NameOf(k) in a && k == KeyOf(NameOf(k), rank, id) {}
    forall k | k in KeysOf(a - b, rank, id) ensures NameOf(k) in a - b && k == KeyOf(NameOf(k), rank, id) {}
    forall k | k in KeysOf(a * b, rank, id) ensures NameOf(k) in a * b && k == KeyOf(NameOf(k), rank, id) {}
    forall n | n in a ensures n in a - b || n in a * b {}
  }

  lemma DiffReplaces(keys: set<SchemaKey>, was: set<SchemaName>, now: set<SchemaName>, rank: Rank, id: EntryId)
    requires KeysOf(was, rank, id) <= keys
    ensures KeysOf(now - was, rank, id) + (keys - KeysOf(was - now, rank, id))
         == (keys - KeysOf(was, rank, id)) + KeysOf(now, rank, id)
  {
    NamesSplit(was, now, rank, id);
    NamesSplit(now, was, rank, id);
    assert was * now == now * was;
  }

  /** Diffing the old against the new schema names has the effect of erasing all of the old keys
      and inserting all of the new ones. */
  lemma UpdateReplacesKeys(r: Registry, s: Script, e: Entry)
    requires s in r.scripts && KeysOfScript(s, r.scripts[s]) <= r.bySchema.Keys && InfosAgree(r.bySchema)
    ensures var own := KeysOfScript(s, r.scripts[s]);
      UpdatedKeys(r, s, e).Keys == (r.bySchema.Keys - own) + KeysOf(e.schemas.Keys, r.scripts[s].rank, s.entryId)
    ensures InfosAgree(UpdatedKeys(r, s, e))
  {
    var prev, rank, id := r.scripts[s].analysis.entry, r.scripts[s].rank, s.entryId;
    DiffReplaces(r.bySchema.Keys, prev.schemas.Keys, e.schemas.Keys, rank, id);
    InfosInserted(r.bySchema - KeysOf(prev.schemas.Keys - e.schemas.Keys, rank, id), e.schemas - prev.schemas.Keys,
        rank, id);
    assert (e.schemas - prev.schemas.Keys).Keys == e.schemas.Keys - prev.schemas.Keys;
  }

  lemma Reinsert<K, V>(m: map<K, V>, k: K, v: V)
    ensures m[k := v] == (m - {k})[k := v]
  {
  }

  /** The registration of a script is the same after an update and after a drop and a load. */
  ghost predicate SameRegistration(u: Registry, l: Registry) {
    && u.entries == l.entries && u.scripts == l.scripts && u.pools == l.pools
    && u.ranked == l.ranked && u.bySchema.Keys == l.bySchema.Keys
  }

  lemma UpdateReplacesRegistration(r: Registry, s: Script, a: Analysis)
    requires s in r.scripts && a.entry.id == s.entryId && InfosAgree(r.bySchema)
    requires KeysOfScript(s, r.scripts[s]) <= r.bySchema.Keys && RankKey(r.scripts[s].rank, s.entryId) in r.ranked
    ensures SameRegistration(Updated(r, s, a), Loaded(Dropped(r, s), s, a, r.scripts[s].rank))
  {
    UpdateReplacesKeys(r, s, a.entry);
    InfosInserted(Dropped(r, s).bySchema, a.entry.schemas, r.scripts[s].rank, s.entryId);
    Reinsert(r.entries, s.entryId, ToScript(a.entry));
    Reinsert(r.scripts, s, r.scripts[s].(analysis := a));
  }

  /** Updating a loaded script leaves the entries, the ranking, the registered scripts and the
      schema keys exactly as dropping it and loading the new analysis at the same rank would. */
  lemma UpdateIsDropThenLoad(r: Registry, s: Script, a: Analysis)
    requires Valid(r) && s in r.scripts && FromAnalyzer(s, a)
    ensures SameRegistration(Updated(r, s, a), Loaded(Dropped(r, s), s, a, r.scripts[s].rank))
  {
    ScriptSplit(r.scripts, s);
    UpdateReplacesRegistration(r, s, a);
  }

  /** The names of a registered script are carried by its own keys. */
  lemma OwnNamesInUse(scripts: map<Script, ScriptEntry>, s: Script, keys: set<SchemaKey>)
    requires s in scripts && KeysOfScript(s, scripts[s]) <= keys && WellFormed(scripts[s].analysis.entry)
    ensures forall n | n in scripts[s].analysis.entry.schemas :: SchemaInUse(keys, n)
    ensures forall d | d in scripts[s].analysis.entry.databases :: DatabaseInUse(keys, d)
  {
    var e := scripts[s].analysis.entry;
    forall n | n in e.schemas ensures SchemaInUse(keys, n) && DatabaseInUse(keys, n.database) {
      var k := KeyOf(n, scripts[s].rank, s.entryId);
      assert k in KeysOfScript(s, scripts[s]) && NameOf(k) == n;
    }
    forall d | d in e.databases ensures DatabaseInUse(keys, d) {
      var n :| n in e.schemas && n.database == d;
    }
  }

  /** Names that are still in use survive the cleanup of an update. */
  lemma UsedNamesSurvive(r: Registry, s: Script, e: Entry)
    requires s in r.scripts
    ensures forall n | n in r.declared.schemas && SchemaInUse(UpdatedKeys(r, s, e).Keys, n) ::
              n in UpdatedDeclared(r, s, e).schemas
    ensures forall d | d in r.declared.databases && DatabaseInUse(UpdatedKeys(r, s, e).Keys, d) ::
              d in UpdatedDeclared(r, s, e).databases
  {
  }

  lemma NewNamesDeclared(r: Registry, s: Script, e: Entry)
    requires s in r.scripts && NamesDeclared(r.scripts, r.declared)
    ensures e.schemas.Keys <= UpdatedDeclared(r, s, e).schemas.Keys
    ensures e.databases.Keys <= UpdatedDeclared(r, s, e).databases.Keys
  {
  }

  lemma OtherNamesDeclared(r: Registry, s: Script, t: Script, e: Entry)
    requires Valid(r) && s in r.scripts && t in r.scripts && t != s
    ensures r.scripts[t].analysis.entry.schemas.Keys <= UpdatedDeclared(r, s, e).schemas.Keys
    ensures r.scripts[t].analysis.entry.databases.Keys <= UpdatedDeclared(r, s, e).databases.Keys
  {
    ScriptSplit(r.scripts, s);
    ScriptSplit(r.scripts, t);
    UpdateReplacesKeys(r, s, e);
    assert KeysOfScript(t, r.scripts[t]) !! KeysOfScript(s, r.scripts[s]);
    assert FromAnalyzer(t, r.scripts[t].analysis);
    OwnNamesInUse(r.scripts, t, UpdatedKeys(r, s, e).Keys);
    UsedNamesSurvive(r, s, e);
  }

  /** No script loses a declared name when a script is updated. */
  lemma UpdateKeepsNames(r: Registry, s: Script, a: Analysis)
    requires Valid(r) && s in r.scripts
    ensures NamesDeclared(r.scripts[s := r.scripts[s].(analysis := a)], UpdatedDeclared(r, s, a.entry))
  {
    NewNamesDeclared(r, s, a.entry);
    forall t | t in r.scripts && t != s
      ensures r.scripts[t].analysis.entry.schemas.Keys <= UpdatedDeclared(r, s, a.entry).schemas.Keys
      ensures r.scripts[t].analysis.entry.databases.Keys <= UpdatedDeclared(r, s, a.entry).databases.Keys
    {
      OtherNamesDeclared(r, s, t, a.entry);
    }
    NamesAssembled(r.scripts, s, r.scripts[s].(analysis := a), UpdatedDeclared(r, s, a.entry));
  }

  lemma NamesAssembled(scripts: map<Script, ScriptEntry>, s: Script, e: ScriptEntry, d: Declared)
    requires NamesDeclared(scripts - {s}, d)
    requires e.analysis.entry.schemas.Keys <= d.schemas.Keys && e.analysis.entry.databases.Keys <= d.databases.Keys
    ensures NamesDeclared(scripts[s := e], d)
  {
    assert forall t | t in scripts && t != s :: t in scripts - {s};
  }

  lemma UpdatedIsValid(r: Registry, s: Script, a: Analysis)
    requires Valid(r) && s in r.scripts && FromAnalyzer(s, a)
    ensures Valid(Updated(r, s, a))
  {
    var u, e := Updated(r, s, a), r.scripts[s].(analysis := a);
    UpdateIsDropThenLoad(r, s, a);
    DroppedIsValid(r, s);
    ScriptLeaves(r.scripts, r.pools, r.entries, s);
    LoadedIsValid(Dropped(r, s), s, a, e.rank);
    UpdateReplacesKeys(r, s, a.entry);
    UpdateKeepsNames(r, s, a);
  }

  // ----- pools -----

  lemma PoolEntryJoins(scripts: map<Script, ScriptEntry>, pools: map<EntryId, Pool>,
                       entries: map<EntryId, EntryPointer>, p: EntryId, pool: Pool)
    requires EntriesAgree(scripts, pools, entries) && p !in entries
    ensures EntriesAgree(scripts, pools[p := pool], entries[p := ToPool(p)])
  {
    assert forall s | s in scripts :: s.entryId in entries;
  }

  lemma EmptyPoolSplit(pools: map<EntryId, Pool>, p: EntryId, pool: Pool)
    requires p !in pools && pool.entry.schemas == map[]
    ensures PoolRanks(pools[p := pool]) == PoolRanks(pools) + {RankKey(pool.rank, p)}
    ensures PoolKeys(pools[p := pool]) == PoolKeys(pools)
  {
    PoolSplit(pools[p := pool], p);
    assert pools[p := pool] - {p} == pools;
    assert KeysOfPool(p, pool) == {};
  }

  lemma EmptyPoolJoins(scripts: map<Script, ScriptEntry>, pools: map<EntryId, Pool>, ranked: set<RankKey>,
                       keys: set<SchemaKey>, p: EntryId, pool: Pool)
    requires RanksAgree(scripts, pools, ranked) && KeysAgree(scripts, pools, keys)
    requires p !in pools && pool.entry.schemas == map[]
    ensures RanksAgree(scripts, pools[p := pool], ranked + {RankKey(pool.rank, p)})
    ensures KeysAgree(scripts, pools[p := pool], keys)
  {
    EmptyPoolSplit(pools, p, pool);
  }

  lemma PoolAddedIsValid(r: Registry, id: EntryId, rank: Rank)
    requires Valid(r) && id !in r.entries
    ensures Valid(PoolAdded(r, id, rank))
  {
    var pool := Pool(rank, Entry(id, map[], map[], [], map[]));
    assert id !in r.pools;
    PoolEntryJoins(r.scripts, r.pools, r.entries, id, pool);
    EmptyPoolJoins(r.scripts, r.pools, r.ranked, r.bySchema.Keys, id, pool);
    PoolSoundAfter(r.scripts, r.pools, id, pool);
  }

  /** Removing one pool: nothing it owned was shared with another entry. */
  lemma PoolLeaves(scripts: map<Script, ScriptEntry>, pools: map<EntryId, Pool>, entries: map<EntryId, EntryPointer>,
                   p: EntryId)
    requires EntriesAgree(scripts, pools, entries) && p in pools
    ensures EntriesAgree(scripts, pools - {p}, entries - {p})
    ensures forall ranked | RanksAgree(scripts, pools, ranked) ::
              RanksAgree(scripts, pools - {p}, ranked - {RankKey(pools[p].rank, p)})
    ensures forall keys | KeysAgree(scripts, pools, keys) ::
              KeysAgree(scripts, pools - {p}, keys - KeysOfPool(p, pools[p]))
  {
    PoolSplit(pools, p);
    var others := pools - {p};
    assert p !in ScriptIds(scripts);
    assert RankKey(pools[p].rank, p) !in ScriptRanks(scripts) + PoolRanks(others);
    forall k | k in KeysOfPool(p, pools[p]) ensures k !in ScriptKeys(scripts) + PoolKeys(others) {
      assert k.id == p;
    }
  }

  lemma PoolDroppedIsValid(r: Registry, id: EntryId)
    requires Valid(r)
    ensures Valid(PoolDropped(r, id))
  {
    if id in r.pools { PoolLeaves(r.scripts, r.pools, r.entries, id); }
  }

  /** A pool that has lost no schema keeps every index consistent. */
  lemma PoolGrows(scripts: map<Script, ScriptEntry>, pools: map<EntryId, Pool>, entries: map<EntryId, EntryPointer>,
                  p: EntryId, pool: Pool)
    requires p in pools && pool.rank == pools[p].rank && Grown(pools[p].entry, pool.entry)
    requires EntriesAgree(scripts, pools, entries)
    ensures EntriesAgree(scripts, pools[p := pool], entries)
    ensures forall ranked | RanksAgree(scripts, pools, ranked) :: RanksAgree(scripts, pools[p := pool], ranked)
    ensures forall keys, more | KeysAgree(scripts, pools, keys) && more <= KeysOfPool(p, pool) ::
              KeysAgree(scripts, pools[p := pool], keys + more)
  {
    PoolSplit(pools, p);
    PoolSplit(pools[p := pool], p);
    assert pools[p := pool] - {p} == pools - {p};
    assert KeysOfPool(p, pools[p]) <= KeysOfPool(p, pool);
  }

  lemma PoolSoundAfter(scripts: map<Script, ScriptEntry>, pools: map<EntryId, Pool>, p: EntryId, pool: Pool)
    requires EntriesSound(scripts, pools) && WellFormed(pool.entry) && pool.entry.id == p
    ensures EntriesSound(scripts, pools[p := pool])
  {
  }

  lemma PoolInfosInserted(bySchema: map<SchemaKey, SchemaInfo>, names: set<SchemaName>, rank: Rank, id: EntryId,
                          last: SchemaIds)
    requires InfosAgree(bySchema)
    ensures InfosAgree(PoolInfos(names, rank, id, last) + bySchema)
    ensures (PoolInfos(names, rank, id, last) + bySchema).Keys == bySchema.Keys + KeysOf(names, rank, id)
  {
  }

  lemma DescribedIsValid(r: Registry, id: EntryId, ds: seq<SchemaDescriptor>)
    requires Valid(r)
    ensures Valid(Described(r, id, ds).0)
  {
    if id in r.pools {
      var pool := r.pools[id];
      var g := Growing(pool.entry, r.nextDatabase, r.nextSchema, SchemaIds(0, 0));
      AddDescriptorsKeeps(g, r.declared, ds);
      var (g', status) := AddDescriptors(g, r.declared, ds);
      var pool' := pool.(entry := g'.entry);
      PoolGrows(r.scripts, r.pools, r.entries, id, pool');
      PoolSoundAfter(r.scripts, r.pools, id, pool');
      PoolInfosInserted(r.bySchema, DescribedNames(ds), pool.rank, id, g'.last);
      var more := if status == Ok then KeysOf(DescribedNames(ds), pool.rank, id) else {};
      assert more <= KeysOfPool(id, pool');
      assert KeysAgree(r.scripts, r.pools[id := pool'], r.bySchema.Keys + more);
    }
  }

  // ----- every run -----

  lemma LoadKeepsValid(r: Registry, s: Script, latest: Option<Analysis>, rank: Rank, status: Status, r': Registry)
    requires Valid(r) && LoadStep(r, s, latest, rank, status, r')
    requires latest.Some? ==> FromAnalyzer(s, latest.value)
    ensures Valid(r')
  {
    if latest.Some? && s in r.scripts {
      UpdatedIsValid(r, s, latest.value);
    } else if latest.Some? && status == Ok {
      LoadedIsValid(r, s, latest.value, rank);
    } else if status == IdOutOfSync {
      MoreNamesDeclared(r.scripts, r.declared, r'.declared);
    }
  }

  lemma MoreNamesDeclared(scripts: map<Script, ScriptEntry>, d: Declared, d': Declared)
    requires NamesDeclared(scripts, d) && d.databases.Keys <= d'.databases.Keys && d.schemas.Keys <= d'.schemas.Keys
    ensures NamesDeclared(scripts, d')
  {
  }

  lemma StepKeepsValid(r: Registry, op: Op, status: Status, r': Registry)
    requires Valid(r) && Admissible(op) && Step(r, op, status, r')
    ensures Valid(r')
  {
    match op
    case Load(s, latest, rank) => LoadKeepsValid(r, s, latest, rank, status, r');
    case Drop(s) => DroppedIsValid(r, s);
    case AddPool(id, rank) => if id !in r.entries { PoolAddedIsValid(r, id, rank); }
    case DropPool(id) => PoolDroppedIsValid(r, id);
    case Describe(id, ds) => DescribedIsValid(r, id, ds);
    case AllocateDatabase(_) =>
    case AllocateSchema(_) =>
    case Clear => ClearedIsValid(r);
  }

  lemma ClearedIsValid(r: Registry)
    ensures Valid(Cleared(r))
  {
  }

  datatype Event = Event(op: Op, status: Status, after: Registry)

  /** `run` starts in `r`: every event follows from the state before it. */
  ghost predicate IsRun(r: Registry, run: seq<Event>)
    decreases |run|
  {
    run != [] ==>
      && Admissible(run[0].op)
      && Step(r, run[0].op, run[0].status, run[0].after)
      && IsRun(run[0].after, run[1..])
  }

  lemma LongerRun(r: Registry, e: Event, run: seq<Event>)
    requires Admissible(e.op) && Step(r, e.op, e.status, e.after) && IsRun(e.after, run)
    ensures IsRun(r, [e] + run)
  {
    assert ([e] + run)[1..] == run;
  }

  /** The five indexes agree in every state of every run of a catalog. */
  lemma {:induction false} RunsAreValid(r: Registry, run: seq<Event>)
    requires Valid(r) && IsRun(r, run)
    ensures forall i | 0 <= i < |run| :: Valid(run[i].after)
    decreases |run|
  {
    if run != [] {
      StepKeepsValid(r, run[0].op, run[0].status, run[0].after);
      RunsAreValid(run[0].after, run[1..]);
      forall i | 0 <= i < |run| ensures Valid(run[i].after) {
        assert i > 0 ==> run[i] == run[1..][i - 1];
      }
    }
  }

  lemma EmptyIsValid(self: nat)
    ensures Valid(Empty(self))
  {
  }

  /** A failed call leaves the indexes and the version as they were. */
  lemma FailureLeavesIndexes(r: Registry, op: Op, status: Status, r': Registry)
    requires Step(r, op, status, r') && status != Ok
    ensures r'.entries == r.entries && r'.ranked == r.ranked && r'.bySchema == r.bySchema
    ensures r'.scripts == r.scripts && r'.pools.Keys == r.pools.Keys && r'.version == r.version
  {
  }

  /** The names a script gives up in an update stay declared exactly as long as some key of the
      schema index carries them. */
  lemma GivenUpNames(r: Registry, s: Script, a: Analysis)
    requires Valid(r) && s in r.scripts && FromAnalyzer(s, a)
    ensures var u, prev := Updated(r, s, a), r.scripts[s].analysis.entry;
      && (forall n | n in prev.schemas && n !in a.entry.schemas ::
            n in u.declared.schemas <==> SchemaInUse(u.bySchema.Keys, n))
      && (forall d | d in prev.databases && d !in a.entry.databases ::
            d in u.declared.databases <==> DatabaseInUse(u.bySchema.Keys, d))
  {
  }
}
