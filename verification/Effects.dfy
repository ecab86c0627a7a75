/** What every operation does to a catalog, told from the state before and the state after: each one
    touches a single entry, lookups see exactly that change, and some operations undo others. */
module Effects {
  import opened Common
  import opened DescriptorPool
  import opened CatalogState
  import opened Precedence

  // ----- one entry of a registry -----

  /** No index mentions the entry. */
  ghost predicate Unlisted(r: Registry, id: EntryId) {
    && id !in r.entries && id !in r.pools
    && (forall k | k in r.ranked :: k.id != id)
    && (forall k | k in r.bySchema :: k.id != id)
  }

  ghost predicate SameElsewhere<V(!new)>(m: map<EntryId, V>, m': map<EntryId, V>, id: EntryId) {
    forall q | q != id :: (q in m <==> q in m') && (q in m ==> m'[q] == m[q])
  }

  ghost predicate SameRanksElsewhere(ranked: set<RankKey>, ranked': set<RankKey>, id: EntryId) {
    forall k: RankKey | k.id != id :: k in ranked <==> k in ranked'
  }

  ghost predicate SameKeysElsewhere(m: map<SchemaKey, SchemaInfo>, m': map<SchemaKey, SchemaInfo>, id: EntryId) {
    forall k: SchemaKey | k.id != id :: (k in m <==> k in m') && (k in m ==> m'[k] == m[k])
  }

  /** In every index, everything that does not belong to the entry is as it was. */
  ghost predicate SameBut(r: Registry, r': Registry, id: EntryId) {
    && SameElsewhere(r.entries, r'.entries, id)
    && SameElsewhere(r.pools, r'.pools, id)
    && SameRanksElsewhere(r.ranked, r'.ranked, id)
    && SameKeysElsewhere(r.bySchema, r'.bySchema, id)
  }

  /** The entry is listed with exactly this rank, and its keys are those of exactly these names. */
  ghost predicate ListedUnder(r: Registry, id: EntryId, rank: Rank, names: set<SchemaName>) {
    && (forall k: RankKey | k.id == id :: k in r.ranked <==> k.rank == rank)
    && (forall k: SchemaKey | k.id == id :: k in r.bySchema <==> k.rank == rank && NameOf(k) in names)
  }

  /** The keys of the entry carry these ids. */
  ghost predicate KeysCarry(r: Registry, id: EntryId, schemas: map<SchemaName, SchemaIds>) {
    forall k | k in r.bySchema && k.id == id && NameOf(k) in schemas ::
      r.bySchema[k] == SchemaInfo(id, schemas[NameOf(k)])
  }

  // ----- what is known about a valid registry -----

  lemma RanksHaveEntries(scripts: map<Script, ScriptEntry>, pools: map<EntryId, Pool>,
                         entries: map<EntryId, EntryPointer>, ranked: set<RankKey>, k: RankKey)
    requires EntriesAgree(scripts, pools, entries) && RanksAgree(scripts, pools, ranked) && k in ranked
    ensures k.id in entries && (k.id in pools ==> k.rank == pools[k.id].rank)
    ensures forall s | s in scripts && s.entryId == k.id :: k.rank == scripts[s].rank
  {
    assert forall s | s in scripts :: s.entryId in ScriptIds(scripts);
  }

  lemma KeysHaveEntries(scripts: map<Script, ScriptEntry>, pools: map<EntryId, Pool>,
                        entries: map<EntryId, EntryPointer>, keys: set<SchemaKey>, k: SchemaKey)
    requires EntriesAgree(scripts, pools, entries) && KeysAgree(scripts, pools, keys) && k in keys
    ensures k.id in entries && (k.id in pools ==> k in KeysOfPool(k.id, pools[k.id]))
    ensures forall s | s in scripts && s.entryId == k.id :: k in KeysOfScript(s, scripts[s])
  {
    KeysAreRanked(scripts, pools, k);
    if k in ScriptKeys(scripts) {
      var s :| s in scripts && k in KeysOfScript(s, scripts[s]);
    } else {
      var p :| p in pools && k in KeysOfPool(p, pools[p]);
    }
  }

  // ----- pools -----

  lemma PoolUnlisted(r: Registry, id: EntryId, r': Registry)
    requires Valid(r) && id in r.pools && r' == PoolDropped(r, id)
    ensures Unlisted(r', id)
  {
    forall k | k in r'.ranked ensures k.id != id {
      RanksHaveEntries(r.scripts, r.pools, r.entries, r.ranked, k);
    }
    forall k | k in r'.bySchema ensures k.id != id {
      KeysHaveEntries(r.scripts, r.pools, r.entries, r.bySchema.Keys, k);
    }
  }

  lemma PoolDroppedElsewhere(r: Registry, id: EntryId)
    requires id in r.pools
    ensures SameBut(r, PoolDropped(r, id), id)
  {
  }

  /** A dropped pool is in no index any more, and nothing else changed. */
  lemma DroppedPoolIsGone(r: Registry, id: EntryId, status: Status, r': Registry)
    requires Valid(r) && Step(r, DropPool(id), status, r')
    ensures status == Ok && id !in r'.pools && SameBut(r, r', id)
    ensures if id in r.pools then Unlisted(r', id) && r'.version == r.version + 1 else r' == r
    ensures r'.scripts == r.scripts && r'.declared == r.declared
    ensures r'.nextDatabase == r.nextDatabase && r'.nextSchema == r.nextSchema && r'.self == r.self
  {
    if id in r.pools {
      PoolUnlisted(r, id, r');
      PoolDroppedElsewhere(r, id);
    }
  }

  lemma FreeIdIsUnlisted(r: Registry, id: EntryId)
    requires Valid(r) && id !in r.entries
    ensures Unlisted(r, id) && forall s | s in r.scripts :: s.entryId != id
  {
    forall k | k in r.ranked ensures k.id != id {
      RanksHaveEntries(r.scripts, r.pools, r.entries, r.ranked, k);
    }
    forall k | k in r.bySchema ensures k.id != id {
      KeysHaveEntries(r.scripts, r.pools, r.entries, r.bySchema.Keys, k);
    }
  }

  lemma AddedPoolListed(r: Registry, id: EntryId, rank: Rank)
    requires Unlisted(r, id)
    ensures var r' := PoolAdded(r, id, rank);
      && SameBut(r, r', id) && ListedUnder(r', id, rank, {})
      && id in r'.entries && r'.entries[id] == ToPool(id) && r'.version == r.version + 1
      && id in r'.pools && r'.pools[id] == Pool(rank, Entry(id, map[], map[], [], map[]))
  {
  }

  /** An added pool is listed with the rank that was asked for, and is empty; nothing else changed. */
  lemma AddedPoolIsListed(r: Registry, id: EntryId, rank: Rank, status: Status, r': Registry)
    requires Valid(r) && Step(r, AddPool(id, rank), status, r')
    ensures status == (if id in r.entries then IdCollision else Ok) && SameBut(r, r', id)
    ensures if id in r.entries then r' == r
      else
        && id in r'.entries && r'.entries[id] == ToPool(id) && r'.version == r.version + 1
        && id in r'.pools && r'.pools[id] == Pool(rank, Entry(id, map[], map[], [], map[]))
        && ListedUnder(r', id, rank, {})
    ensures r'.scripts == r.scripts && r'.declared == r.declared
    ensures r'.nextDatabase == r.nextDatabase && r'.nextSchema == r.nextSchema && r'.self == r.self
  {
    if id !in r.entries {
      FreeIdIsUnlisted(r, id);
      AddedPoolListed(r, id, rank);
    }
  }

  lemma AddThenDrop(r: Registry, id: EntryId, rank: Rank)
    requires Unlisted(r, id)
    ensures PoolDropped(PoolAdded(r, id, rank), id) == r.(version := r.version + 2)
  {
    var r1 := PoolAdded(r, id, rank);
    var r2 := PoolDropped(r1, id);
    assert r1.pools[id] == Pool(rank, Entry(id, map[], map[], [], map[]));
    assert r2.entries == r.entries && r2.pools == r.pools;
    assert r2.ranked == r.ranked by { assert RankKey(rank, id) !in r.ranked; }
    assert r2.bySchema == r.bySchema;
  }

  /** Dropping a pool that was just added leaves the catalog as it was before. */
  lemma DropUndoesAddPool(r: Registry, id: EntryId, rank: Rank, r1: Registry, r2: Registry)
    requires Valid(r) && Step(r, AddPool(id, rank), Ok, r1) && Step(r1, DropPool(id), Ok, r2)
    ensures r2 == r.(version := r.version + 2)
  {
    FreeIdIsUnlisted(r, id);
    AddThenDrop(r, id, rank);
  }

  // ----- scripts -----

  lemma ScriptUnlisted(r: Registry, s: Script, r': Registry)
    requires Valid(r) && s in r.scripts && r' == Dropped(r, s)
    ensures Unlisted(r', s.entryId) && s.entryId !in r.pools
  {
    forall k | k in r'.ranked ensures k.id != s.entryId {
      RanksHaveEntries(r.scripts, r.pools, r.entries, r.ranked, k);
    }
    forall k | k in r'.bySchema ensures k.id != s.entryId {
      KeysHaveEntries(r.scripts, r.pools, r.entries, r.bySchema.Keys, k);
    }
    assert s.entryId in ScriptIds(r.scripts);
  }

  /** The other scripts are registered as before. */
  ghost predicate SameScriptsBut(scripts: map<Script, ScriptEntry>, scripts': map<Script, ScriptEntry>, s: Script) {
    forall t | t != s :: (t in scripts <==> t in scripts') && (t in scripts ==> scripts'[t] == scripts[t])
  }

  lemma DroppedElsewhere(r: Registry, s: Script)
    requires s in r.scripts && s.entryId !in r.pools
    ensures SameBut(r, Dropped(r, s), s.entryId) && SameScriptsBut(r.scripts, Dropped(r, s).scripts, s)
  {
  }

  /** A dropped script is in no index any more, and nothing else changed; its names stay declared. */
  lemma DroppedScriptIsGone(r: Registry, s: Script, status: Status, r': Registry)
    requires Valid(r) && Step(r, Drop(s), status, r')
    ensures status == Ok && s !in r'.scripts && SameScriptsBut(r.scripts, r'.scripts, s)
    ensures SameBut(r, r', s.entryId)
    ensures if s in r.scripts then Unlisted(r', s.entryId) && r'.version == r.version + 1 else r' == r
    ensures r'.declared == r.declared && r'.pools == r.pools
    ensures r'.nextDatabase == r.nextDatabase && r'.nextSchema == r.nextSchema && r'.self == r.self
  {
    if s in r.scripts {
      ScriptUnlisted(r, s, r');
      DroppedElsewhere(r, s);
    }
  }

  /** A name gets the script's id exactly if it was not declared before; nothing else is declared. */
  ghost predicate DeclaresNew<K(!new), V(!new)>(declared: map<K, V>, own: map<K, V>, declared': map<K, V>) {
    && (forall k :: k in declared' <==> k in declared || k in own)
    && (forall k | k in declared' :: declared'[k] == if k in declared then declared[k] else own[k])
  }

  lemma LoadedListed(r: Registry, s: Script, a: Analysis, rank: Rank)
    requires Unlisted(r, s.entryId) && a.entry.id == s.entryId
    ensures var r' := Loaded(r, s, a, rank);
      && SameBut(r, r', s.entryId) && ListedUnder(r', s.entryId, rank, a.entry.schemas.Keys)
      && KeysCarry(r', s.entryId, a.entry.schemas)
      && s.entryId in r'.entries && r'.entries[s.entryId] == ToScript(a.entry) && r'.version == r.version + 1
      && s in r'.scripts && r'.scripts[s] == ScriptEntry(a, rank) && SameScriptsBut(r.scripts, r'.scripts, s)
  {
  }

  lemma LoadedDeclares(r: Registry, s: Script, a: Analysis, rank: Rank)
    ensures var r' := Loaded(r, s, a, rank);
      && DeclaresNew(r.declared.databases, a.entry.databases, r'.declared.databases)
      && DeclaresNew(r.declared.schemas, a.entry.schemas, r'.declared.schemas)
  {
  }

  lemma LoadedInSync(r: Registry, s: Script, a: Analysis, rank: Rank)
    requires !OutOfSync(r.declared, a.entry)
    ensures var declared := Loaded(r, s, a, rank).declared;
      && (forall d | d in a.entry.databases :: d in declared.databases && declared.databases[d] == a.entry.databases[d])
      && (forall n | n in a.entry.schemas :: n in declared.schemas && declared.schemas[n] == a.entry.schemas[n])
  {
  }

  /** When loading a script fails, and why; nothing else makes it fail. */
  lemma LoadOutcome(r: Registry, s: Script, latest: Option<Analysis>, rank: Rank, status: Status, r': Registry)
    requires Step(r, Load(s, latest, rank), status, r')
    ensures status == ScriptNotAnalyzed <==> latest.None?
    ensures status == CatalogMismatch <==> latest.Some? && s.catalog != r.self
    ensures status == IdCollision <==>
              latest.Some? && s.catalog == r.self && s !in r.scripts && s.entryId in r.entries
    ensures status == Ok ==> latest.Some? && s.catalog == r.self
    ensures status == Ok && s !in r.scripts ==>
              && s.entryId !in r.entries
              && (forall d | d in latest.value.entry.databases && d in r.declared.databases ::
                    r.declared.databases[d] == latest.value.entry.databases[d])
              && (forall n | n in latest.value.entry.schemas && n in r.declared.schemas ::
                    r.declared.schemas[n] == latest.value.entry.schemas[n])
    ensures status == IdOutOfSync ==>
              || (exists d :: d in latest.value.entry.databases && d in r.declared.databases &&
                    r.declared.databases[d] != latest.value.entry.databases[d])
              || (exists n :: n in latest.value.entry.schemas && n in r.declared.schemas &&
                    r.declared.schemas[n] != latest.value.entry.schemas[n])
    ensures status in {Ok, ScriptNotAnalyzed, CatalogMismatch, IdCollision, IdOutOfSync}
    ensures status != Ok && status != IdOutOfSync ==> r' == r
    ensures s in r.scripts && latest.Some? && s.catalog == r.self ==> status == Ok
  {
  }

  lemma LoadedStep(r: Registry, s: Script, a: Analysis, rank: Rank, r': Registry)
    requires s !in r.scripts && Step(r, Load(s, Some(a), rank), Ok, r')
    ensures r' == Loaded(r, s, a, rank) && s.entryId !in r.entries && !OutOfSync(r.declared, a.entry)
  {
  }

  /** A loaded script is listed with the rank that was asked for and the keys and ids of its schemas;
      nothing else changed in the indexes. */
  lemma LoadedScriptIsListed(r: Registry, s: Script, a: Analysis, rank: Rank, r': Registry)
    requires Valid(r) && FromAnalyzer(s, a) && s !in r.scripts && Step(r, Load(s, Some(a), rank), Ok, r')
    ensures Unlisted(r, s.entryId) && SameBut(r, r', s.entryId) && r'.version == r.version + 1
    ensures s in r'.scripts && r'.scripts[s] == ScriptEntry(a, rank) && SameScriptsBut(r.scripts, r'.scripts, s)
    ensures s.entryId in r'.entries && r'.entries[s.entryId] == ToScript(a.entry)
    ensures ListedUnder(r', s.entryId, rank, a.entry.schemas.Keys) && KeysCarry(r', s.entryId, a.entry.schemas)
  {
    LoadedStep(r, s, a, rank, r');
    FreeIdIsUnlisted(r, s.entryId);
    LoadedListed(r, s, a, rank);
  }

  /** The names of a loaded script are declared with its ids; no declared name changes its id. */
  lemma LoadedNamesAreDeclared(r: Registry, s: Script, a: Analysis, rank: Rank, r': Registry)
    requires s !in r.scripts && Step(r, Load(s, Some(a), rank), Ok, r')
    ensures DeclaresNew(r.declared.databases, a.entry.databases, r'.declared.databases)
    ensures DeclaresNew(r.declared.schemas, a.entry.schemas, r'.declared.schemas)
    ensures forall d | d in a.entry.databases :: r'.declared.databases[d] == a.entry.databases[d]
    ensures forall n | n in a.entry.schemas :: r'.declared.schemas[n] == a.entry.schemas[n]
    ensures r'.pools == r.pools
    ensures r'.nextDatabase == r.nextDatabase && r'.nextSchema == r.nextSchema && r'.self == r.self
  {
    LoadedStep(r, s, a, rank, r');
    LoadedDeclares(r, s, a, rank);
    LoadedInSync(r, s, a, rank);
  }

  lemma PutThenRemoved<K, V>(m: map<K, V>, k: K, v: V)
    requires k !in m
    ensures m[k := v] - {k} == m
  {
  }

  lemma InsertedThenErased(m: map<SchemaKey, SchemaInfo>, schemas: map<SchemaName, SchemaIds>, rank: Rank, id: EntryId)
    requires forall k | k in m :: k.id != id
    ensures InfosOf(schemas, rank, id) + m - KeysOf(schemas.Keys, rank, id) == m
  {
  }

  lemma LoadThenDrop(r: Registry, s: Script, a: Analysis, rank: Rank)
    requires Unlisted(r, s.entryId) && a.entry.id == s.entryId && s !in r.scripts
    ensures var r1 := Loaded(r, s, a, rank);
      Dropped(r1, s) == r.(version := r.version + 2, declared := r1.declared)
  {
    PutThenRemoved(r.entries, s.entryId, ToScript(a.entry));
    PutThenRemoved(r.scripts, s, ScriptEntry(a, rank));
    InsertedThenErased(r.bySchema, a.entry.schemas, rank, s.entryId);
    assert r.ranked + {RankKey(rank, s.entryId)} - {RankKey(rank, s.entryId)} == r.ranked;
  }

  /** Dropping a script that was just loaded leaves the catalog as it was before, except that the names
      of the script stay declared. */
  lemma DropUndoesLoad(r: Registry, s: Script, a: Analysis, rank: Rank, r1: Registry, r2: Registry)
    requires Valid(r) && FromAnalyzer(s, a) && s !in r.scripts
    requires Step(r, Load(s, Some(a), rank), Ok, r1) && Step(r1, Drop(s), Ok, r2)
    ensures r2 == r.(version := r.version + 2, declared := r1.declared)
  {
    LoadedStep(r, s, a, rank, r1);
    FreeIdIsUnlisted(r, s.entryId);
    LoadThenDrop(r, s, a, rank);
  }

  // ----- an update -----

  /** What an update does to one map of declared names: a name that the script has not given up is
      declared as before, or new with the script's id. */
  ghost predicate DeclaresInstead<K(!new), V(!new)>(declared: map<K, V>, was: set<K>, own: map<K, V>,
                                                    declared': map<K, V>) {
    forall k | k !in was || k in own ::
      && (k in declared' <==> k in declared || (k in own && k !in was))
      && (k in declared' ==> declared'[k] == if k in declared then declared[k] else own[k])
  }

  lemma UpdatedElsewhere(r: Registry, s: Script, a: Analysis)
    requires s in r.scripts && s.entryId !in r.pools
    ensures SameBut(r, Updated(r, s, a), s.entryId) && SameScriptsBut(r.scripts, Updated(r, s, a).scripts, s)
  {
  }

  lemma OwnRank(r: Registry, s: Script)
    requires Valid(r) && s in r.scripts
    ensures forall k: RankKey | k.id == s.entryId :: k in r.ranked <==> k.rank == r.scripts[s].rank
    ensures s.entryId !in r.pools
  {
    assert s.entryId in ScriptIds(r.scripts);
    assert RankKey(r.scripts[s].rank, s.entryId) in ScriptRanks(r.scripts);
    forall k | k in r.ranked && k.id == s.entryId ensures k.rank == r.scripts[s].rank {
      RanksHaveEntries(r.scripts, r.pools, r.entries, r.ranked, k);
    }
  }

  lemma UnchangedIsListed(r: Registry, s: Script)
    requires Valid(r) && s in r.scripts
    ensures ListedUnder(r, s.entryId, r.scripts[s].rank, r.scripts[s].analysis.entry.schemas.Keys)
  {
    OwnRank(r, s);
    ScriptSplit(r.scripts, s);
    forall k | k in r.bySchema && k.id == s.entryId ensures k in KeysOfScript(s, r.scripts[s]) {
      KeysHaveEntries(r.scripts, r.pools, r.entries, r.bySchema.Keys, k);
    }
    forall k: SchemaKey | k.id == s.entryId && k.rank == r.scripts[s].rank
        && NameOf(k) in r.scripts[s].analysis.entry.schemas
      ensures k in r.bySchema
    {
      assert k == KeyOf(NameOf(k), k.rank, k.id);
    }
  }

  lemma NamesKeyed(names: set<SchemaName>, rank: Rank, id: EntryId, k: SchemaKey)
    ensures k in KeysOf(names, rank, id) <==> k.id == id && k.rank == rank && NameOf(k) in names
  {
    if k.id == id && k.rank == rank { assert k == KeyOf(NameOf(k), rank, id); }
  }

  lemma ReplacedListed(m: map<SchemaKey, SchemaInfo>, prev: Entry, e: Entry, rank: Rank, id: EntryId, k: SchemaKey)
    requires k.id == id && (k in m <==> k.rank == rank && NameOf(k) in prev.schemas)
    ensures k in ReplacedKeys(m, prev, e, rank, id) <==> k.rank == rank && NameOf(k) in e.schemas
  {
    NamesKeyed(e.schemas.Keys - prev.schemas.Keys, rank, id, k);
    NamesKeyed(prev.schemas.Keys - e.schemas.Keys, rank, id, k);
    assert (e.schemas - prev.schemas.Keys).Keys == e.schemas.Keys - prev.schemas.Keys;
  }

  lemma UpdatedListed(r: Registry, s: Script, a: Analysis)
    requires Valid(r) && s in r.scripts
    ensures ListedUnder(Updated(r, s, a), s.entryId, r.scripts[s].rank, a.entry.schemas.Keys)
  {
    UnchangedIsListed(r, s);
    forall k: SchemaKey | k.id == s.entryId
      ensures k in Updated(r, s, a).bySchema <==> k.rank == r.scripts[s].rank && NameOf(k) in a.entry.schemas
    {
      ReplacedListed(r.bySchema, r.scripts[s].analysis.entry, a.entry, r.scripts[s].rank, s.entryId, k);
    }
  }

  lemma UpdatedNames(r: Registry, s: Script, a: Analysis)
    requires s in r.scripts
    ensures var prev, r' := r.scripts[s].analysis.entry, Updated(r, s, a);
      && DeclaresInstead(r.declared.databases, prev.databases.Keys, a.entry.databases, r'.declared.databases)
      && DeclaresInstead(r.declared.schemas, prev.schemas.Keys, a.entry.schemas, r'.declared.schemas)
  {
  }

  lemma UpdatedInfos(r: Registry, s: Script, a: Analysis)
    requires s in r.scripts
    ensures var prev, r' := r.scripts[s].analysis.entry, Updated(r, s, a);
      forall n | n in a.entry.schemas :: var k := KeyOf(n, r.scripts[s].rank, s.entryId);
        if n !in prev.schemas && k !in r.bySchema then
          k in r'.bySchema && r'.bySchema[k] == SchemaInfo(s.entryId, a.entry.schemas[n])
        else k in r.bySchema ==> k in r'.bySchema && r'.bySchema[k] == r.bySchema[k]
  {
  }

  lemma UpdatedStep(r: Registry, s: Script, a: Analysis, rank: Rank, status: Status, r': Registry)
    requires s in r.scripts && s.catalog == r.self && Step(r, Load(s, Some(a), rank), status, r')
    ensures status == Ok && r' == if r.scripts[s].analysis == a then r else Updated(r, s, a)
  {
  }

  /** Loading a registered script again does nothing if its analysis is the same; else the script is
      listed with its old rank and the keys of its new schemas, and nothing else changed in the indexes. */
  lemma UpdatedScriptIsListed(r: Registry, s: Script, a: Analysis, rank: Rank, status: Status, r': Registry)
    requires Valid(r) && FromAnalyzer(s, a) && s in r.scripts && s.catalog == r.self
    requires Step(r, Load(s, Some(a), rank), status, r')
    ensures status == Ok && SameBut(r, r', s.entryId) && SameScriptsBut(r.scripts, r'.scripts, s)
    ensures if r.scripts[s].analysis == a then r' == r else r'.version == r.version + 1
    ensures s in r'.scripts && r'.scripts[s] == ScriptEntry(a, r.scripts[s].rank)
    ensures s.entryId in r'.entries && r'.entries[s.entryId] == ToScript(a.entry)
    ensures ListedUnder(r', s.entryId, r.scripts[s].rank, a.entry.schemas.Keys)
  {
    UpdatedStep(r, s, a, rank, status, r');
    OwnRank(r, s);
    if r.scripts[s].analysis == a {
      UnchangedIsListed(r, s);
    } else {
      UpdatedElsewhere(r, s, a);
      UpdatedListed(r, s, a);
    }
  }

  /** The schemas a script did not have before carry its ids in the index, the others keep theirs; and
      the names it did not give up are declared as before, or new with its ids. */
  lemma UpdatedNamesAreDeclared(r: Registry, s: Script, a: Analysis, rank: Rank, status: Status, r': Registry)
    requires s in r.scripts && s.catalog == r.self && r.scripts[s].analysis != a
    requires Step(r, Load(s, Some(a), rank), status, r')
    ensures var prev := r.scripts[s].analysis.entry;
      && DeclaresInstead(r.declared.databases, prev.databases.Keys, a.entry.databases, r'.declared.databases)
      && DeclaresInstead(r.declared.schemas, prev.schemas.Keys, a.entry.schemas, r'.declared.schemas)
      && forall n | n in a.entry.schemas :: var k := KeyOf(n, r.scripts[s].rank, s.entryId);
           if n !in prev.schemas && k !in r.bySchema then
             k in r'.bySchema && r'.bySchema[k] == SchemaInfo(s.entryId, a.entry.schemas[n])
           else k in r.bySchema ==> k in r'.bySchema && r'.bySchema[k] == r.bySchema[k]
    ensures r'.pools == r.pools
    ensures r'.nextDatabase == r.nextDatabase && r'.nextSchema == r.nextSchema && r'.self == r.self
  {
    UpdatedStep(r, s, a, rank, status, r');
    UpdatedNames(r, s, a);
    UpdatedInfos(r, s, a);
  }

  // ----- descriptors, ids, and clearing -----

  /** An add of descriptors changes one pool only, which keeps its rank and loses nothing. */
  lemma DescribedPoolGrew(r: Registry, id: EntryId, ds: seq<SchemaDescriptor>, status: Status, r': Registry)
    requires EntriesSound(r.scripts, r.pools) && Step(r, Describe(id, ds), status, r')
    ensures status == PoolUnknown <==> id !in r.pools
    ensures id !in r.pools ==> r' == r
    ensures r'.entries == r.entries && r'.ranked == r.ranked && r'.scripts == r.scripts
    ensures r'.declared == r.declared && r'.self == r.self && SameElsewhere(r.pools, r'.pools, id)
    ensures id in r.pools ==>
              id in r'.pools && r'.pools[id].rank == r.pools[id].rank && Grown(r.pools[id].entry, r'.pools[id].entry)
  {
    if id in r.pools {
      var g := Growing(r.pools[id].entry, r.nextDatabase, r.nextSchema, SchemaIds(0, 0));
      AddDescriptorsKeeps(g, r.declared, ds);
    }
  }

  /** An add of descriptors reaches the schema index and the version only if it completed; then every
      described schema has a key, and no key changed. */
  lemma DescribedKeys(r: Registry, id: EntryId, ds: seq<SchemaDescriptor>, status: Status, r': Registry)
    requires Step(r, Describe(id, ds), status, r')
    ensures status != Ok ==> r'.bySchema == r.bySchema && r'.version == r.version
    ensures status == Ok ==> r'.version == r.version + 1 && id in r.pools && forall k: SchemaKey ::
              && (k in r'.bySchema <==>
                    k in r.bySchema || (k.id == id && k.rank == r.pools[id].rank && NameOf(k) in DescribedNames(ds)))
              && (k in r.bySchema ==> r'.bySchema[k] == r.bySchema[k])
  {
    if status == Ok {
      KeysInserted(r.bySchema, DescribedNames(ds), r.pools[id].rank, id, PoolGrowth(r, id, ds).0.last);
    }
  }

  lemma KeysInserted(m: map<SchemaKey, SchemaInfo>, names: set<SchemaName>, rank: Rank, id: EntryId, last: SchemaIds)
    ensures forall k: SchemaKey ::
              && (k in PoolInfos(names, rank, id, last) + m <==>
                    k in m || (k.id == id && k.rank == rank && NameOf(k) in names))
              && (k in m ==> (PoolInfos(names, rank, id, last) + m)[k] == m[k])
  {
    forall k: SchemaKey | k.id == id && k.rank == rank && NameOf(k) in names ensures k in KeysOf(names, rank, id) {
      assert k == KeyOf(NameOf(k), rank, id);
    }
  }

  /** Clearing takes every entry out of every index, and keeps declared names and counters. */
  lemma ClearedIsEmpty(r: Registry, status: Status, r': Registry)
    requires Step(r, Clear, status, r')
    ensures status == Ok && r'.version == r.version + 1 && forall id :: Unlisted(r', id)
    ensures r'.scripts == map[] && r'.declared == r.declared && r'.self == r.self
    ensures r'.nextDatabase == r.nextDatabase && r'.nextSchema == r.nextSchema
  {
  }

  /** Every operation but clearing changes the indexes at one entry at most. */
  function OwnId(op: Op): EntryId
    requires !op.Clear?
  {
    match op
    case Load(s, _, _) => s.entryId
    case Drop(s) => s.entryId
    case AddPool(id, _) => id
    case DropPool(id) => id
    case Describe(id, _) => id
    case _ => 0
  }

  lemma LoadTouchesOneEntry(r: Registry, s: Script, latest: Option<Analysis>, rank: Rank, status: Status, r': Registry)
    requires Valid(r) && (latest.Some? ==> FromAnalyzer(s, latest.value))
    requires Step(r, Load(s, latest, rank), status, r')
    ensures SameBut(r, r', s.entryId)
  {
    if latest.Some? && s.catalog == r.self && s in r.scripts {
      UpdatedScriptIsListed(r, s, latest.value, rank, status, r');
    } else if status == Ok {
      LoadedScriptIsListed(r, s, latest.value, rank, r');
    }
  }

  lemma DescribeTouchesOneEntry(r: Registry, id: EntryId, ds: seq<SchemaDescriptor>, status: Status, r': Registry)
    requires EntriesSound(r.scripts, r.pools) && Step(r, Describe(id, ds), status, r')
    ensures SameBut(r, r', id)
  {
    DescribedPoolGrew(r, id, ds, status, r');
    DescribedKeys(r, id, ds, status, r');
  }

  lemma StepTouchesOneEntry(r: Registry, op: Op, status: Status, r': Registry)
    requires Valid(r) && Admissible(op) && Step(r, op, status, r') && !op.Clear?
    ensures SameBut(r, r', OwnId(op))
  {
    match op
    case Load(s, latest, rank) => LoadTouchesOneEntry(r, s, latest, rank, status, r');
    case Drop(s) => DroppedScriptIsGone(r, s, status, r');
    case AddPool(id, rank) => AddedPoolIsListed(r, id, rank, status, r');
    case DropPool(id) => DroppedPoolIsGone(r, id, status, r');
    case Describe(id, ds) => DescribeTouchesOneEntry(r, id, ds, status, r');
    case AllocateDatabase(_) =>
    case AllocateSchema(_) =>
  }

  // ----- what lookups see -----

  lemma SameEntryElsewhere(r: Registry, r': Registry, id: EntryId, q: EntryId)
    requires EntriesAgree(r.scripts, r.pools, r.entries) && SameBut(r, r', id) && q != id
    requires q in r.entries && (r.entries[q].ToPool? ==> r.entries[q].id in r.pools)
    requires q in r'.entries && (r'.entries[q].ToPool? ==> r'.entries[q].id in r'.pools)
    ensures EntryAt(r', q) == EntryAt(r, q)
  {
    assert q in ScriptIds(r.scripts) || q in r.pools;
  }

  /** An operation on one entry changes no lookup in any other. */
  lemma OthersFoundAlike(r: Registry, r': Registry, id: EntryId, name: TableName, ignored: Option<EntryId>, k: RankKey)
    requires EntriesAgree(r.scripts, r.pools, r.entries) && Registered(r) && Registered(r') && SameBut(r, r', id)
    requires k.id != id
    ensures k in Findable(r', name, ignored) <==> k in Findable(r, name, ignored)
    ensures k in Declaring(r', name, ignored) <==> k in Declaring(r, name, ignored)
  {
    if k in r.ranked {
      assert k.id in r.entries && k.id in r'.entries;
      SameEntryElsewhere(r, r', id, k.id);
    }
  }

  /** Without the entry, lookups find what they find with the entry ignored. */
  lemma GoneMeansIgnored(r: Registry, r': Registry, id: EntryId, name: TableName)
    requires EntriesAgree(r.scripts, r.pools, r.entries) && Registered(r) && Registered(r') && SameBut(r, r', id)
    requires Unlisted(r', id)
    ensures Findable(r', name, None) == Findable(r, name, Some(id))
    ensures Declaring(r', name, None) == Declaring(r, name, Some(id))
  {
    forall k: RankKey
      ensures k in Findable(r', name, None) <==> k in Findable(r, name, Some(id))
      ensures k in Declaring(r', name, None) <==> k in Declaring(r, name, Some(id))
    {
      if k.id != id { OthersFoundAlike(r, r', id, name, None, k); }
    }
  }

  lemma DroppedIsRegistered(r: Registry, op: Op, status: Status, r': Registry)
    requires Valid(r) && Admissible(op) && Step(r, op, status, r')
    ensures Valid(r') && Registered(r) && Registered(r')
  {
    StepKeepsValid(r, op, status, r');
    ValidIsRegistered(r);
    ValidIsRegistered(r');
  }

  /** After a pool was dropped, lookups find what they found before with the pool ignored. */
  lemma DroppedPoolIsIgnored(r: Registry, id: EntryId, status: Status, r': Registry, name: TableName)
    requires Valid(r) && id in r.pools && Step(r, DropPool(id), status, r')
    ensures Registered(r) && Registered(r')
    ensures Findable(r', name, None) == Findable(r, name, Some(id))
    ensures Declaring(r', name, None) == Declaring(r, name, Some(id))
  {
    DroppedIsRegistered(r, DropPool(id), status, r');
    DroppedPoolIsGone(r, id, status, r');
    GoneMeansIgnored(r, r', id, name);
  }

  /** After a script was dropped, lookups find what they found before with the script ignored. */
  lemma DroppedScriptIsIgnored(r: Registry, s: Script, status: Status, r': Registry, name: TableName)
    requires Valid(r) && s in r.scripts && Step(r, Drop(s), status, r')
    ensures Registered(r) && Registered(r')
    ensures Findable(r', name, None) == Findable(r, name, Some(s.entryId))
    ensures Declaring(r', name, None) == Declaring(r, name, Some(s.entryId))
  {
    DroppedIsRegistered(r, Drop(s), status, r');
    DroppedScriptIsGone(r, s, status, r');
    GoneMeansIgnored(r, r', s.entryId, name);
  }

  ghost function Own(e: Entry, rank: Rank, id: EntryId, name: TableName): set<RankKey> {
    if Declares(e, name) then {RankKey(rank, id)} else {}
  }

  /** With a listed script, lookups find it exactly if it declares the table, and else what they find
      with it ignored. */
  lemma ListedIsFound(r: Registry, r': Registry, id: EntryId, rank: Rank, e: Entry, name: TableName)
    requires EntriesAgree(r.scripts, r.pools, r.entries) && Registered(r) && Registered(r') && SameBut(r, r', id)
    requires id in r'.entries && r'.entries[id] == ToScript(e) && ListedUnder(r', id, rank, e.schemas.Keys)
    requires WellFormed(e) && Indexed(e)
    ensures Findable(r', name, None) == Findable(r, name, Some(id)) + Own(e, rank, id, name)
    ensures Declaring(r', name, None) == Declaring(r, name, Some(id)) + Own(e, rank, id, name)
  {
    forall k: RankKey
      ensures k in Findable(r', name, None) <==> k in Findable(r, name, Some(id)) + Own(e, rank, id, name)
      ensures k in Declaring(r', name, None) <==> k in Declaring(r, name, Some(id)) + Own(e, rank, id, name)
    {
      if k.id != id {
        OthersFoundAlike(r, r', id, name, None, k);
      } else {
        OwnEntryFound(r', id, rank, e, name, k);
      }
    }
  }

  lemma OwnEntryFound(r: Registry, id: EntryId, rank: Rank, e: Entry, name: TableName, k: RankKey)
    requires Registered(r) && id in r.entries && r.entries[id] == ToScript(e)
    requires ListedUnder(r, id, rank, e.schemas.Keys)
    requires WellFormed(e) && Indexed(e) && k.id == id
    ensures k in Findable(r, name, None) <==> k in Own(e, rank, id, name)
    ensures k in Declaring(r, name, None) <==> k in Own(e, rank, id, name)
  {
    OwnTablesFound(e, name);
    assert EntryAt(r, id) == e;
  }

  lemma OwnTablesFound(e: Entry, name: TableName)
    requires WellFormed(e) && Indexed(e)
    ensures Declares(e, name) <==> name.schemaName in e.schemas && name in e.tablesByName
  {
  }

  /** After a script was loaded or updated, lookups find it exactly if its new analysis declares the
      table, and every other entry as before. */
  lemma LoadedScriptIsFound(r: Registry, s: Script, a: Analysis, rank: Rank, r': Registry, name: TableName)
    requires Valid(r) && FromAnalyzer(s, a) && s.catalog == r.self && Step(r, Load(s, Some(a), rank), Ok, r')
    ensures Registered(r) && Registered(r')
    ensures var own := Own(a.entry, if s in r.scripts then r.scripts[s].rank else rank, s.entryId, name);
      && Findable(r', name, None) == Findable(r, name, Some(s.entryId)) + own
      && Declaring(r', name, None) == Declaring(r, name, Some(s.entryId)) + own
  {
    DroppedIsRegistered(r, Load(s, Some(a), rank), Ok, r');
    if s in r.scripts {
      UpdatedScriptIsListed(r, s, a, rank, Ok, r');
      ListedIsFound(r, r', s.entryId, r.scripts[s].rank, a.entry, name);
    } else {
      LoadedScriptIsListed(r, s, a, rank, r');
      ListedIsFound(r, r', s.entryId, rank, a.entry, name);
    }
  }

  // ----- versions and owners -----

  /** The version never goes back, and whoever sees the same version sees the same indexes. */
  lemma ChangesAdvanceVersion(r: Registry, op: Op, status: Status, r': Registry)
    requires Step(r, op, status, r')
    ensures r.version <= r'.version <= r.version + 1
    ensures r'.version == r.version ==>
              r'.entries == r.entries && r'.scripts == r.scripts && r'.ranked == r.ranked && r'.bySchema == r.bySchema
  {
  }

  /** Only scripts that were created for this catalog are registered with it. */
  ghost predicate OwnScripts(r: Registry) { forall s | s in r.scripts :: s.catalog == r.self }

  lemma {:induction false} ForeignScriptsStayOut(r: Registry, run: seq<Event>)
    requires OwnScripts(r) && IsRun(r, run)
    ensures forall i | 0 <= i < |run| :: OwnScripts(run[i].after) && run[i].after.self == r.self
    decreases |run|
  {
    if run != [] {
      StepKeepsOwn(r, run[0].op, run[0].status, run[0].after);
      ForeignScriptsStayOut(run[0].after, run[1..]);
      forall i | 0 <= i < |run| ensures OwnScripts(run[i].after) && run[i].after.self == r.self {
        assert i > 0 ==> run[i] == run[1..][i - 1];
      }
    }
  }

  lemma StepKeepsOwn(r: Registry, op: Op, status: Status, r': Registry)
    requires OwnScripts(r) && Step(r, op, status, r')
    ensures OwnScripts(r') && r'.self == r.self
  {
  }
}
