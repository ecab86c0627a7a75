/** When lookups are complete: the adds of descriptors that keep every table of a pool indexed, and
    the runs on which every lookup finds all declaring entries. */
module Completeness {
  import opened Common
  import opened DescriptorPool
  import opened CatalogState
  import opened Precedence

  /** A caller's check before an add: it is turned down because of a null table list, or every table
      has a nonempty name that is not indexed yet, or already the first table is rejected. */
  ghost predicate AddLeavesNoGap(byName: map<TableName, nat>, ds: seq<SchemaDescriptor>) {
    || (exists d | d in ds :: d.tables.None?)
    || (forall i | 0 <= i < |AllNames(ds)| :: !Rejects(byName, AllNames(ds)[i]))
    || Rejects(byName, AllNames(ds)[0])
  }

  lemma AddOutcome(g: Growing, declared: Declared, ds: seq<SchemaDescriptor>)
    requires Indexed(g.entry)
    ensures var (g', status) := AddDescriptors(g, declared, ds);
      && (status != Ok && AddLeavesNoGap(g.entry.tablesByName, ds) ==>
            g'.entry.tables == g.entry.tables && g'.entry.tablesByName == g.entry.tablesByName)
      && (!AddLeavesNoGap(g.entry.tablesByName, ds) ==> status != Ok && !Indexed(g'.entry))
  {
    if forall d | d in ds :: d.tables.Some? {
      SchemasAppended(g, declared, ds);
    }
  }

  lemma CompleteAddKeepsSearchable(r: Registry, id: EntryId, ds: seq<SchemaDescriptor>)
    requires EntriesSound(r.scripts, r.pools) && InfosAgree(r.bySchema) && Searchable(r.pools, r.bySchema.Keys)
    requires id in r.pools && Described(r, id, ds).1 == Ok
    ensures Searchable(Described(r, id, ds).0.pools, Described(r, id, ds).0.bySchema.Keys)
  {
    var pool := r.pools[id];
    var g := Growing(pool.entry, r.nextDatabase, r.nextSchema, SchemaIds(0, 0));
    AddDescriptorsKeeps(g, r.declared, ds);
    var g' := AddDescriptors(g, r.declared, ds).0;
    PoolInfosInserted(r.bySchema, DescribedNames(ds), pool.rank, id, g'.last);
    GrownPoolIsSearchable(r.pools, r.bySchema.Keys, id, pool.(entry := g'.entry), DescribedNames(ds));
  }

  lemma SameTablesKeepSearchable(pools: map<EntryId, Pool>, keys: set<SchemaKey>, p: EntryId, pool: Pool)
    requires Searchable(pools, keys) && p in pools && pool.rank == pools[p].rank
    requires pool.entry.tables == pools[p].entry.tables && pool.entry.tablesByName == pools[p].entry.tablesByName
    ensures Searchable(pools[p := pool], keys)
  {
  }

  /** An add of descriptors keeps every table indexed if and only if it leaves no gap. */
  lemma AddKeepsSearchable(r: Registry, id: EntryId, ds: seq<SchemaDescriptor>)
    requires EntriesSound(r.scripts, r.pools) && InfosAgree(r.bySchema) && Searchable(r.pools, r.bySchema.Keys)
    requires id in r.pools
    ensures Searchable(Described(r, id, ds).0.pools, Described(r, id, ds).0.bySchema.Keys)
       <==> AddLeavesNoGap(r.pools[id].entry.tablesByName, ds)
  {
    var (r', status) := Described(r, id, ds);
    AddOutcome(Growing(r.pools[id].entry, r.nextDatabase, r.nextSchema, SchemaIds(0, 0)), r.declared, ds);
    if status == Ok {
      CompleteAddKeepsSearchable(r, id, ds);
    } else if AddLeavesNoGap(r.pools[id].entry.tablesByName, ds) {
      SameTablesKeepSearchable(r.pools, r.bySchema.Keys, id, r'.pools[id]);
    } else {
      assert id in r'.pools && !Indexed(r'.pools[id].entry);
    }
  }

  lemma GrownPoolIsSearchable(pools: map<EntryId, Pool>, keys: set<SchemaKey>, p: EntryId, pool: Pool,
                              names: set<SchemaName>)
    requires Searchable(pools, keys) && p in pools && pool.rank == pools[p].rank
    requires Grown(pools[p].entry, pool.entry) && NewTablesIn(pools[p].entry, pool.entry, names) && Indexed(pool.entry)
    ensures Searchable(pools[p := pool], keys + KeysOf(names, pool.rank, p))
  {
    var all := keys + KeysOf(names, pool.rank, p);
    forall i | 0 <= i < |pool.entry.tables| ensures KeyOf(pool.entry.tables[i].name.schemaName, pool.rank, p) in all {
      if i < |pools[p].entry.tables| { assert pool.entry.tables[i] == pools[p].entry.tables[i]; }
    }
  }

  /** Keys that leave the index never belong to a pool that stays. */
  lemma PoolLeaves(pools: map<EntryId, Pool>, keys: set<SchemaKey>, names: set<SchemaName>, rank: Rank, id: EntryId)
    requires Searchable(pools, keys)
    ensures Searchable(pools - {id}, keys - KeysOf(names, rank, id))
  {
  }

  lemma ScriptLeaves(scripts: map<Script, ScriptEntry>, pools: map<EntryId, Pool>, entries: map<EntryId, EntryPointer>,
                     keys: set<SchemaKey>, s: Script, names: set<SchemaName>)
    requires EntriesAgree(scripts, pools, entries) && s in scripts && Searchable(pools, keys)
    ensures Searchable(pools, keys - KeysOf(names, scripts[s].rank, s.entryId))
  {
    PoolLeaves(pools, keys, names, scripts[s].rank, s.entryId);
    assert s.entryId !in pools;
    assert pools - {s.entryId} == pools;
  }

  lemma MoreKeysKeepSearchable(pools: map<EntryId, Pool>, keys: set<SchemaKey>, more: set<SchemaKey>)
    requires Searchable(pools, keys) && keys <= more
    ensures Searchable(pools, more)
  {
  }

  lemma EmptyPoolIsSearchable(pools: map<EntryId, Pool>, keys: set<SchemaKey>, id: EntryId, rank: Rank)
    requires Searchable(pools, keys)
    ensures Searchable(pools[id := Pool(rank, Entry(id, map[], map[], [], map[]))], keys)
  {
  }

  lemma DropKeepsSearchable(r: Registry, s: Script)
    requires EntriesAgree(r.scripts, r.pools, r.entries) && Searchable(r.pools, r.bySchema.Keys)
    ensures Searchable(Dropped(r, s).pools, Dropped(r, s).bySchema.Keys)
  {
    if s in r.scripts {
      var names := r.scripts[s].analysis.entry.schemas.Keys;
      ScriptLeaves(r.scripts, r.pools, r.entries, r.bySchema.Keys, s, names);
      assert Dropped(r, s).bySchema.Keys == r.bySchema.Keys - KeysOf(names, r.scripts[s].rank, s.entryId);
    }
  }

  lemma PoolDropKeepsSearchable(r: Registry, id: EntryId)
    requires Searchable(r.pools, r.bySchema.Keys)
    ensures Searchable(PoolDropped(r, id).pools, PoolDropped(r, id).bySchema.Keys)
  {
    if id in r.pools {
      var names := r.pools[id].entry.schemas.Keys;
      PoolLeaves(r.pools, r.bySchema.Keys, names, r.pools[id].rank, id);
      assert PoolDropped(r, id).bySchema.Keys == r.bySchema.Keys - KeysOf(names, r.pools[id].rank, id);
    }
  }

  lemma UpdateKeepsSearchable(r: Registry, s: Script, a: Analysis)
    requires EntriesAgree(r.scripts, r.pools, r.entries) && Searchable(r.pools, r.bySchema.Keys) && s in r.scripts
    ensures Searchable(Updated(r, s, a).pools, Updated(r, s, a).bySchema.Keys)
  {
    var names := r.scripts[s].analysis.entry.schemas.Keys - a.entry.schemas.Keys;
    var kept := r.bySchema.Keys - KeysOf(names, r.scripts[s].rank, s.entryId);
    ScriptLeaves(r.scripts, r.pools, r.entries, r.bySchema.Keys, s, names);
    MoreKeysKeepSearchable(r.pools, kept, Updated(r, s, a).bySchema.Keys);
  }

  lemma LoadKeepsSearchable(r: Registry, s: Script, latest: Option<Analysis>, rank: Rank, status: Status, r': Registry)
    requires EntriesAgree(r.scripts, r.pools, r.entries) && LoadStep(r, s, latest, rank, status, r')
    requires Searchable(r.pools, r.bySchema.Keys)
    ensures Searchable(r'.pools, r'.bySchema.Keys)
  {
    if r'.bySchema != r.bySchema {
      if s in r.scripts {
        UpdateKeepsSearchable(r, s, latest.value);
      } else {
        MoreKeysKeepSearchable(r.pools, r.bySchema.Keys, r'.bySchema.Keys);
      }
    }
  }

  /** Only an add of descriptors can leave a gap. */
  ghost predicate LeavesNoGap(r: Registry, op: Op) {
    op.Describe? && op.poolId in r.pools ==> AddLeavesNoGap(r.pools[op.poolId].entry.tablesByName, op.descriptors)
  }

  lemma StepKeepsSearchable(r: Registry, op: Op, status: Status, r': Registry)
    requires EntriesAgree(r.scripts, r.pools, r.entries) && EntriesSound(r.scripts, r.pools) && InfosAgree(r.bySchema)
    requires Step(r, op, status, r')
    requires Searchable(r.pools, r.bySchema.Keys)
    ensures Searchable(r'.pools, r'.bySchema.Keys) <==> LeavesNoGap(r, op)
  {
    match op
    case Load(s, latest, rank) => LoadKeepsSearchable(r, s, latest, rank, status, r');
    case Drop(s) => DropKeepsSearchable(r, s);
    case AddPool(id, rank) => EmptyPoolIsSearchable(r.pools, r.bySchema.Keys, id, rank);
    case DropPool(id) => PoolDropKeepsSearchable(r, id);
    case Describe(id, ds) => if id in r.pools { AddKeepsSearchable(r, id, ds); }
    case AllocateDatabase(_) =>
    case AllocateSchema(_) =>
    case Clear =>
  }

  /** Every lookup finds all entries that declare the table. */
  ghost predicate LookupsComplete(r: Registry) {
    Registered(r) && forall name, ignored :: Findable(r, name, ignored) == Declaring(r, name, ignored)
  }

  ghost predicate CompleteThroughout(run: seq<Event>) {
    forall i | 0 <= i < |run| :: LookupsComplete(run[i].after)
  }

  lemma CompleteFromStart(run: seq<Event>)
    requires run != []
    ensures CompleteThroughout(run) <==> LookupsComplete(run[0].after) && CompleteThroughout(run[1..])
  {
    assert forall i | 0 < i < |run| :: run[i] == run[1..][i - 1];
    assert forall i | 0 <= i < |run[1..]| :: run[1..][i] == run[i + 1];
  }

  /** No add of the run leaves a gap. */
  ghost predicate RunLeavesNoGap(r: Registry, run: seq<Event>)
    decreases |run|
  {
    run != [] ==> LeavesNoGap(r, run[0].op) && RunLeavesNoGap(run[0].after, run[1..])
  }

  /** On a run from a registry with complete lookups, lookups stay complete in every state if and only
      if no add leaves a gap. */
  lemma {:induction false} LookupsStayComplete(r: Registry, run: seq<Event>)
    requires Valid(r) && LookupsComplete(r) && IsRun(r, run)
    ensures CompleteThroughout(run) <==> RunLeavesNoGap(r, run)
    decreases |run|
  {
    if run != [] {
      var next := run[0].after;
      FirstStepComplete(r, run[0].op, run[0].status, next);
      CompleteFromStart(run);
      if LookupsComplete(next) {
        LookupsStayComplete(next, run[1..]);
      }
    }
  }

  lemma FirstStepComplete(r: Registry, op: Op, status: Status, r': Registry)
    requires Valid(r) && LookupsComplete(r) && Admissible(op) && Step(r, op, status, r')
    ensures Valid(r') && (LookupsComplete(r') <==> LeavesNoGap(r, op))
  {
    StepKeepsValid(r, op, status, r');
    ValidIsRegistered(r');
    FindsAllIffSearchable(r);
    StepKeepsSearchable(r, op, status, r');
    FindsAllIffSearchable(r');
  }

  // ----- a table that a lookup misses -----

  const Public := SchemaName("db", "public")
  const HalfGood := [SchemaDescriptor(Public, Some([TableDescriptor("t", []), TableDescriptor("", [])]))]
  const Missed := TableName(Public, "t")

  lemma HalfGoodAdded(g: Growing)
    requires g.entry == Entry(1, map[], map[], [], map[])
    ensures var (g', status) := AddDescriptors(g, Declared(map[], map[]), HalfGood);
      && status != Ok && g'.entry.tablesByName == map[] && Declares(g'.entry, Missed)
  {
    SchemasAppended(g, Declared(map[], map[]), HalfGood);
    var names := AllNames(HalfGood);
    assert names[0] == Missed && names[1] == TableName(Public, "");
    var (g', status) := AddSchemas(g, Declared(map[], map[]), HalfGood);
    assert g'.entry.tables[0].name == Missed;
  }

  lemma MissedByLookup(r: Registry, p: EntryId, name: TableName)
    requires Registered(r) && p in r.pools && p in r.entries && r.entries[p] == ToPool(p)
    requires r.ranked == {RankKey(r.pools[p].rank, p)}
    requires Declares(r.pools[p].entry, name) && name !in r.pools[p].entry.tablesByName
    ensures Declaring(r, name, None) == {RankKey(r.pools[p].rank, p)} && Findable(r, name, None) == {}
  {
    assert EntryAt(r, p) == r.pools[p].entry;
  }

  lemma HalfAdded(r: Registry, id: EntryId, ds: seq<SchemaDescriptor>)
    requires id in r.pools && Described(r, id, ds).1 != Ok
    ensures var (r', status) := Described(r, id, ds);
      && r'.entries == r.entries && r'.ranked == r.ranked
      && r'.pools == r.pools[id := r.pools[id].(entry := PoolGrowth(r, id, ds).0.entry)]
  {
  }

  lemma HalfAddedState(r1: Registry, r2: Registry)
    requires r1 == PoolAdded(Empty(0), 1, 0) && r2 == Described(r1, 1, HalfGood).0
    ensures Described(r1, 1, HalfGood).1 != Ok
    ensures 1 in r2.pools && r2.entries == map[1 := ToPool(1)] && r2.ranked == {RankKey(0, 1)} && r2.pools[1].rank == 0
    ensures Declares(r2.pools[1].entry, Missed) && Missed !in r2.pools[1].entry.tablesByName
  {
    HalfGoodAdded(Growing(r1.pools[1].entry, 256, 65536, SchemaIds(0, 0)));
    HalfAdded(r1, 1, HalfGood);
  }

  lemma HalfAddedIsRun(r1: Registry, r2: Registry, status: Status, run: seq<Event>)
    requires r1 == PoolAdded(Empty(0), 1, 0) && (r2, status) == Described(r1, 1, HalfGood)
    requires run == [Event(AddPool(1, 0), Ok, r1), Event(Describe(1, HalfGood), status, r2)]
    ensures IsRun(Empty(0), run) && Registered(r2)
  {
    LongerRun(r1, run[1], []);
    LongerRun(Empty(0), run[0], [run[1]]);
    EmptyIsValid(0);
    RunsAreValid(Empty(0), run);
    assert run[1].after == r2;
    ValidIsRegistered(r2);
  }

  /** A run after which a lookup misses a table: an unnamed table stops the add, and the table before
      it is declared by the pool but in no index. */
  lemma HalfAddedTableIsMissed(r1: Registry, r2: Registry, status: Status, run: seq<Event>)
    requires r1 == PoolAdded(Empty(0), 1, 0) && (r2, status) == Described(r1, 1, HalfGood)
    requires run == [Event(AddPool(1, 0), Ok, r1), Event(Describe(1, HalfGood), status, r2)]
    ensures IsRun(Empty(0), run) && Registered(r2)
    ensures Declaring(r2, Missed, None) == {RankKey(0, 1)}
    ensures IsWinner(r2, Findable(r2, Missed, None), Missed, None)
  {
    HalfAddedState(r1, r2);
    HalfAddedIsRun(r1, r2, status, run);
    MissedByLookup(r2, 1, Missed);
  }
}
