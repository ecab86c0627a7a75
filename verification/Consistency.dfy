/** When names and ids stay consistent: for every operation the exact condition under which equal
    names keep equal ids and different names different ids, and the runs on which a catalog can
    always be flattened. */
module Consistency {
  import opened Common
  import opened Order
  import opened DescriptorPool
  import opened CatalogState
  import opened Precedence
  import opened Outline

  // ----- one level of names, held by several entries -----

  type Held<!K> = map<EntryId, map<K, nat>>

  ghost predicate Agree<K(!new)>(held: Held<K>) {
    forall p, q | p in held && q in held :: Compatible(held[p], held[q])
  }

  /** What an entry holds is one-to-one and agrees with what every other entry holds. */
  ghost predicate FitsIn<K(!new)>(held: Held<K>, id: EntryId, own: map<K, nat>) {
    Compatible(own, own) && forall q | q in held && q != id :: Compatible(own, held[q])
  }

  lemma AgreeReplaced<K(!new)>(held: Held<K>, id: EntryId, own: map<K, nat>)
    requires Agree(held)
    ensures Agree(held[id := own]) <==> FitsIn(held, id, own)
  {
    var held' := held[id := own];
    if Agree(held') {
      assert held'[id] == own;
      forall q | q in held && q != id ensures Compatible(own, held[q]) { assert held'[q] == held[q]; }
    }
    if FitsIn(held, id, own) {
      forall p, q | p in held' && q in held' ensures Compatible(held'[p], held'[q]) {}
    }
  }

  // ----- ids below the counters -----

  ghost predicate AllBelow<K(!new)>(ids: map<K, nat>, next: nat) { forall k | k in ids :: ids[k] < next }

  ghost predicate HeldBelow<K(!new)>(held: Held<K>, next: nat) { forall p | p in held :: AllBelow(held[p], next) }

  // ----- a pool that takes new names -----

  /** New names take the declared id, or fresh ids between the counters. */
  ghost predicate Allotted<K(!new)>(before: map<K, nat>, declared: map<K, nat>, names: set<K>, after: map<K, nat>,
                                    next: nat, next': nat) {
    && after.Keys == before.Keys + names && next <= next'
    && (forall k | k in before :: after[k] == before[k])
    && (forall k | k in after && k !in before ::
          if k in declared then after[k] == declared[k] else next <= after[k] < next')
    && (forall k, l | k in after && l in after && k !in before && l !in before && k !in declared && l !in declared ::
          after[k] == after[l] ==> k == l)
  }

  lemma AllottedTwice<K(!new)>(a: map<K, nat>, declared: map<K, nat>, names: set<K>, b: map<K, nat>, more: set<K>,
                               c: map<K, nat>, next: nat, next1: nat, next2: nat)
    requires Allotted(a, declared, names, b, next, next1) && Allotted(b, declared, more, c, next1, next2)
    ensures Allotted(a, declared, names + more, c, next, next2)
  {
  }

  /** A caller's check for one level: every name the pool lacks is declared with an id that its holders,
      and no others, carry and that no other new name is declared with, or it is held by no entry. */
  ghost predicate NamesFit<K(!new)>(held: Held<K>, own: map<K, nat>, declared: map<K, nat>, names: set<K>) {
    forall k | k in names && k !in own ::
      if k in declared then
        && (forall q, l | q in held && l in held[q] :: l == k <==> held[q][l] == declared[k])
        && (forall l | l in names && l !in own && l in declared && declared[l] == declared[k] :: l == k)
      else
        forall q | q in held :: k !in held[q]
  }

  lemma FittingNamesAgree<K(!new)>(held: Held<K>, id: EntryId, declared: map<K, nat>, names: set<K>, after: map<K, nat>,
                                   next: nat, next': nat)
    requires Agree(held) && HeldBelow(held, next) && AllBelow(declared, next) && id in held
    requires Allotted(held[id], declared, names, after, next, next') && NamesFit(held, held[id], declared, names)
    ensures FitsIn(held, id, after)
  {
    var own := held[id];
    assert AllBelow(own, next) && Compatible(own, own);
    forall q | q in held ensures Compatible(after, held[q]) {
      assert AllBelow(held[q], next) && Compatible(own, held[q]);
    }
    forall k, l | k in after && l in after ensures k == l <==> after[k] == after[l] {
      if l in own { assert Compatible(after, own); assert after[l] == own[l]; }
      else if k in own { assert Compatible(after, own); assert after[k] == own[k]; }
    }
  }

  lemma AgreeingNamesFit<K(!new)>(held: Held<K>, id: EntryId, declared: map<K, nat>, names: set<K>, after: map<K, nat>,
                                  next: nat, next': nat)
    requires Agree(held) && HeldBelow(held, next) && AllBelow(declared, next) && id in held
    requires Allotted(held[id], declared, names, after, next, next') && FitsIn(held, id, after)
    ensures NamesFit(held, held[id], declared, names)
  {
    var own := held[id];
    forall q, k, l | q in held && k in names && k !in own && l in held[q] ensures k == l <==> after[k] == held[q][l] {
      if q == id { assert after[l] == own[l]; } else { assert Compatible(after, held[q]); }
    }
    forall q, k | q in held && k in names && k !in own && k !in declared ensures k !in held[q] {
      assert AllBelow(held[q], next);
    }
  }

  /** Both ways: after new names were allotted, what the pool holds fits exactly if the check passed. */
  lemma NamesFitExactly<K(!new)>(held: Held<K>, id: EntryId, declared: map<K, nat>, names: set<K>, after: map<K, nat>,
                                 next: nat, next': nat)
    requires Agree(held) && HeldBelow(held, next) && AllBelow(declared, next) && id in held
    requires Allotted(held[id], declared, names, after, next, next')
    ensures FitsIn(held, id, after) <==> NamesFit(held, held[id], declared, names)
  {
    if FitsIn(held, id, after) { AgreeingNamesFit(held, id, declared, names, after, next, next'); }
    if NamesFit(held, held[id], declared, names) { FittingNamesAgree(held, id, declared, names, after, next, next'); }
  }

  lemma AllottedBelow<K(!new)>(before: map<K, nat>, declared: map<K, nat>, names: set<K>, after: map<K, nat>,
                               next: nat, next': nat)
    requires AllBelow(before, next) && AllBelow(declared, next) && Allotted(before, declared, names, after, next, next')
    ensures AllBelow(after, next')
  {
  }

  // ----- which names an add registers -----

  function DatabasesNamed(ns: set<SchemaName>): set<Name> { set n | n in ns :: n.database }

  /** The schemas an add gets to: those up to the first one with a rejected table. */
  function Reached(byName: map<TableName, nat>, ds: seq<SchemaDescriptor>): set<SchemaName>
    requires forall d | d in ds :: d.tables.Some?
  {
    if ds == [] then {}
    else
      var names := QualifiedNames(ds[0].name, ds[0].tables.value);
      {ds[0].name} + if exists i | 0 <= i < |names| :: Rejects(byName, names[i]) then {} else Reached(byName, ds[1..])
  }

  ghost predicate DatabasesAllotted(g: Growing, declared: Declared, ns: set<SchemaName>, g': Growing) {
    Allotted(g.entry.databases, declared.databases, DatabasesNamed(ns), g'.entry.databases, g.nextDatabase,
        g'.nextDatabase)
  }

  ghost predicate SchemasAllotted(g: Growing, declared: Declared, ns: set<SchemaName>, g': Growing) {
    Allotted(SchemaRefs(g.entry.schemas), SchemaRefs(declared.schemas), ns, SchemaRefs(g'.entry.schemas),
             g.nextSchema, g'.nextSchema)
  }

  lemma RegisterAllots(g: Growing, declared: Declared, n: SchemaName)
    ensures DatabasesAllotted(g, declared, {n}, RegisterSchema(g, declared, n))
    ensures SchemasAllotted(g, declared, {n}, RegisterSchema(g, declared, n))
  {
    assert DatabasesNamed({n}) == {n.database};
  }

  lemma DatabasesAllottedTwice(g: Growing, declared: Declared, ns: set<SchemaName>, g1: Growing,
                               more: set<SchemaName>, g2: Growing)
    requires DatabasesAllotted(g, declared, ns, g1) && DatabasesAllotted(g1, declared, more, g2)
    ensures DatabasesAllotted(g, declared, ns + more, g2)
  {
    DatabasesOfBoth(ns, more);
    AllottedTwice(g.entry.databases, declared.databases, DatabasesNamed(ns), g1.entry.databases, DatabasesNamed(more),
                  g2.entry.databases, g.nextDatabase, g1.nextDatabase, g2.nextDatabase);
  }

  lemma DatabasesOfBoth(ns: set<SchemaName>, more: set<SchemaName>)
    ensures DatabasesNamed(ns + more) == DatabasesNamed(ns) + DatabasesNamed(more)
  {
  }

  lemma SchemasAllottedTwice(g: Growing, declared: Declared, ns: set<SchemaName>, g1: Growing,
                             more: set<SchemaName>, g2: Growing)
    requires SchemasAllotted(g, declared, ns, g1) && SchemasAllotted(g1, declared, more, g2)
    ensures SchemasAllotted(g, declared, ns + more, g2)
  {
    AllottedTwice(SchemaRefs(g.entry.schemas), SchemaRefs(declared.schemas), ns, SchemaRefs(g1.entry.schemas), more,
                  SchemaRefs(g2.entry.schemas), g.nextSchema, g1.nextSchema, g2.nextSchema);
  }

  lemma ReachedFirst(g: Growing, ds: seq<SchemaDescriptor>)
    requires ds != [] && forall d | d in ds :: d.tables.Some?
    ensures var d, byName := ds[0], g.entry.tablesByName;
      Reached(byName, ds)
      == {d.name} + if AddTables(g, d.name, d.tables.value).1 == Ok then Reached(byName, ds[1..]) else {}
  {
    var d := ds[0];
    var (g', status) := AddTables(g, d.name, d.tables.value);
    TablesAddedInOrder(g, d.name, d.tables.value);
    AddedIsAppended(g.entry, g'.entry, TablesOfSchema(d.name, d.tables.value), status);
    var names := QualifiedNames(d.name, d.tables.value);
    assert status == Ok <==> !exists i :: 0 <= i < |names| && Rejects(g.entry.tablesByName, names[i]);
  }

  /** An add gives ids to exactly the schemas it reaches, and to their databases. */
  lemma {:induction false} SchemasAllot(g: Growing, declared: Declared, ds: seq<SchemaDescriptor>)
    requires forall d | d in ds :: d.tables.Some?
    ensures DatabasesAllotted(g, declared, Reached(g.entry.tablesByName, ds), AddSchemas(g, declared, ds).0)
    ensures SchemasAllotted(g, declared, Reached(g.entry.tablesByName, ds), AddSchemas(g, declared, ds).0)
    decreases |ds|
  {
    if ds != [] {
      var d := ds[0];
      var g0 := RegisterSchema(g, declared, d.name);
      var (g1, status) := AddTables(g0, d.name, d.tables.value);
      RegisterAllots(g, declared, d.name);
      OnlyTablesChange(g0, d.name, d.tables.value);
      ReachedFirst(g0, ds);
      if status == Ok {
        SchemasAllot(g1, declared, ds[1..]);
        var rest, g2 := Reached(g1.entry.tablesByName, ds[1..]), AddSchemas(g1, declared, ds[1..]).0;
        DatabasesAllottedTwice(g, declared, {d.name}, g1, rest, g2);
        SchemasAllottedTwice(g, declared, {d.name}, g1, rest, g2);
      }
    }
  }

  // ----- the registry -----

  ghost function DatabasesHeld(m: map<EntryId, Entry>): Held<Name> { map id | id in m :: m[id].databases }

  ghost function SchemasHeld(m: map<EntryId, Entry>): Held<SchemaName> { map id | id in m :: SchemaRefs(m[id].schemas) }

  ghost predicate NamesAgree(m: map<EntryId, Entry>) { Agree(DatabasesHeld(m)) && Agree(SchemasHeld(m)) }

  lemma ConsistentMeansAgree(r: Registry)
    requires Registered(r)
    ensures Consistent(r) <==> NamesAgree(EntriesOf(r))
  {
    SameIdsMeansAgree(EntriesOf(r));
  }

  lemma SameIdsMeansAgree(m: map<EntryId, Entry>)
    ensures OneToOne(m) <==> NamesAgree(m)
  {
    var databases, schemas := DatabasesHeld(m), SchemasHeld(m);
    forall p, q | p in m && q in m
      ensures SameIds(m[p], m[q]) <==> Compatible(databases[p], databases[q]) && Compatible(schemas[p], schemas[q])
    {
    }
  }

  /** What the catalog still has to hand out is above everything held or declared. */
  ghost predicate Counted(m: map<EntryId, Entry>, declared: Declared, nextDatabase: nat, nextSchema: nat) {
    && HeldBelow(DatabasesHeld(m), nextDatabase) && AllBelow(declared.databases, nextDatabase)
    && HeldBelow(SchemasHeld(m), nextSchema) && AllBelow(SchemaRefs(declared.schemas), nextSchema)
  }

  ghost predicate CountersAbove(r: Registry)
    requires Registered(r)
  {
    Counted(EntriesOf(r), r.declared, r.nextDatabase, r.nextSchema)
  }

  // ----- one entry changes -----

  /** A caller's check before an entry is registered: its names and ids are one-to-one and agree with
      those of every other entry. */
  ghost predicate IdsFit(m: map<EntryId, Entry>, id: EntryId, e: Entry) {
    && FitsIn(DatabasesHeld(m), id, e.databases)
    && FitsIn(SchemasHeld(m), id, SchemaRefs(e.schemas))
  }

  lemma EntryReplaced(m: map<EntryId, Entry>, id: EntryId, e: Entry)
    requires NamesAgree(m)
    ensures NamesAgree(m[id := e]) <==> IdsFit(m, id, e)
  {
    assert DatabasesHeld(m[id := e]) == DatabasesHeld(m)[id := e.databases];
    assert SchemasHeld(m[id := e]) == SchemasHeld(m)[id := SchemaRefs(e.schemas)];
    AgreeReplaced(DatabasesHeld(m), id, e.databases);
    AgreeReplaced(SchemasHeld(m), id, SchemaRefs(e.schemas));
  }

  /** A caller's check before descriptors are added to a pool: a null table list turns the add down, or
      the names of the schemas it gets to, and of their databases, fit. */
  ghost predicate AddFits(m: map<EntryId, Entry>, own: Entry, declared: Declared, ds: seq<SchemaDescriptor>) {
    || (exists d | d in ds :: d.tables.None?)
    || (&& NamesFit(DatabasesHeld(m), own.databases, declared.databases, DatabasesNamed(Reached(own.tablesByName, ds)))
        && NamesFit(SchemasHeld(m), SchemaRefs(own.schemas), SchemaRefs(declared.schemas),
             Reached(own.tablesByName, ds)))
  }

  lemma NamesTaken(m: map<EntryId, Entry>, id: EntryId, g: Growing, declared: Declared, ns: set<SchemaName>,
                   g': Growing)
    requires NamesAgree(m) && Counted(m, declared, g.nextDatabase, g.nextSchema) && id in m && m[id] == g.entry
    requires DatabasesAllotted(g, declared, ns, g') && SchemasAllotted(g, declared, ns, g')
    ensures FitsIn(DatabasesHeld(m), id, g'.entry.databases)
       <==> NamesFit(DatabasesHeld(m), g.entry.databases, declared.databases, DatabasesNamed(ns))
    ensures FitsIn(SchemasHeld(m), id, SchemaRefs(g'.entry.schemas))
       <==> NamesFit(SchemasHeld(m), SchemaRefs(g.entry.schemas), SchemaRefs(declared.schemas), ns)
  {
    NamesFitExactly(DatabasesHeld(m), id, declared.databases, DatabasesNamed(ns), g'.entry.databases,
                    g.nextDatabase, g'.nextDatabase);
    NamesFitExactly(SchemasHeld(m), id, SchemaRefs(declared.schemas), ns, SchemaRefs(g'.entry.schemas),
                    g.nextSchema, g'.nextSchema);
  }

  lemma OwnNamesFit(m: map<EntryId, Entry>, id: EntryId)
    requires NamesAgree(m) && id in m
    ensures IdsFit(m, id, m[id])
  {
    assert DatabasesHeld(m)[id] == m[id].databases && SchemasHeld(m)[id] == SchemaRefs(m[id].schemas);
  }

  lemma ReachedNamesFit(m: map<EntryId, Entry>, id: EntryId, g: Growing, declared: Declared, ds: seq<SchemaDescriptor>)
    requires NamesAgree(m) && Counted(m, declared, g.nextDatabase, g.nextSchema) && id in m && m[id] == g.entry
    requires forall d | d in ds :: d.tables.Some?
    ensures IdsFit(m, id, AddSchemas(g, declared, ds).0.entry) <==> AddFits(m, g.entry, declared, ds)
  {
    SchemasAllot(g, declared, ds);
    NamesTaken(m, id, g, declared, Reached(g.entry.tablesByName, ds), AddSchemas(g, declared, ds).0);
  }

  /** After an add the pool's names and ids fit if and only if the caller's check said so. */
  lemma AddedNamesFit(m: map<EntryId, Entry>, id: EntryId, g: Growing, declared: Declared, ds: seq<SchemaDescriptor>)
    requires NamesAgree(m) && Counted(m, declared, g.nextDatabase, g.nextSchema) && id in m && m[id] == g.entry
    ensures IdsFit(m, id, AddDescriptors(g, declared, ds).0.entry) <==> AddFits(m, g.entry, declared, ds)
  {
    if exists d | d in ds :: d.tables.None? {
      OwnNamesFit(m, id);
    } else {
      ReachedNamesFit(m, id, g, declared, ds);
    }
  }

  lemma PoolTakes(m: map<EntryId, Entry>, id: EntryId, g: Growing, declared: Declared, ds: seq<SchemaDescriptor>)
    requires NamesAgree(m) && Counted(m, declared, g.nextDatabase, g.nextSchema) && id in m && m[id] == g.entry
    ensures NamesAgree(m[id := AddDescriptors(g, declared, ds).0.entry]) <==> AddFits(m, g.entry, declared, ds)
  {
    EntryReplaced(m, id, AddDescriptors(g, declared, ds).0.entry);
    AddedNamesFit(m, id, g, declared, ds);
  }

  lemma EmptyEntryFits(m: map<EntryId, Entry>, id: EntryId)
    requires NamesAgree(m)
    ensures NamesAgree(m[id := Entry(id, map[], map[], [], map[])])
  {
    EntryReplaced(m, id, Entry(id, map[], map[], [], map[]));
  }

  // ----- steps -----

  /** A load that registers an analysis. */
  predicate Registers(r: Registry, s: Script, latest: Option<Analysis>) {
    && latest.Some? && s.catalog == r.self
    && if s in r.scripts then r.scripts[s].analysis != latest.value
       else s.entryId !in r.entries && !OutOfSync(r.declared, latest.value.entry)
  }

  /** A caller's check before an operation: only loads and adds of descriptors can break the
      correspondence of names and ids. */
  ghost predicate KeepsIds(r: Registry, op: Op)
    requires Registered(r)
  {
    match op
    case Load(s, latest, _) => Registers(r, s, latest) ==> IdsFit(EntriesOf(r), s.entryId, latest.value.entry)
    case Describe(id, ds) => id in r.pools ==> AddFits(EntriesOf(r), r.pools[id].entry, r.declared, ds)
    case _ => true
  }

  /** The ids in what the analyzer hands over were given out by this catalog. */
  ghost predicate Issued(r: Registry, op: Op) {
    op.Load? && op.latest.Some? && op.script.catalog == r.self ==>
      && AllBelow(op.latest.value.entry.databases, r.nextDatabase)
      && AllBelow(SchemaRefs(op.latest.value.entry.schemas), r.nextSchema)
  }

  lemma SameEntries(r: Registry, r': Registry)
    requires Registered(r) && Registered(r') && r'.entries == r.entries && r'.pools == r.pools
    ensures EntriesOf(r') == EntriesOf(r)
  {
    assert forall id | id in r.entries :: EntryAt(r', id) == EntryAt(r, id);
  }

  lemma ScriptEntryPut(r: Registry, r': Registry, id: EntryId, e: Entry)
    requires Registered(r) && Registered(r') && r'.entries == r.entries[id := ToScript(e)] && r'.pools == r.pools
    ensures EntriesOf(r') == EntriesOf(r)[id := e]
  {
    assert EntryAt(r', id) == e;
    assert forall q | q in r.entries && q != id :: EntryAt(r', q) == EntryAt(r, q);
  }

  /** Every pool is reached through the entry of its own id. */
  ghost predicate OwnPointers(r: Registry) {
    forall q | q in r.entries && r.entries[q].ToPool? :: r.entries[q].id == q
  }

  lemma PointersAreOwn(r: Registry)
    requires EntriesAgree(r.scripts, r.pools, r.entries)
    ensures OwnPointers(r) && forall p | p in r.pools :: p in r.entries && r.entries[p] == ToPool(p)
  {
    forall q | q in r.entries && r.entries[q].ToPool? ensures r.entries[q].id == q {
      assert q in ScriptIds(r.scripts) || q in r.pools;
    }
  }

  lemma PoolEntryPut(r: Registry, r': Registry, id: EntryId, pool: Pool)
    requires Registered(r) && Registered(r') && OwnPointers(r)
    requires r'.entries == r.entries[id := ToPool(id)] && r'.pools == r.pools[id := pool]
    ensures EntriesOf(r') == EntriesOf(r)[id := pool.entry]
  {
    assert EntryAt(r', id) == pool.entry;
    assert forall q | q in r.entries && q != id :: EntryAt(r', q) == EntryAt(r, q);
  }

  lemma EntryGone(r: Registry, r': Registry, id: EntryId)
    requires Registered(r) && Registered(r') && OwnPointers(r)
    requires r'.entries == r.entries - {id} && r'.pools == r.pools - {id}
    ensures EntriesOf(r') == EntriesOf(r) - {id}
  {
    assert forall q | q in r.entries && q != id :: EntryAt(r', q) == EntryAt(r, q);
  }

  lemma LoadEntries(r: Registry, s: Script, latest: Option<Analysis>, rank: Rank, status: Status, r': Registry)
    requires Registered(r) && Registered(r') && LoadStep(r, s, latest, rank, status, r')
    requires latest.Some? ==> latest.value.entry.id == s.entryId
    ensures EntriesOf(r')
              == if Registers(r, s, latest) then EntriesOf(r)[s.entryId := latest.value.entry] else EntriesOf(r)
  {
    if Registers(r, s, latest) {
      ScriptEntryPut(r, r', s.entryId, latest.value.entry);
    } else {
      SameEntries(r, r');
    }
  }

  lemma DescribedEntries(r: Registry, id: EntryId, ds: seq<SchemaDescriptor>, r': Registry)
    requires Registered(r) && Registered(r') && EntriesAgree(r.scripts, r.pools, r.entries)
    requires id in r.pools && r' == Described(r, id, ds).0
    ensures id in EntriesOf(r) && EntriesOf(r)[id] == r.pools[id].entry
    ensures EntriesOf(r') == EntriesOf(r)[id := PoolGrowth(r, id, ds).0.entry]
  {
    PointersAreOwn(r);
    assert EntryAt(r, id) == r.pools[id].entry;
    assert r.entries == r.entries[id := ToPool(id)];
    PoolEntryPut(r, r', id, r'.pools[id]);
  }

  /** A load keeps names and ids in correspondence if and only if what it registers fits. */
  lemma LoadKeepsConsistent(r: Registry, s: Script, latest: Option<Analysis>, rank: Rank, status: Status, r': Registry)
    requires Registered(r) && Registered(r') && LoadStep(r, s, latest, rank, status, r')
    requires latest.Some? ==> latest.value.entry.id == s.entryId
    requires NamesAgree(EntriesOf(r))
    ensures NamesAgree(EntriesOf(r')) <==> KeepsIds(r, Load(s, latest, rank))
  {
    LoadEntries(r, s, latest, rank, status, r');
    if Registers(r, s, latest) { EntryReplaced(EntriesOf(r), s.entryId, latest.value.entry); }
  }

  lemma PoolTakesIn(r: Registry, id: EntryId, ds: seq<SchemaDescriptor>)
    requires Registered(r) && NamesAgree(EntriesOf(r)) && CountersAbove(r)
    requires id in r.pools && id in EntriesOf(r) && EntriesOf(r)[id] == r.pools[id].entry
    ensures NamesAgree(EntriesOf(r)[id := PoolGrowth(r, id, ds).0.entry])
       <==> AddFits(EntriesOf(r), r.pools[id].entry, r.declared, ds)
  {
    var g := Growing(r.pools[id].entry, r.nextDatabase, r.nextSchema, SchemaIds(0, 0));
    PoolTakes(EntriesOf(r), id, g, r.declared, ds);
  }

  /** An add of descriptors keeps names and ids in correspondence if and only if every name it brings
      into the pool fits. */
  lemma AddKeepsConsistent(r: Registry, id: EntryId, ds: seq<SchemaDescriptor>, r': Registry)
    requires Registered(r) && Registered(r') && EntriesAgree(r.scripts, r.pools, r.entries)
    requires r' == Described(r, id, ds).0 && NamesAgree(EntriesOf(r)) && CountersAbove(r)
    ensures NamesAgree(EntriesOf(r')) <==> (id in r.pools ==> AddFits(EntriesOf(r), r.pools[id].entry, r.declared, ds))
  {
    if id in r.pools {
      DescribedEntries(r, id, ds, r');
      PoolTakesIn(r, id, ds);
    } else {
      SameEntries(r, r');
    }
  }

  lemma EntryRemoved(m: map<EntryId, Entry>, id: EntryId)
    requires NamesAgree(m)
    ensures NamesAgree(m - {id})
  {
    assert DatabasesHeld(m - {id}) == DatabasesHeld(m) - {id};
    assert SchemasHeld(m - {id}) == SchemasHeld(m) - {id};
  }

  lemma DroppedEntries(r: Registry, s: Script, r': Registry)
    requires Registered(r) && Registered(r') && EntriesAgree(r.scripts, r.pools, r.entries)
    requires s in r.scripts && r' == Dropped(r, s)
    ensures EntriesOf(r') == EntriesOf(r) - {s.entryId}
  {
    PointersAreOwn(r);
    assert s.entryId !in r.pools;
    assert r.pools - {s.entryId} == r.pools;
    EntryGone(r, r', s.entryId);
  }

  lemma DropKeepsConsistent(r: Registry, s: Script, r': Registry)
    requires Registered(r) && Registered(r') && EntriesAgree(r.scripts, r.pools, r.entries)
    requires r' == Dropped(r, s) && NamesAgree(EntriesOf(r))
    ensures NamesAgree(EntriesOf(r'))
  {
    if s in r.scripts {
      DroppedEntries(r, s, r');
      EntryRemoved(EntriesOf(r), s.entryId);
    }
  }

  lemma PoolDropKeepsConsistent(r: Registry, id: EntryId, r': Registry)
    requires Registered(r) && Registered(r') && EntriesAgree(r.scripts, r.pools, r.entries)
    requires r' == PoolDropped(r, id) && NamesAgree(EntriesOf(r))
    ensures NamesAgree(EntriesOf(r'))
  {
    if id in r.pools {
      PointersAreOwn(r);
      EntryGone(r, r', id);
      EntryRemoved(EntriesOf(r), id);
    }
  }

  lemma NewPoolKeepsConsistent(r: Registry, id: EntryId, rank: Rank, r': Registry)
    requires Registered(r) && Registered(r') && EntriesAgree(r.scripts, r.pools, r.entries)
    requires r' == (if id in r.entries then r else PoolAdded(r, id, rank)) && NamesAgree(EntriesOf(r))
    ensures NamesAgree(EntriesOf(r'))
  {
    if id !in r.entries {
      PointersAreOwn(r);
      PoolEntryPut(r, r', id, r'.pools[id]);
      EmptyEntryFits(EntriesOf(r), id);
    }
  }

  lemma ClearedEntries(r: Registry)
    requires Registered(Cleared(r))
    ensures EntriesOf(Cleared(r)) == map[]
  {
  }

  lemma NoNamesAgree(declared: Declared, nextDatabase: nat, nextSchema: nat)
    ensures NamesAgree(map[])
    ensures AllBelow(declared.databases, nextDatabase) && AllBelow(SchemaRefs(declared.schemas), nextSchema) ==>
              Counted(map[], declared, nextDatabase, nextSchema)
  {
  }

  lemma SmallerStepKeepsConsistent(r: Registry, op: Op, status: Status, r': Registry)
    requires Registered(r) && Registered(r') && EntriesAgree(r.scripts, r.pools, r.entries)
    requires Step(r, op, status, r') && NamesAgree(EntriesOf(r)) && !op.Load? && !op.Describe?
    ensures NamesAgree(EntriesOf(r'))
  {
    match op
    case Drop(s) => DropKeepsConsistent(r, s, r');
    case AddPool(id, rank) => NewPoolKeepsConsistent(r, id, rank, r');
    case DropPool(id) => PoolDropKeepsConsistent(r, id, r');
    case AllocateDatabase(_) => SameEntries(r, r');
    case AllocateSchema(_) => SameEntries(r, r');
    case Clear =>
      ClearedEntries(r);
      NoNamesAgree(r.declared, r.nextDatabase, r.nextSchema);
  }

  /** Names and ids stay in correspondence in a step if and only if the caller's check passed. */
  lemma StepKeepsConsistent(r: Registry, op: Op, status: Status, r': Registry)
    requires Registered(r) && Registered(r') && EntriesAgree(r.scripts, r.pools, r.entries)
    requires Admissible(op) && Step(r, op, status, r') && NamesAgree(EntriesOf(r)) && CountersAbove(r)
    ensures NamesAgree(EntriesOf(r')) <==> KeepsIds(r, op)
  {
    match op
    case Load(s, latest, rank) => LoadKeepsConsistent(r, s, latest, rank, status, r');
    case Describe(id, ds) => AddKeepsConsistent(r, id, ds, r');
    case _ => SmallerStepKeepsConsistent(r, op, status, r');
  }

  // ----- ids in the schema index -----

  lemma {:induction false} LastIsCurrent(g: Growing, declared: Declared, ds: seq<SchemaDescriptor>)
    requires WellFormed(g.entry) && ds != [] && forall d | d in ds :: d.tables.Some?
    requires AddSchemas(g, declared, ds).1 == Ok
    ensures Current(AddSchemas(g, declared, ds).0, ds[|ds| - 1].name)
    decreases |ds|
  {
    var g0 := RegisterSchema(g, declared, ds[0].name);
    RegisterKeeps(g, declared, ds[0].name);
    AddTablesKeeps(g0, ds[0].name, ds[0].tables.value);
    if |ds| > 1 { LastIsCurrent(AddTables(g0, ds[0].name, ds[0].tables.value).0, declared, ds[1..]); }
  }

  lemma KeyInserted(bySchema: map<SchemaKey, SchemaInfo>, names: set<SchemaName>, rank: Rank, id: EntryId,
                    last: SchemaIds, n: SchemaName)
    requires n in names && KeyOf(n, rank, id) !in bySchema
    ensures var bySchema' := PoolInfos(names, rank, id, last) + bySchema;
      KeyOf(n, rank, id) in bySchema' && bySchema'[KeyOf(n, rank, id)].ids == last
  {
  }

  lemma LastIdsAreIndexed(r: Registry, id: EntryId, ds: seq<SchemaDescriptor>, n: SchemaName)
    requires EntriesSound(r.scripts, r.pools) && id in r.pools && Described(r, id, ds).1 == Ok
    requires n in DescribedNames(ds) && KeyOf(n, r.pools[id].rank, id) !in r.bySchema
    ensures var r' := Described(r, id, ds).0; var k := KeyOf(n, r.pools[id].rank, id);
      && n in r'.pools[id].entry.schemas && ds[|ds| - 1].name in r'.pools[id].entry.schemas
      && k in r'.bySchema && r'.bySchema[k].ids == r'.pools[id].entry.schemas[ds[|ds| - 1].name]
  {
    var g := Growing(r.pools[id].entry, r.nextDatabase, r.nextSchema, SchemaIds(0, 0));
    AddDescriptorsKeeps(g, r.declared, ds);
    LastIsCurrent(g, r.declared, ds);
    KeyInserted(r.bySchema, DescribedNames(ds), r.pools[id].rank, id, PoolGrowth(r, id, ds).0.last, n);
  }

  /** A schema that a complete add brings into the index gets its own ids there exactly if it is the
      schema described last (as long as different schemas of the pool have different ids). */
  lemma IndexedIdsAreOwn(r: Registry, id: EntryId, ds: seq<SchemaDescriptor>, n: SchemaName)
    requires EntriesSound(r.scripts, r.pools) && id in r.pools && Described(r, id, ds).1 == Ok
    requires n in DescribedNames(ds) && KeyOf(n, r.pools[id].rank, id) !in r.bySchema
    requires var own := SchemaRefs(Described(r, id, ds).0.pools[id].entry.schemas); Compatible(own, own)
    ensures var r' := Described(r, id, ds).0; var k := KeyOf(n, r.pools[id].rank, id);
      && n in r'.pools[id].entry.schemas && k in r'.bySchema
      && (r'.bySchema[k].ids == r'.pools[id].entry.schemas[n] <==> n == ds[|ds| - 1].name)
  {
    LastIdsAreIndexed(r, id, ds, n);
    var schemas := Described(r, id, ds).0.pools[id].entry.schemas;
    assert SchemaRefs(schemas)[n] == schemas[n].schema;
  }

  // ----- the counters stay above -----

  lemma CountedWith(m: map<EntryId, Entry>, declared: Declared, nextDatabase: nat, nextSchema: nat, id: EntryId,
                    e: Entry)
    requires Counted(m, declared, nextDatabase, nextSchema)
    requires AllBelow(e.databases, nextDatabase) && AllBelow(SchemaRefs(e.schemas), nextSchema)
    ensures Counted(m[id := e], declared, nextDatabase, nextSchema)
  {
    assert DatabasesHeld(m[id := e]) == DatabasesHeld(m)[id := e.databases];
    assert SchemasHeld(m[id := e]) == SchemasHeld(m)[id := SchemaRefs(e.schemas)];
  }

  lemma CountedWithout(m: map<EntryId, Entry>, declared: Declared, nextDatabase: nat, nextSchema: nat, id: EntryId)
    requires Counted(m, declared, nextDatabase, nextSchema)
    ensures Counted(m - {id}, declared, nextDatabase, nextSchema)
  {
    assert DatabasesHeld(m - {id}) == DatabasesHeld(m) - {id};
    assert SchemasHeld(m - {id}) == SchemasHeld(m) - {id};
  }

  lemma CountedLater(m: map<EntryId, Entry>, declared: Declared, nextDatabase: nat, nextSchema: nat,
                     nextDatabase': nat, nextSchema': nat)
    requires Counted(m, declared, nextDatabase, nextSchema) && nextDatabase <= nextDatabase'
    requires nextSchema <= nextSchema'
    ensures Counted(m, declared, nextDatabase', nextSchema')
  {
    forall p | p in m ensures AllBelow(DatabasesHeld(m)[p], nextDatabase') && AllBelow(SchemasHeld(m)[p], nextSchema') {
      assert AllBelow(DatabasesHeld(m)[p], nextDatabase) && AllBelow(SchemasHeld(m)[p], nextSchema);
    }
  }

  /** Declared names that come from what is declared already or from an issued entry. */
  ghost predicate DeclaredFrom(d: Declared, e: Entry, d': Declared) {
    && (forall n | n in d'.databases ::
          || (n in d.databases && d'.databases[n] == d.databases[n])
          || (n in e.databases && d'.databases[n] == e.databases[n]))
    && (forall n | n in d'.schemas ::
          || (n in d.schemas && d'.schemas[n] == d.schemas[n])
          || (n in e.schemas && d'.schemas[n] == e.schemas[n]))
  }

  lemma LoadDeclares(r: Registry, s: Script, latest: Option<Analysis>, rank: Rank, status: Status, r': Registry)
    requires LoadStep(r, s, latest, rank, status, r') && latest.Some? && s.catalog == r.self
    ensures DeclaredFrom(r.declared, latest.value.entry, r'.declared)
  {
  }

  lemma DeclaredStayBelow(m: map<EntryId, Entry>, d: Declared, nextDatabase: nat, nextSchema: nat, e: Entry,
                          d': Declared)
    requires Counted(m, d, nextDatabase, nextSchema) && DeclaredFrom(d, e, d')
    requires AllBelow(e.databases, nextDatabase) && AllBelow(SchemaRefs(e.schemas), nextSchema)
    ensures Counted(m, d', nextDatabase, nextSchema)
  {
    forall n | n in d'.schemas ensures SchemaRefs(d'.schemas)[n] < nextSchema {
      assert n in d.schemas ==> SchemaRefs(d.schemas)[n] < nextSchema;
      assert n in e.schemas ==> SchemaRefs(e.schemas)[n] < nextSchema;
    }
  }

  lemma LoadKeepsCounters(r: Registry, s: Script, latest: Option<Analysis>, rank: Rank, status: Status, r': Registry)
    requires Registered(r) && Registered(r') && LoadStep(r, s, latest, rank, status, r')
    requires latest.Some? ==> latest.value.entry.id == s.entryId
    requires CountersAbove(r) && Issued(r, Load(s, latest, rank))
    ensures CountersAbove(r')
  {
    LoadEntries(r, s, latest, rank, status, r');
    if latest.Some? && s.catalog == r.self {
      var e, m := latest.value.entry, EntriesOf(r);
      LoadDeclares(r, s, latest, rank, status, r');
      CountedWith(m, r.declared, r.nextDatabase, r.nextSchema, s.entryId, e);
      DeclaredStayBelow(m, r.declared, r.nextDatabase, r.nextSchema, e, r'.declared);
      DeclaredStayBelow(m[s.entryId := e], r.declared, r.nextDatabase, r.nextSchema, e, r'.declared);
    }
  }

  lemma AddAllots(g: Growing, declared: Declared, ds: seq<SchemaDescriptor>)
    requires AllBelow(g.entry.databases, g.nextDatabase) && AllBelow(SchemaRefs(g.entry.schemas), g.nextSchema)
    requires AllBelow(declared.databases, g.nextDatabase) && AllBelow(SchemaRefs(declared.schemas), g.nextSchema)
    ensures var g' := AddDescriptors(g, declared, ds).0;
      && g.nextDatabase <= g'.nextDatabase && g.nextSchema <= g'.nextSchema
      && AllBelow(g'.entry.databases, g'.nextDatabase) && AllBelow(SchemaRefs(g'.entry.schemas), g'.nextSchema)
  {
    if forall d | d in ds :: d.tables.Some? {
      SchemasAllot(g, declared, ds);
      var ns, g' := Reached(g.entry.tablesByName, ds), AddSchemas(g, declared, ds).0;
      AllottedBelow(g.entry.databases, declared.databases, DatabasesNamed(ns), g'.entry.databases, g.nextDatabase,
          g'.nextDatabase);
      AllottedBelow(SchemaRefs(g.entry.schemas), SchemaRefs(declared.schemas), ns, SchemaRefs(g'.entry.schemas),
                    g.nextSchema, g'.nextSchema);
    }
  }

  lemma AddKeepsCounters(r: Registry, id: EntryId, ds: seq<SchemaDescriptor>, r': Registry)
    requires Registered(r) && Registered(r') && EntriesAgree(r.scripts, r.pools, r.entries)
    requires r' == Described(r, id, ds).0 && CountersAbove(r)
    ensures CountersAbove(r')
  {
    if id in r.pools {
      DescribedEntries(r, id, ds, r');
      var m, g := EntriesOf(r), Growing(r.pools[id].entry, r.nextDatabase, r.nextSchema, SchemaIds(0, 0));
      assert AllBelow(DatabasesHeld(m)[id], r.nextDatabase) && AllBelow(SchemasHeld(m)[id], r.nextSchema);
      AddAllots(g, r.declared, ds);
      CountedLater(m, r.declared, r.nextDatabase, r.nextSchema, r'.nextDatabase, r'.nextSchema);
      CountedWith(m, r.declared, r'.nextDatabase, r'.nextSchema, id, PoolGrowth(r, id, ds).0.entry);
    } else {
      SameEntries(r, r');
    }
  }

  lemma RemovalKeepsCounters(r: Registry, r': Registry, id: EntryId)
    requires Registered(r) && Registered(r') && OwnPointers(r) && CountersAbove(r)
    requires r'.entries == r.entries - {id} && r'.pools == r.pools - {id}
    requires r'.declared == r.declared && r'.nextDatabase == r.nextDatabase && r'.nextSchema == r.nextSchema
    ensures CountersAbove(r')
  {
    EntryGone(r, r', id);
    CountedWithout(EntriesOf(r), r.declared, r.nextDatabase, r.nextSchema, id);
  }

  lemma NewPoolKeepsCounters(r: Registry, id: EntryId, rank: Rank, r': Registry)
    requires Registered(r) && Registered(r') && OwnPointers(r) && CountersAbove(r)
    requires r' == PoolAdded(r, id, rank)
    ensures CountersAbove(r')
  {
    PoolEntryPut(r, r', id, r'.pools[id]);
    CountedWith(EntriesOf(r), r.declared, r.nextDatabase, r.nextSchema, id, r'.pools[id].entry);
  }

  lemma AllocationKeepsCounters(r: Registry, r': Registry)
    requires Registered(r) && Registered(r') && CountersAbove(r)
    requires r'.entries == r.entries && r'.pools == r.pools && r'.declared == r.declared
    requires r.nextDatabase <= r'.nextDatabase && r.nextSchema <= r'.nextSchema
    ensures CountersAbove(r')
  {
    SameEntries(r, r');
    CountedLater(EntriesOf(r), r.declared, r.nextDatabase, r.nextSchema, r'.nextDatabase, r'.nextSchema);
  }

  lemma DropKeepsCounters(r: Registry, s: Script, r': Registry)
    requires Registered(r) && Registered(r') && EntriesAgree(r.scripts, r.pools, r.entries)
    requires r' == Dropped(r, s) && CountersAbove(r)
    ensures CountersAbove(r')
  {
    if s in r.scripts {
      DroppedEntries(r, s, r');
      CountedWithout(EntriesOf(r), r.declared, r.nextDatabase, r.nextSchema, s.entryId);
    }
  }

  lemma SmallerStepKeepsCounters(r: Registry, op: Op, status: Status, r': Registry)
    requires Registered(r) && Registered(r') && EntriesAgree(r.scripts, r.pools, r.entries)
    requires Step(r, op, status, r') && CountersAbove(r) && !op.Load? && !op.Describe?
    ensures CountersAbove(r')
  {
    PointersAreOwn(r);
    match op
    case Drop(s) => DropKeepsCounters(r, s, r');
    case AddPool(id, rank) => if id !in r.entries { NewPoolKeepsCounters(r, id, rank, r'); }
    case DropPool(id) => if id in r.pools { RemovalKeepsCounters(r, r', id); }
    case AllocateDatabase(_) => AllocationKeepsCounters(r, r');
    case AllocateSchema(_) => AllocationKeepsCounters(r, r');
    case Clear =>
      ClearedEntries(r);
      NoNamesAgree(r.declared, r.nextDatabase, r.nextSchema);
  }

  lemma StepKeepsCounters(r: Registry, op: Op, status: Status, r': Registry)
    requires Registered(r) && Registered(r') && EntriesAgree(r.scripts, r.pools, r.entries)
    requires Admissible(op) && Step(r, op, status, r') && CountersAbove(r) && Issued(r, op)
    ensures CountersAbove(r')
  {
    match op
    case Load(s, latest, rank) => LoadKeepsCounters(r, s, latest, rank, status, r');
    case Describe(id, ds) => AddKeepsCounters(r, id, ds, r');
    case _ => SmallerStepKeepsCounters(r, op, status, r');
  }

  // ----- every run -----

  /** The catalog can be flattened. */
  ghost predicate Flattenable(r: Registry) { Readable(r) && Consistent(r) }

  ghost predicate FlattenableThroughout(run: seq<Event>) {
    forall i | 0 <= i < |run| :: Flattenable(run[i].after)
  }

  lemma FlattenableFromStart(run: seq<Event>)
    requires run != []
    ensures FlattenableThroughout(run) <==> Flattenable(run[0].after) && FlattenableThroughout(run[1..])
  {
    assert forall i | 0 < i < |run| :: run[i] == run[1..][i - 1];
    assert forall i | 0 <= i < |run[1..]| :: run[1..][i] == run[i + 1];
  }

  ghost predicate RunIssued(r: Registry, run: seq<Event>)
    decreases |run|
  {
    run != [] ==> Issued(r, run[0].op) && RunIssued(run[0].after, run[1..])
  }

  /** Every operation of the run passes the caller's check. */
  ghost predicate RunKeepsIds(r: Registry, run: seq<Event>)
    requires Registered(r)
    decreases |run|
  {
    run != [] ==> KeepsIds(r, run[0].op) && Registered(run[0].after) && RunKeepsIds(run[0].after, run[1..])
  }

  lemma FirstStepConsistent(r: Registry, op: Op, status: Status, r': Registry)
    requires Valid(r) && Flattenable(r) && CountersAbove(r) && Admissible(op) && Step(r, op, status, r')
    requires Issued(r, op)
    ensures Valid(r') && Readable(r') && CountersAbove(r') && (Consistent(r') <==> KeepsIds(r, op))
  {
    StepKeepsValid(r, op, status, r');
    ValidIsReadable(r');
    ConsistentMeansAgree(r);
    ConsistentMeansAgree(r');
    StepKeepsConsistent(r, op, status, r');
    StepKeepsCounters(r, op, status, r');
  }

  /** On a run of a catalog that can be flattened it can be flattened after every operation, if and only
      if every operation passes the caller's check. */
  lemma {:induction false} StaysFlattenable(r: Registry, run: seq<Event>)
    requires Valid(r) && Flattenable(r) && CountersAbove(r) && IsRun(r, run) && RunIssued(r, run)
    ensures FlattenableThroughout(run) <==> RunKeepsIds(r, run)
    decreases |run|
  {
    if run != [] {
      var next := run[0].after;
      FirstStepConsistent(r, run[0].op, run[0].status, next);
      FlattenableFromStart(run);
      if Consistent(next) {
        StaysFlattenable(next, run[1..]);
      }
    }
  }

  lemma EmptyIsFlattenable(self: nat)
    ensures Valid(Empty(self)) && Flattenable(Empty(self)) && CountersAbove(Empty(self))
  {
    EmptyIsValid(self);
    ValidIsReadable(Empty(self));
  }
}
