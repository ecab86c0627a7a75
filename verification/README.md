# DashQL: verified models

DashQL analyses SQL scripts, keeps a catalog of the schemas they and their connections declare, runs
queries over gRPC and HTTP streams, and computes table summaries in a worker. This project models
the stateful and arithmetic cores of these parts in Dafny and proves what they are relied on for.

`dafny verify dfyconfig.toml` checks everything.

| part | files |
|---|---|
| SQL catalog | `DescriptorPool`, `CatalogState`, `Catalog` (the object), `Effects` |
| table lookup, names and ids | `Precedence`, `Completeness`, `Consistency` |
| flattened catalog | `Layout`, `Outline`, `FlatNodes`, `Flatten`, `FlatView` |
| catalog export, import and lookups | `Export`, `RoundTrip`, `Lookup` |
| gRPC and HTTP streams | `Streams`, `StreamHistory` |
| compute worker | `IpcStream`, `ComputeProtocol`, `ComputeRuns`, `FrameLife` |
| binning, ranking, precomputation | `Binning`, `BinnedCounts`, `Ranking`, `Precompute`, `Pipeline` |
| cursor search | `SymbolSearch`, `SyntaxTree` |
| query life cycle | `QueryLife`, `QueryHistory` |
| shared notions | `Common`, `Order` |

How the parts are modelled:

* The catalog, the worker, its bindings, the IPC iterator and the connection state are classes whose
  methods update fields in place. Every method is proved equal to an operation on plain values
  (`CatalogState.Updated`, `ComputeProtocol.Handled`, `QueryLife.Reduced`, ...), and the invariants
  and theorems over runs are proved about those operations. What the analyzer hands to the catalog
  is an abstract entry: its databases are those of its schemas, its tables belong to its schemas,
  table ids are (entry, position), and the name index keeps the first declaration of a name.
* What these operations mean is then told from outside, by the states before and after or by the
  history of a run: `Effects` for the catalog, `FlatView` for the arrays of a flattened one,
  `StreamHistory` for what a server sent and what readers got, `FrameLife` for data frames from
  ingest to deletion, `QueryHistory` for what a query holds.
* The ordered trees of the catalog are finite sets and maps with an explicit order. Going through
  a tree in order is `Order.Listing`; a `lower_bound` probe is `Precedence.IsLowerBound`.
* Streams and the worker protocol are state machines. Timeouts, the scheduling of tasks, the results
  of calls into the compute module and the behaviour of the server are arbitrary choices of an
  action. The loops of the producer, of a reader and of a scan are methods over these choices.
* A flattened catalog is described level by level: `Layout` says what it means for an array of rows
  to describe one level of a tree, `Outline` is the tree a registry stands for.
* Sorting operators may order equal keys in any way: only "sorted" and "a permutation" are used.

Where the code does not do what one would expect, the model follows the code, and the exact
condition under which the expected property holds is proved. Lemmas that show a concrete input or
run on which it fails are named with it:

* Lookups find every entry that declares a table on all states of a run, if and only if no add of
  descriptors leaves a gap: it has a null table list, or all its table names are nonempty and not
  indexed yet, or already its first table is rejected (`Completeness.AddKeepsSearchable`,
  `Completeness.LookupsStayComplete`; `Completeness.HalfAddedTableIsMissed` is a run that misses a
  table). As long as they do, lookups return what flattening keeps (`Outline.LookupFindsKept`,
  `FlatView.FlatAgreesWithLookup`).
* Names and ids correspond one to one across all entries on all states of a run, so that the catalog
  can be flattened after every operation, if and only if every load registers ids that agree with
  the other entries and every add gives its pool only names that are declared with the id that their
  holders carry or that no entry holds (`Consistency.StepKeepsConsistent`,
  `Consistency.StaysFlattenable`; `Outline.PoolsCanDisagree` is a run with two ids for one name).
* A schema that a complete add brings into the schema index has its own ids there if and only if it
  is the schema described last (`Consistency.IndexedIdsAreOwn`).
* An import succeeds if and only if no table has an empty name (`RoundTrip.RoundTrip`,
  `RoundTrip.UnnamedTableIsNotImported`).
* A range lookup is exact if and only if the query names a prefix of the key
  (`Lookup.TableRangeIsMatch`, `Lookup.ColumnRangeIsMatch`).
* The previous symbol is the symbol before, if and only if the symbol is not the first of its chunk
  or the previous chunk holds one symbol (`SymbolSearch.PreviousIsBefore`,
  `SymbolSearch.WrongPrevious`).
* Reading a table resolves if and only if its frame is registered when the worker handles the
  request and that read gets to the end (`ComputeRuns.ReadTableResolves`,
  `ComputeRuns.MissingFrameIsNeverRead`). Exactly pings are rejected as unexpected
  (`ComputeRuns.SettledForGood`, `ComputeRuns.PingIsRejected`).
* The duration stored for a query is the time since it started if and only if it succeeded, or was
  ended at twice its start time (`QueryLife.StoredDuration`).
* With whole numbers, a value escapes the bounds of its bin if and only if it is at or above the
  upper bound of the last bin, and there are such values if and only if the range of the column is
  at least the number of bins (`Binning.WholeOverhang`, `Binning.MaximumEscapes`,
  `Binning.NineEscapes`).

## Model

| member | source | states |
|---|---|---|
| DescriptorPool.AddSchemaDescriptor | packages/dashql-core/src/catalog.cc:258-427 | the loops over descriptors, tables and columns, with their early exits, carry out the pool update that the lemmas below pin down |
| DescriptorPool.AddAppendsTables | packages/dashql-core/src/catalog.cc:258-427 | a null table list is turned down before anything changes; otherwise the described tables are appended in order, with their names and columns, up to the first one without a name or with an indexed name, whose error is reported |
| DescriptorPool.ColumnsAreOrdered | packages/dashql-core/src/catalog.cc:370-394 | the columns of an appended table are the names, in order, of a permutation of the described columns that have a name, non-descending in the ordinal |
| DescriptorPool.AddDescriptorsKeeps | packages/dashql-core/src/catalog.cc:258-427 | every add, also one that stops half way, leaves a well-formed pool that renamed, re-identified and lost nothing; a complete add covers exactly the described schemas and indexes every table |
| DescriptorPool.SchemasAppended | packages/dashql-core/src/catalog.cc:345-368 | in terms of names: an add completes exactly if every table name is nonempty and not indexed yet, and appends something exactly if there is a first table and it is not rejected |
| DescriptorPool.FirstIsIndexed | packages/dashql-core/src/catalog.cc:416-425 | the name index covers every table, keeps what was indexed, and maps a new name to its first declaration |
| CatalogObject.Catalog.constructor | packages/dashql-core/src/catalog.cc:438-440 | a new catalog is empty and valid |
| CatalogObject.Catalog.Clear | packages/dashql-core/src/catalog.cc:442-449 | drops every entry from every index, keeps declared names and id counters, and advances the version |
| CatalogObject.Catalog.AllocateDatabaseId | packages/dashql-core/include/dashql/catalog.h:458-466 | a declared database has its id and leaves the counter, any other name gets the next one and advances it |
| CatalogObject.Catalog.AllocateSchemaId | packages/dashql-core/include/dashql/catalog.h:467-475 | a declared schema has its id and leaves the counter, any other name gets the next one and advances it |
| CatalogObject.Catalog.LoadScript | packages/dashql-core/src/catalog.cc:742-833 | the outcome and the new state for a missing analysis, a foreign catalog, a reload, an id collision, ids out of sync (where only declared names may have been added), and a load |
| CatalogObject.DeclareNames | packages/dashql-core/src/catalog.cc:775-811 | declaring stops at the first name known under another id; it succeeds exactly when there is none, and never changes the id of a declared name |
| CatalogObject.Catalog.UpdateScript | packages/dashql-core/src/catalog.cc:835-963 | an unchanged analysis changes nothing; otherwise the patched indexes are those of the updated registry |
| CatalogObject.ReplaceNames | packages/dashql-core/src/catalog.cc:847-955 | the marking, erasing and inserting loops leave exactly the keys of the new schemas and erase a given-up name exactly when no key of the final index carries it |
| CatalogObject.LowerBound | packages/dashql-core/src/catalog.cc:906-912 | the least key that is not below the probe, if there is one |
| CatalogObject.Catalog.DropScript | packages/dashql-core/src/catalog.cc:965-981 | removes exactly the script's entries from every index; an unknown script changes nothing |
| CatalogObject.Catalog.AddDescriptorPool | packages/dashql-core/src/catalog.cc:983-993 | adds an empty pool under a free id; a taken id changes nothing |
| CatalogObject.Catalog.DropDescriptorPool | packages/dashql-core/src/catalog.cc:995-1009 | the object's fields become those of the registry without the pool, which `Effects.DroppedPoolIsGone` describes |
| CatalogObject.Catalog.AddSchemaDescriptors | packages/dashql-core/src/catalog.cc:1011-1086 | the pool grows in place; the schema index and the version change only if the whole add succeeded |
| CatalogObject.InsertDescribed | packages/dashql-core/src/catalog.cc:1064-1083 | the loop inserts a key for every described schema that has none yet, all with the ids registered last, and keeps the others |
| CatalogObject.Catalog.FlattenCatalog | packages/dashql-core/src/catalog.cc:481-740 | the flattened arrays of the object's current state, at its version, and the three indexes sorted by id |
| CatalogObject.Catalog.ResolveTable | packages/dashql-core/src/catalog.cc:1095-1115 | the result is the first declaration in the findable entry of least rank and id among those not ignored, and none exactly if there is no such entry |
| CatalogState.StepKeepsValid | packages/dashql-core/src/catalog.cc:742-1086 | every operation, successful or not, keeps the agreement of the five indexes: entries are the disjoint union of scripts and pools, one rank pair per entry, schema keys exact for scripts and sound for pools, names of scripts declared |
| CatalogState.RunsAreValid | packages/dashql-core/src/catalog.cc:742-1086 | the agreement holds in every state of every run |
| CatalogState.FailureLeavesIndexes | packages/dashql-core/src/catalog.cc:742-1086 | an operation that fails leaves entries, ranks, schema index, scripts, pool ids and version as they were |
| CatalogState.UpdateIsDropThenLoad | packages/dashql-core/src/catalog.cc:835-963 | the incremental update leaves entries, ranks, scripts and schema keys equal to dropping the script and loading its new analysis at the same rank |
| CatalogState.GivenUpNames | packages/dashql-core/src/catalog.cc:896-955 | a given-up schema or database stays declared exactly when a remaining key carries its name |
| CatalogState.UpdateKeepsNames | packages/dashql-core/src/catalog.cc:835-963 | after an update the names of every registered script are still declared |
| Effects.AddedPoolIsListed | packages/dashql-core/src/catalog.cc:983-993 | after adding a pool under a free id, the pool is empty and listed with the rank asked for and no schema key; every other entry, pool, rank pair and key is as before |
| Effects.DroppedPoolIsGone | packages/dashql-core/src/catalog.cc:995-1009 | after dropping a pool no entry, pool, rank pair or schema key carries its id, every other one is as before, and the version advances; an unknown id changes nothing |
| Effects.DroppedPoolIsIgnored | packages/dashql-core/src/catalog.cc:995-1009 | after dropping a pool, lookups of every table see what they saw before with the pool ignored |
| Effects.DropUndoesAddPool | packages/dashql-core/src/catalog.cc:983-1009 | dropping a pool that was just added restores everything but the version |
| Effects.LoadOutcome | packages/dashql-core/src/catalog.cc:742-811 | which error a load reports, from the state before: no analysis, a foreign catalog, a taken id, a name declared with another id; a registered script is always accepted |
| Effects.LoadedScriptIsListed | packages/dashql-core/src/catalog.cc:812-833 | a loaded script is listed with its rank, its analysis and exactly the keys and ids of its schemas; nothing else changes in the indexes |
| Effects.LoadedNamesAreDeclared | packages/dashql-core/src/catalog.cc:775-811 | after a load exactly the names of the script are newly declared, all of them with its ids, and no declared name changes |
| Effects.DroppedScriptIsGone | packages/dashql-core/src/catalog.cc:965-981 | after dropping a script no index carries its id, every other entry is as before, and declared names stay |
| Effects.DroppedScriptIsIgnored | packages/dashql-core/src/catalog.cc:965-981 | after dropping a script, lookups of every table see what they saw before with the script ignored |
| Effects.DropUndoesLoad | packages/dashql-core/src/catalog.cc:742-981 | dropping a script that was just loaded restores everything but the version and the declared names |
| Effects.UpdatedScriptIsListed | packages/dashql-core/src/catalog.cc:835-963 | after an update the script is listed with its old rank, its new analysis and exactly the keys of its new schemas; nothing else changes in the indexes; an equal analysis changes nothing |
| Effects.UpdatedNamesAreDeclared | packages/dashql-core/src/catalog.cc:853-955 | names a script did not give up are declared as before, or new with its ids; the keys of its new schemas carry their ids, the others keep theirs |
| Effects.LoadedScriptIsFound | packages/dashql-core/src/catalog.cc:742-963 | after a load or an update, lookups find the script exactly if its new analysis declares the table, and of the others what they found with it ignored |
| Effects.DescribedPoolGrew | packages/dashql-core/src/catalog.cc:1011-1086 | an add of descriptors fails for an unknown pool, and changes one pool only, which keeps its rank and loses nothing |
| Effects.DescribedKeys | packages/dashql-core/src/catalog.cc:1027-1083 | only a complete add reaches the schema index and the version: then exactly the keys of the described schemas are added, and no key changes |
| Effects.ClearedIsEmpty | packages/dashql-core/src/catalog.cc:442-449 | after clearing no index carries any id; declared names and counters stay |
| Effects.StepTouchesOneEntry | packages/dashql-core/src/catalog.cc:742-1086 | every operation but clearing leaves all entries but its own as they are, in every index |
| Effects.ChangesAdvanceVersion | packages/dashql-core/src/catalog.cc:742-1086 | the version never goes back, and stays only if entries, scripts, ranks and schema index stay |
| Effects.ForeignScriptsStayOut | packages/dashql-core/src/catalog.cc:742-748 | on every run only scripts created for this catalog get registered |
| Precedence.SchemaProbeIsExact | packages/dashql-core/src/catalog.cc:904-912 | the probe at (database, schema, 0, 0) meets a key of that schema exactly when one exists |
| Precedence.DatabaseProbeIsExact | packages/dashql-core/src/catalog.cc:948-955 | the probe at (database, "", 0, 0) meets a key of that database exactly when one exists |
| Precedence.FirstHitWins | packages/dashql-core/src/catalog.cc:1095-1115 | the first hit of the walk over the schema's keys has the least rank and id of all hits |
| Precedence.FindableIsDeclaring | packages/dashql-core/src/catalog.cc:1095-1115 | if every table of every pool is indexed, the entries a lookup searches are exactly those that declare the table |
| Precedence.FindsAllIffSearchable | packages/dashql-core/src/catalog.cc:1095-1115 | lookups find all declaring entries of every table exactly if every table of every pool is in the name index and the schema index: the invariant behind the conditions on adds below |
| Completeness.AddKeepsSearchable | packages/dashql-core/src/catalog.cc:1011-1086 | an add of descriptors keeps every table indexed if and only if a table list is null, or every table name is nonempty and not indexed yet, or already the first table is rejected |
| Completeness.StepKeepsSearchable | packages/dashql-core/src/catalog.cc:742-1086 | of all operations only an add that leaves a gap ends the completeness of lookups, and every such add does |
| Completeness.LookupsStayComplete | packages/dashql-core/src/catalog.cc:742-1115 | on a run, lookups find all declaring entries in every state if and only if no add leaves a gap |
| Completeness.HalfAddedTableIsMissed | packages/dashql-core/src/catalog.cc:351-368 | a run after which a table is declared by a pool and found by no lookup |
| Consistency.NamesFitExactly | packages/dashql-core/include/dashql/catalog.h:458-475 | the names a pool takes in, with declared or fresh ids, agree with all entries if and only if each is declared with the id its holders, and no others, carry, or is held by no entry |
| Consistency.SchemasAllot | packages/dashql-core/src/catalog.cc:318-343 | an add gives ids to exactly the schemas it gets to, and to their databases: the declared id or a fresh one, and never a new id to a name the pool has |
| Consistency.LoadKeepsConsistent | packages/dashql-core/src/catalog.cc:742-963 | a load or an update keeps names and ids in correspondence if and only if the ids it registers agree with every other entry |
| Consistency.AddKeepsConsistent | packages/dashql-core/src/catalog.cc:1011-1086 | an add of descriptors keeps names and ids in correspondence if and only if a table list is null or every name it brings into the pool fits |
| Consistency.StepKeepsConsistent | packages/dashql-core/src/catalog.cc:742-1086 | every other operation keeps the correspondence of names and ids; loads and adds keep it exactly under these conditions |
| Consistency.StepKeepsCounters | packages/dashql-core/include/dashql/catalog.h:458-475 | the ids still to be handed out stay above all ids held or declared |
| Consistency.StaysFlattenable | packages/dashql-core/src/catalog.cc:481-740 | on a run of a catalog that can be flattened it can be flattened after every operation if and only if every load and every add meets its condition |
| Consistency.EmptyIsFlattenable | packages/dashql-core/src/catalog.cc:438-440 | a new catalog can be flattened, and its counters are above all ids |
| Consistency.IndexedIdsAreOwn | packages/dashql-core/src/catalog.cc:1064-1083 | a schema that a complete add brings into the schema index carries its own ids there exactly if it is the schema described last |
| Outline.KeptIsWinner | packages/dashql-core/src/catalog.cc:588-605 | the first declaration in ranked order is the declaration of the least (rank, id) entry |
| Outline.LookupFindsKept | packages/dashql-core/src/catalog.cc:588-629 | what a lookup returns for a name is exactly the declaration that flattening keeps, and nothing exactly if there is none |
| Outline.PoolsCanDisagree | packages/dashql-core/include/dashql/catalog.h:458-474 | a run in which two pools describe one schema leads to a registry with two ids for one name |
| Outline.PackedTwice | packages/dashql-core/include/dashql/external.h:36 | the number a table id is packed into gives back its entry and its position, and identifies the table |
| Outline.OutlineLevels | packages/dashql-core/src/catalog.cc:657-702 | level by level the tree lists every database, schema and kept table exactly once, in the order of full names |
| Layout.RangesPartition | packages/dashql-core/src/catalog.cc:657-702 | child ranges start at zero, follow each other and end at the end of the next level; parent positions are valid, lie in the ranges, and never decrease |
| Layout.ChildRange | packages/dashql-core/src/catalog.cc:670-700 | the range of a node holds exactly its children, and they carry its position |
| FlatNodes.AddName | packages/dashql-core/src/catalog.cc:488-498 | a name is added once; its id decodes to it and never changes |
| FlatNodes.DictionaryIsDistinct | packages/dashql-core/src/catalog.cc:484-498 | the dictionary holds no name twice |
| FlatNodes.CollectNames | packages/dashql-core/src/catalog.cc:547-586 | there is one node per database and schema name, with its catalog id, found by that id |
| FlatNodes.CollectTables | packages/dashql-core/src/catalog.cc:588-629 | there is one node per table name, with the id and the columns of the first declaration in ranked order |
| Flatten.WriteAll | packages/dashql-core/src/catalog.cc:652-702 | the four nested write loops produce the rows of the whole tree, with name ids that decode to the names |
| Flatten.CursorsMeet | packages/dashql-core/src/catalog.cc:704-707 | the four write cursors end at the numbers of nodes that were created |
| Flatten.SortById | packages/dashql-core/src/catalog.cc:709-715 | the index is a permutation sorted by id |
| Flatten.Flatten | packages/dashql-core/src/catalog.cc:481-740 | the arrays show exactly the outline of the registry, the dictionary is duplicate-free, and the indexes hold the id and position of every row, sorted |
| Flatten.FlatLayout | packages/dashql-core/src/catalog.cc:657-702 | in the arrays alone: parents are valid and nondecreasing, and the child ranges of schemas and tables partition tables and columns |
| FlatView.FlatShowsCatalog | packages/dashql-core/src/catalog.cc:481-740 | read off the arrays alone, by dictionary, parent positions and child ranges: every database, schema and table of every entry has exactly one row, in name order, with the ids the entries hold, and every table the id and the columns of the declaration that wins by rank |
| FlatView.FlatAgreesWithLookup | packages/dashql-core/src/catalog.cc:588-629 | the flattened catalog has a row for a table name exactly if a lookup finds the table, only one, and with the id and columns of the table found |
| Export.EncodeCatalog | packages/dashql-app/src/connection/catalog_export.ts:4-42 | the four loops that push children into earlier-built parents rebuild exactly the named tree that the arrays show: every database, schema, table and column by name at its place |
| Export.ChildrenAreRange | packages/dashql-app/src/connection/catalog_export.ts:19-38 | a parent collects exactly the positions of its child range, in order |
| Export.DecodeCatalog | packages/dashql-app/src/connection/catalog_import.ts:4-30 | one descriptor per schema in order, with running column ordinals |
| Export.DescriptorsInOrder | packages/dashql-app/src/connection/catalog_import.ts:4-30 | the descriptor of a schema is found at the number of schemas before it, with its name, its tables and its columns in order, each column with its place as the ordinal |
| RoundTrip.ColumnsComeBack | packages/dashql-core/src/catalog.cc:370-394 | the ordinal sort keeps the exported column order |
| RoundTrip.SameOutline | packages/dashql-core/src/catalog.cc:481-740 | the names of an outline depend on the names and kept columns only, not on ids |
| RoundTrip.RoundTrip | packages/dashql-app/src/connection/catalog_import.ts:4-30 | importing an exported catalog into an empty one succeeds exactly when no table name is empty, and then gives a consistent catalog with the same tree of names |
| RoundTrip.UnnamedTableIsNotImported | packages/dashql-core/src/catalog.cc:351-354 | a valid catalog with an unnamed script table, whose import fails |
| RoundTrip.ExportImport | packages/dashql-app/src/connection/catalog_export.ts:4-42 | flatten, encode, decode, add to a pool and flatten again: the second result shows the same tree of names |
| Lookup.TableRefsLowerBound | packages/dashql-core-bindings/src/lookup.ts:4-31 | splits the index at the first key that is not below the target |
| Lookup.TableRefsUpperBound | packages/dashql-core-bindings/src/lookup.ts:34-61 | splits the index at the first key above the target |
| Lookup.TableRefsEqualRange | packages/dashql-core-bindings/src/lookup.ts:64-70 | the range holds exactly the keys between the query with its missing parts lowest and highest |
| Lookup.TableRangeIsMatch | packages/dashql-core-bindings/src/lookup.ts:64-70 | the range is what the query asks for, on every index, if and only if the query names a prefix |
| Lookup.ColumnRefsLowerBound | packages/dashql-core-bindings/src/lookup.ts:73-107 | splits the index at the first key that is not below the target |
| Lookup.ColumnRefsUpperBound | packages/dashql-core-bindings/src/lookup.ts:110-144 | splits the index at the first key above the target |
| Lookup.ColumnRefsEqualRange | packages/dashql-core-bindings/src/lookup.ts:147-153 | the range holds exactly the keys between the query with its missing parts lowest and highest |
| Lookup.ColumnRangeIsMatch | packages/dashql-core-bindings/src/lookup.ts:147-153 | the range is what the query asks for, on every index, if and only if the query names a prefix |
| Lookup.PackTableRefs | packages/dashql-core/src/script.cc:516-536 | the index is sorted and lists every resolved table reference once |
| Lookup.PackColumnRefs | packages/dashql-core/src/script.cc:538-561 | the index is sorted and lists every resolved column reference once |
| Lookup.FindTableRefs | packages/dashql-core-bindings/src/lookup.ts:64-70 | on the packed index a prefix query selects exactly the resolved references with that prefix, each once |
| Lookup.FindColumnRefs | packages/dashql-core-bindings/src/lookup.ts:147-153 | on the packed index a prefix query selects exactly the resolved references with that prefix, each once |
| Lookup.FindDatabaseById | packages/dashql-core-bindings/src/lookup.ts:157-172 | the position of a database row with the id, and nothing exactly if there is none |
| Lookup.FindSchemaById | packages/dashql-core-bindings/src/lookup.ts:175-190 | the position of a schema row with the id, and nothing exactly if there is none |
| Lookup.FindTableById | packages/dashql-core-bindings/src/lookup.ts:193-208 | the position of a table row with the id, and nothing exactly if there is none |
| Streams.ReadServerStream | packages/dashql-native/src/grpc_stream_manager.rs:181-262 | the reader goes on exactly while it is within its limit and received no end and no failure; what it then returns is decided by its last receive call, and a batch holds exactly the messages and headers received and their byte total |
| Streams.ForwardResponses | packages/dashql-native/src/grpc_stream_manager.rs:109-154 | up to and including the first end or error, a chunk is forwarded as its data, an end with its trailers, an error as a failure with its reason; nothing follows |
| Streams.StepKeeps | packages/dashql-native/src/grpc_stream_manager.rs:109-272 | every action of the producer, a reader, a timeout or a destroy keeps the stream invariant |
| Streams.MessagesAreConserved | packages/dashql-native/src/http_stream_manager.rs:157-367 | in every reachable state, gRPC or HTTP: until a failure is consumed, returned batches, the current batch and the queue are exactly the messages pushed, in order; afterwards the delivered ones are a prefix; the queue is bounded |
| Streams.FinishedMeansDelivered | packages/dashql-native/src/grpc_stream_manager.rs:222-231 | a stream finishes at most once, and then everything pushed was delivered and nothing more can be pushed |
| Streams.BatchesAreWellShaped | packages/dashql-native/src/grpc_stream_manager.rs:172-260 | byte totals are sums, only a size flush exceeds the limit and only by its last message, and no read ever finds the queue closed |
| StreamHistory.FinishedByServer | packages/dashql-native/src/grpc_stream_manager.rs:125-135 | on every run a stream is reported finished only if the server's last response ended it, and with the trailers of that response |
| StreamHistory.FailedByServer | packages/dashql-native/src/http_stream_manager.rs:157-212 | on every run a read fails with a reason only if the last thing heard is that the request or the response stream failed with it |
| StreamHistory.HeadersFromServer | packages/dashql-native/src/http_stream_manager.rs:175-183 | headers in a returned batch are headers the server answered with |
| StreamHistory.ChunksAreDelivered | packages/dashql-native/src/http_stream_manager.rs:185-367 | on every run what the readers got is a prefix of the chunks the server sent, and all of them once the stream is finished |
| StreamHistory.ReceiveReturns | packages/dashql-native/src/grpc_stream_manager.rs:224-260 | a reader that takes a message goes on exactly while its messages are within its limit; an end or a failure ends its turn with what was said |
| StreamHistory.TimeOutReturns | packages/dashql-native/src/grpc_stream_manager.rs:190-222 | a reader whose wait is over returns the messages it holds, or a timeout if it holds none |
| StreamHistory.OthersReturnNothing | packages/dashql-native/src/grpc_stream_manager.rs:109-272 | no other action makes a read return |
| StreamHistory.BeginReadReturns | packages/dashql-native/src/grpc_stream_manager.rs:172-183 | a read of a known stream waits for its turn, a read of an unknown one is told so at once |
| StreamHistory.KnownUntilDone | packages/dashql-native/src/grpc_stream_manager.rs:264-271 | on every run a stream is known exactly until it is destroyed or its end or failure is read; later reads are told that it is unknown |
| StreamHistory.EveryReadReturnsOnce | packages/dashql-native/src/grpc_stream_manager.rs:162-262 | on every run the reads that began are those that returned, each once to its reader, and those still open |
| IpcStream.DataFrameIpcStream.Next | packages/dashql-compute/src/arrow_out.rs:30-62 | hands out the next buffer of the frame's stream, skipping empty partitions; none exactly at the end, and then for good |
| IpcStream.StreamInOrder | packages/dashql-compute/src/arrow_out.rs:30-62 | a frame's stream begins with the schema; every batch follows those before it in its partition and in all partitions before |
| ComputeProtocol.PostScan | packages/dashql-app/src/compute/compute_worker.ts:160-196 | a scan posts one message per buffer, the end of the scan and the settling response, or an error after the buffers so far |
| ComputeProtocol.ComputeWorker.OnMessage | packages/dashql-app/src/compute/compute_worker.ts:95-249 | the new tables and the responses for every kind of request, which the `FrameLife` rows describe kind by kind |
| ComputeProtocol.ComputeWorker.Resume | packages/dashql-app/src/compute/compute_worker.ts:218-238 | a suspended instantiation or transform continues with one response |
| ComputeProtocol.Bindings.PostTask | packages/dashql-app/src/compute/compute_worker_bindings.ts:100-118 | the task becomes pending under a new id and is sent |
| ComputeProtocol.Bindings.ReadTable | packages/dashql-app/src/compute/compute_worker_bindings.ts:353-378 | a scan becomes active under a new id before its task is posted |
| ComputeProtocol.Bindings.OnMessage | packages/dashql-app/src/compute/compute_worker_bindings.ts:121-231 | scan messages extend or finish their scan; every other response settles its task by its kind |
| ComputeRuns.HandledOnce | packages/dashql-app/src/compute/compute_worker.ts:95-249 | a request is either suspended or answered by exactly one settling response of a fitting kind |
| ComputeRuns.StepKeeps | packages/dashql-app/src/compute/compute_worker.ts:95-249 | every action of either party keeps the protocol invariant |
| ComputeRuns.PendingTasksAreSomewhere | packages/dashql-app/src/compute/compute_worker_bindings.ts:100-231 | a task is pending exactly when it is in the request channel, suspended, or in an unreceived settling response, in one place and once; every settling response finds its task |
| ComputeRuns.SettledForGood | packages/dashql-app/src/compute/compute_worker_bindings.ts:179-230 | a task is settled at most once, with a kind it accepts or a rejection; exactly pings are rejected as unexpected |
| ComputeRuns.TablesAreComplete | packages/dashql-app/src/compute/compute_worker_bindings.ts:139-162 | a resolved table is exactly the stream of the scanned frame; with both channels empty every scan has resolved or broken off |
| ComputeRuns.HandlingDecidesScan | packages/dashql-app/src/compute/compute_worker.ts:160-196 | handling a scan request decides it for good: with all responses received there is a table exactly if the frame was registered then and that read got to the end, and it is that frame's stream |
| ComputeRuns.ReadTableResolves | packages/dashql-app/src/compute/compute_worker_bindings.ts:353-378 | a table resolves, once nothing is on its way, if and only if the run handles its request while the frame is registered and reads it to the end; the table is then the schema and one buffer per record batch in order, whatever else is in flight |
| ComputeRuns.MissingFrameIsNeverRead | packages/dashql-app/src/compute/compute_worker_bindings.ts:353-378 | a run that ends with nothing on its way and no table: the frame does not exist |
| ComputeRuns.PingIsRejected | packages/dashql-app/src/compute/compute_worker_bindings.ts:175-230 | a run that settles an answered ping as unexpected |
| ComputeRuns.ContinuedAddsFrame | packages/dashql-app/src/compute/compute_worker.ts:204-238 | a transform that continues adds its frame under an unused id and leaves every other frame as it was |
| ComputeRuns.FramesNeverCollide | packages/dashql-app/src/compute/compute_worker.ts:103-238 | in every reachable state, ids of frames, of ingests and of frames still being computed are apart |
| FrameLife.IngestStarts | packages/dashql-app/src/compute/compute_worker.ts:117-128 | an ingest starts under an id that nothing else has and is answered with it; no frame changes |
| FrameLife.IngestWrites | packages/dashql-app/src/compute/compute_worker.ts:129-143 | writing changes nothing in the worker's tables, and succeeds only for an ingest that was started |
| FrameLife.IngestFinishes | packages/dashql-app/src/compute/compute_worker.ts:144-159 | finishing is answered Ok exactly if the ingest was started and can be finished, and then the id maps to the finished frame; otherwise nothing changes |
| FrameLife.DeleteRemoves | packages/dashql-app/src/compute/compute_worker.ts:197-205 | after a handled delete the id maps to no frame, and all others are as before |
| FrameLife.TransformStarts | packages/dashql-app/src/compute/compute_worker.ts:206-226 | a transform is suspended exactly if its frame and statistics exist and it starts, under an id nothing else has; otherwise it fails |
| FrameLife.TransformEnds | packages/dashql-app/src/compute/compute_worker.ts:228-236 | a transform that continues registers its frame under that id and answers with the id, or fails and changes no frame |
| FrameLife.FrameStays | packages/dashql-app/src/compute/compute_worker.ts:95-249 | on every run a registered frame stays under its id until a delete of the id or another finish of its ingest is handled |
| FrameLife.DeletedFrameStaysGone | packages/dashql-app/src/compute/compute_worker.ts:197-205 | on every run a deleted frame stays away until its ingest is finished again |
| FrameLife.FinishedFrameIsRead | packages/dashql-app/src/compute/compute_worker_bindings.ts:353-378 | after finishing an ingest was answered Ok, a read posted at any later time, with no delete of the frame and no other finish of the ingest handled before it and read to the end, resolves with exactly the stream of the finished frame, on every run |
| FrameLife.TransformedFrameIsRead | packages/dashql-app/src/compute/compute_worker_bindings.ts:353-378 | the same from the answer of a transform on |
| FrameLife.ReceiveSettles | packages/dashql-app/src/compute/compute_worker_bindings.ts:175-230 | receiving a settling response settles its own task, as an error, as resolved with that very response, or as unexpected, by the kinds of the two; no other settlement changes |
| FrameLife.AnswerArrives | packages/dashql-app/src/compute/compute_worker_bindings.ts:121-231 | on every run, an answer the worker gave settles its task with that answer, once all responses are received |
| Binning.BinFieldOutcome | packages/dashql-compute/src/data_frame.rs:165-207 | a bin is built exactly if there is one row of statistics and the key, its minimum and its maximum exist with the same kind; else the first of these that fails is the error |
| Binning.GroupedBinOutcome | packages/dashql-compute/src/data_frame.rs:550-580 | a group-by takes the named bin column exactly if it exists and is fractional, bins the column itself if none is named, and needs statistics for the column in both cases |
| Binning.WholeKey | packages/dashql-compute/src/data_frame.rs:165-318 | the key expression built for a whole-number column evaluates to the integer bin, and to null for null |
| Binning.WholeBinCharacterized | packages/dashql-compute/src/data_frame.rs:778-788 | every value from minimum to maximum gets one of the bins, and bin b exactly when it lies within the bounds of b, the last bin being open above |
| Binning.WholeBinIsMonotone | packages/dashql-compute/src/data_frame.rs:264-318 | larger values never get smaller bins |
| Binning.WholeOverhang | packages/dashql-compute/src/data_frame.rs:775-788 | less than one value per bin lies above the last bound, and exactly those values escape the bounds of their bin |
| Binning.MaximumEscapes | packages/dashql-compute/src/data_frame.rs:264-318 | the maximum is at or above the last bound exactly if the range is at least the number of bins |
| Binning.NineEscapes | packages/dashql-compute/src/data_frame.rs:264-318 | a value above the upper bound of its bin |
| Binning.WholeBounds | packages/dashql-compute/src/data_frame.rs:800-825 | the bound expressions evaluate to the bounds, and the upper bound of a bin is the lower bound of the next |
| Binning.FractionalKey | packages/dashql-compute/src/data_frame.rs:218-262 | the key expression built for a fractional column evaluates to the bin, and to null for null |
| Binning.FractionalBins | packages/dashql-compute/src/data_frame.rs:218-262 | over reals the last bin ends exactly at the maximum; every value below it lies within the bounds of its bin |
| Binning.FractionalBinIsMonotone | packages/dashql-compute/src/data_frame.rs:218-262 | larger values never get smaller bins |
| Binning.FractionalBounds | packages/dashql-compute/src/data_frame.rs:800-825 | the bound expressions evaluate to adjoining bounds |
| BinnedCounts.JoinMissingBins | packages/dashql-compute/src/data_frame.rs:828-845 | the left join has one row per bin, with the group's count or null, in any order |
| BinnedCounts.OrderedRowsAreAllBins | packages/dashql-compute/src/data_frame.rs:828-845 | ordered by bin, the joined rows are bins 0 to n-1 in order, whatever the join and the sort did |
| BinnedCounts.BinnedGroupBy | packages/dashql-compute/src/data_frame.rs:684-719 | row b is bin b with the number of its keys, or null if it has none; the counts add up to the number of keys that are not null |
| BinnedCounts.ColumnKeys | packages/dashql-compute/src/data_frame.rs:559-606 | with statistics of the same column every value gets a bin and exactly nulls get none |
| BinnedCounts.AnalyzeOrdinalColumn | packages/dashql-app/src/compute/computation_actions.ts:343-376 | null and not-null counts, and one share of the total per bin, zero for an empty table |
| BinnedCounts.SummarizeColumn | packages/dashql-app/src/compute/computation_actions.ts:343-376 | bin by bin the number of values with that key and its share of all rows; bin counts and null count add up to the number of rows, and the shares to the share of values that are not null |
| Ranking.DenseRanks | packages/dashql-compute/src/data_frame.rs:109-145 | numbering the distinct values of sorted keys gives every key its dense rank |
| Ranking.RanksAreIsomorphic | packages/dashql-compute/src/data_frame.rs:109-145 | ranks are ordered as the values are, and only equal values share one |
| Ranking.RanksFillRange | packages/dashql-compute/src/data_frame.rs:109-145 | ranks fill 1 to the number of distinct values |
| Precompute.UniqueColumnName | packages/dashql-app/src/compute/table_transforms.ts:544-554 | the search ends with the first free name among the prefix under more and more underscores |
| Precompute.CreatePrecomputationTransform | packages/dashql-app/src/compute/table_transforms.ts:556-659 | all generated names differ from each other and from the schema; exactly the ordinal, text and list columns get a bin or an identifier |
| Pipeline.AddValueId | packages/dashql-compute/src/data_frame.rs:109-145 | sorting and dense ranking permutes the rows and gives each the rank of its value |
| Pipeline.SortRestoresOrder | packages/dashql-compute/src/data_frame.rs:750-753 | sorting by row number restores the input order, whatever the earlier sorts did |
| Pipeline.RunTransform | packages/dashql-compute/src/data_frame.rs:722-758 | the result holds the input rows in order with their columns unchanged, row numbers, identifiers and fractional bins, and no other column; it fails exactly if statistics are missing or a bin is rejected, with the first such error |
| Pipeline.IdsAreIsomorphic | packages/dashql-compute/src/data_frame.rs:109-145 | identifiers of a column are ordered as its values are and shared only by equal values |
| Pipeline.IdsFillRange | packages/dashql-compute/src/data_frame.rs:109-145 | identifiers of a column fill 1 to the number of its distinct values |
| Pipeline.PreBinnedKeysAgree | packages/dashql-compute/src/data_frame.rs:550-592 | grouping the precomputed table by its fractional bins is accepted and gives every row the key that binning the input directly gives it |
| Pipeline.PrecomputeTable | packages/dashql-app/src/compute/table_transforms.ts:556-659 | creating and running the transform together: fresh names, all columns covered, rows and order preserved |
| SymbolSearch.FindSymbol | packages/dashql-core/src/script.cc:46-162 | the symbol that a linear scan finds for the clamped offset, stepped back once from the end of file; the relative position classifies the offset; the empty script is special |
| SymbolSearch.FoundStartsLast | packages/dashql-core/src/script.cc:104-131 | the chunk scan and the binary search in the chunk find the last symbol that starts at or before the offset |
| SymbolSearch.RelativePositionOf | packages/dashql-core/src/script.cc:72-102 | the one relative position that applies |
| SymbolSearch.WrongPrevious | packages/dashql-core/src/script.cc:52-69 | a scanned script for which a symbol other than the one before is reported |
| SymbolSearch.PreviousIsBefore | packages/dashql-core/src/script.cc:52-69 | the previous symbol is the one before exactly within a chunk, or after a chunk of one symbol; otherwise it is the first of the previous chunk |
| SyntaxTree.AddNode | packages/dashql-core/src/parser/parse_context.cc:33-50 | adding a node over parentless nodes keeps the tree well-formed and sets exactly their parents |
| SyntaxTree.FindNodeAtOffset | packages/dashql-core/src/script.cc:192-250 | the descent starts at the last statement before the offset, every step takes a child that touches the offset, preferring one that includes it, and ends where no child does |
| SyntaxTree.FollowPathUpwards | packages/dashql-core/src/script.cc:775-796 | the path up to the root, and the scopes of its nodes |
| SyntaxTree.ScopesInOrder | packages/dashql-core/src/script.cc:775-796 | the scope of a node on the path comes after exactly the scopes of the nodes before it |
| SyntaxTree.AscentRetraces | packages/dashql-core/src/script.cc:775-796 | going up from the end of a path retraces it in reverse and then continues above its start |
| SyntaxTree.AscentIsReversedDescent | packages/dashql-core/src/script.cc:192-250 | up to a statement root, the ascent is the reverse of the descent |
| QueryLife.ConnectionState.ReduceQueryAction | packages/dashql-app/src/connection/query_execution_state.ts:175-396 | the new maps, lists and counters for every action, which the `QueryHistory` rows describe |
| QueryLife.StepKeepsValid | packages/dashql-app/src/connection/query_execution_state.ts:175-396 | every action with a fresh id keeps the lists duplicate-free listings of the maps, active and finished disjoint, the snapshot 1 + active + 2 * finished, and the metrics the merge of the finished queries by outcome |
| QueryLife.RunsAreValid | packages/dashql-app/src/connection/query_execution_state.ts:175-396 | the same on every run |
| QueryLife.TotalsCountFinished | packages/dashql-app/src/connection/query_execution_state.ts:309-409 | successful, cancelled and failed totals add up to the number of finished queries |
| QueryHistory.TotalsAreSums | packages/dashql-app/src/connection/query_execution_state.ts:388-396 | for each outcome, each of the five totals is the sum of its own metric over the finished queries with that outcome |
| QueryHistory.ListsKeepOrder | packages/dashql-app/src/connection/query_execution_state.ts:309-384 | queries are listed in the order they started, and finished ones in the order they ended |
| QueryHistory.QueryHoldsItsEvents | packages/dashql-app/src/connection/query_execution_state.ts:175-396 | on every run, whatever other queries do, a query holds exactly what its own actions brought: batches in order, schema, table, stream metrics, and the moment of each kind of action |
| QueryHistory.ActionsMarkMoments | packages/dashql-app/src/connection/query_execution_state.ts:191-372 | an action records its own moment and the update time, and no other moment |
| QueryHistory.EndingIsRecorded | packages/dashql-app/src/connection/query_execution_state.ts:309-375 | cancelling and failing record an error and the start time as duration, success records the elapsed time, nothing else records either |
| QueryHistory.ProgressIsRecorded | packages/dashql-app/src/connection/query_execution_state.ts:232-249 | progress is kept as last reported, and marks a sending query as queued at that time |
| QueryLife.StoredDuration | packages/dashql-app/src/connection/query_execution_state.ts:309-375 | a finished query stores the time since its start exactly if it succeeded or was ended at twice its start time |
| QueryLife.FinishedStaysOnRuns | packages/dashql-app/src/connection/query_execution_state.ts:175-396 | a finished query never changes again |
| QueryLife.ExecuteQuery | packages/dashql-app/src/connection/query_executor.tsx:117-239 | an execution dispatches exactly the start, the sending, and as far as it gets the running, every event of the stream in order, the table of all its batches, the analysis steps asked for and one end, which comes last and is the outcome the caller sees; the sequence is orderly |
| QueryHistory.ExecutionIsHeld | packages/dashql-app/src/connection/query_executor.tsx:117-190 | when a query's actions on a run are those of an execution, it ends up with the batches and the table of that execution |
| QueryLife.EndsOnce | packages/dashql-app/src/connection/query_executor.tsx:117-239 | only the last action of an execution can end the query |
| QueryLife.StatusNeverDecreases | packages/dashql-app/src/connection/query_executor.tsx:117-239 | the status number of a query never decreases, however the actions of other queries are mixed in |

## Left out

- Integer widths, floating-point rounding, decimal, date and timestamp casts: integers are unbounded and reals exact.
- Flatbuffer, protobuf and Arrow encodings, FFI and WebAssembly memory, string-view lifetimes: values stand for buffers.
- The scanner, parser, analyzer, completion and name-search index: their results are abstract well-formed inputs.
- DataFusion operators: sort, dense rank, aggregate and left join have their relational meaning; filters, group-bys with several keys and aggregates other than counts are not modelled.
- Unstable ordering of columns with equal ordinals: `std::sort` may order them in any way, the model keeps their order.
- The vectors of flattened rows are appended to; the original sizes them in advance and writes through cursors. `Flatten.CursorsMeet` gives the equality of cursors and sizes.
- Hash-map iteration: name nodes are collected in an arbitrary order of entries and names, as an unordered map would give them.
- Message objects shared between the bindings' arrays and their readers: batches and buffers are values.
- Response ids of the worker (its `nextMessageId`): nothing reads them. Log and instantiation-progress messages, worker errors and worker shutdown are left out too.
- Cancelling a reader task in the middle of a read: a reader runs until it returns.
- Several streams in one manager: stream ids are handed out once and streams share nothing else.
- HTTP response headers: they travel with the batch as in the code, where a read that times out before the first chunk drops them; only body chunks are claimed to be conserved.
- Column ids that the precomputation stores in the grid columns, and the table id counter of the import, which nothing reads back.
- Name lookups other than `ResolveTable` (schemas of a database, tables of a schema, columns), and catalog statistics.
- Resetting a connection.
- Flatten.Flatten: only registries in which names and ids agree across all entries, because the code relies on assertions otherwise; `Consistency.StaysFlattenable` says which runs stay among them.
- Consistency.StaysFlattenable: the ids of an analyzed script are taken to be ones this catalog handed out (`Consistency.Issued`); the analysis that asks for them is not modelled.
- Binning.BinFieldOutcome: statistics hold numbers only, so the error for binning a text column whose statistics are texts too is not modelled.
- Binning.GroupedBin: numbers have two kinds, whole and fractional; the code accepts a precomputed bin column only if it holds 64-bit floating point numbers.
- Pipeline.RunTransform: only transforms whose fields the table has; the error for an unknown field is not modelled.
- BinnedCounts.SummarizeColumn: only positive bin counts, because the grouping code stops at an assertion for zero.
