# Common Data Layer: a verified model

This project models the stateful parts of the Common Data Layer and proves what they keep over every
run. It checks with `dafny verify dfyconfig.toml`.

- **Schema registry** (`crates/schema-registry`). The registry stores schemas, versioned definitions and
  views as vertices, edges and loose properties of a property graph. `Registry` is the registry as its
  users see it, `PropertyGraph` the graph and the registry a well-formed graph stands for, `PropertyLists` the
  decoding of property lists, `Refinement` the operations as sequences of graph changes, `Database` the
  `SchemaDb` calls over a mutable datastore, `Strays` the calls given an id that is no schema's, `Transfer`
  import and export, `Semver` version precedence.
- **Replication**. `Replication` is the master's handlers and the slave's event interpreter on registries,
  with convergence and version discipline over runs; `Replay` is redelivery; `RegistryServer` is the
  handlers and the consumer as methods over `SchemaDb`, tied to those specifications, and put together: a slave
  fed from the channel of a master's run ends equal to it.
- **Acknowledgement queue** (`crates/utils`). `AckQueue` is the queue itself, `AckRuns` its runs,
  `AckCrashes` a partition's log read by a consumer that crashes and resumes.
- **Data router** (`crates/data-router`). `DataRouter` is message handling, and the consume loop with its
  limiter and the spawned handlers, effect by effect, as a state machine.
- **Per-key lock** (`crates/utils`). `TaskQueue` is the lock, `TaskQueueRuns` its interleavings.
- **Document shrinker and queries** (`crates/db-shrinker-postgres`, `crates/query-service`). `Json` is the
  recursive merge, `Documents` the `data` table and the version-ordered fold, `Shrinker` the shrinker,
  `ShrinkerRuns` its interleavings with inserts, `LateInserts` exactly which inserts are harmless, `Queries`
  the two latest-version queries.
- **Routes** (`cdl-site/src/route.ts`). `Route` is the parser and the printer of location hashes.

## How it is put together

Code that changes state is a class or a method whose postcondition equates the new state with a function of
the old one (`Merge`, `Acked`, `Released`, `Serve`, `PutEdge`, ...); the laws are lemmas about those
functions and about runs of them. Loops over hash maps and query results pick their elements in an
arbitrary order, so what is proved holds for every order.

What lies outside becomes a parameter: `Env` holds UUID parsing, JSON schema compilation and view
validation as unknown deterministic functions; generated ids, the broker's answer about a topic and whether
an entry can be routed are arguments. Generated ids are taken to be new. Database calls are stated for
well-formed graphs, which every call given a schema's or an unknown id keeps, and runs of the master use
such ids.

## What the code does that one might not expect

- `ensure_schema_exists` looks for a vertex, not for a schema (`crates/schema-registry/src/db.rs:94-103`).
  A metadata update, a version or a view addressed to a definition's or view's id is accepted where the
  registry has no such schema; the contracts of `UpdateSchema`, `AddNewVersionOfSchema` and
  `AddViewToSchema` say that the answers agree exactly when the vertex is a schema or absent, and what is
  written for every id. Module `Strays` says what it costs. Nothing stops decoding and no record of the
  registry changes. A stray field can be asked for and is lost when the export is imported; a stray version
  is found by its vertex, so references to it resolve; a stray view belongs to no schema. `RebuiltIff` is
  the exact condition for an import to rebuild what was exported.
- The metadata event never carries the schema type (`crates/schema-registry/src/rpc.rs:189`), so replicas
  agree up to it: `SchemaTypeDiverges`, and `AlikeWithTypesIff` for any call.
- An unknown schema type is refused after the other fields are written, and no event is emitted
  (`crates/schema-registry/src/rpc.rs:164-182`): `MetadataConvergesIff` gives the exact condition, and
  `Convergence` is stated for requests with a known type or none.
- A waiter cancelled after its permit was sent takes the permit with it; the key is blocked for good
  (`crates/utils/src/parallel_task_queue.rs:24-29`): `NoLostWakeUpIff`, `LostPermitBlocksForever`.
- The data router builds the future that acquires the per-key lock and never awaits it
  (`crates/data-router/src/main.rs:105-107`), so the ordering promised in
  `docs/features/message_ordering.md` does not follow from the lock. The properties here are the lock's own.
- The offset stored is that of the last message done, not of the next one
  (`crates/utils/src/messaging_system/kafka_ack_queue.rs:72-89`), so a restart delivers that message again:
  `RestartRedelivers`. A store that was not committed is lost in a crash: `NeverFallsIff`, `CrashLosesStored`.
- `merge` is not associative, and null is a value like any other: `AssociativeIffCompatible`, `NotAssociative`.
- The shrinker folds what it read and deletes what is older (`crates/db-shrinker-postgres/src/main.rs:95-102`).
  A row that arrives below the version committed is deleted if it comes before the commit; if it comes after
  it, the fold no longer has it in its place. `ShrinkingSafeIff` is the exact condition on the rows' keys for
  the document to survive whatever they hold, and `LateInserts` has three histories where it does not. Runs
  in `ShrinkerRuns` are restricted by that condition and no further.
- `routeToString` does not escape values (`cdl-site/src/route.ts:69-77`): `RoundTripIff` says which routes
  are read back.

## Model

| member | source | states |
|---|---|---|
| `Json.MergeInPlace` | crates/db-shrinker-postgres/src/main.rs:126-135 | the recursive merge, in whatever order the update's keys come, leaves the value of `Merge`; the loop starts an absent key from null |
| `Json.MergeIdempotent` | crates/db-shrinker-postgres/src/main.rs:126-135 | merging the same update twice equals merging it once, for all documents |
| `Json.MergeAssociative` | crates/db-shrinker-postgres/src/main.rs:126-135 | two updates may be merged first, provided the earlier has an object wherever the later has an object and the earlier has a value |
| `Json.AssociativeIffCompatible` | crates/db-shrinker-postgres/src/main.rs:126-135 | that condition is exact: without it some target document tells the two groupings apart |
| `Json.IncompatibleWitness` | crates/db-shrinker-postgres/src/main.rs:126-135 | constructs such a target for every incompatible pair |
| `Json.NotAssociative` | crates/db-shrinker-postgres/src/main.rs:126-135 | `{x:1}`, null, `{y:2}` gives two answers |
| `Json.MergeLeaf` | crates/db-shrinker-postgres/src/main.rs:126-135 | a non-object in a merge comes from the update exactly when the update has the path or cuts it off, else from the target |
| `Json.MergePaths` | crates/db-shrinker-postgres/src/main.rs:126-135 | a path is in a merge iff it is in the update, or in the target and not cut off by the update |
| `Json.SamePaths` | crates/db-shrinker-postgres/src/main.rs:126-135 | paths and the non-objects on them determine a document, so the two laws before determine the merge |
| `Json.LastWriterPerPath` | crates/db-shrinker-postgres/src/main.rs:109-135 | a non-object sits at a path of the folded document iff the last version writing that path holds it there |
| `Json.FoldPrefix` | crates/db-shrinker-postgres/src/main.rs:109-116 | folding may restart from the fold of any prefix, although merge is not associative |
| `Documents.AscendingEnumerates` | crates/db-shrinker-postgres/src/main.rs:118-124 | the rows read are all versions of the object, each once, ascending |
| `Documents.AscendingSplit` | crates/db-shrinker-postgres/src/main.rs:118-124 | the ordered rows split at any version |
| `Documents.FoldThrough` | crates/db-shrinker-postgres/src/main.rs:109-124 | everything up to a version may be replaced with its fold |
| `Documents.FoldAgreement` | crates/db-shrinker-postgres/src/main.rs:109-124 | two histories that fold alike up to a version and agree after it fold alike |
| `Shrinker.MinimizeDocument` | crates/db-shrinker-postgres/src/main.rs:109-116 | `fold_first` with merge: nothing for no rows, else the left fold |
| `Shrinker.DataTable.Insert` | crates/command-service/src/output/psql/mod.rs:68-83 | an insert adds its row unless the primary key is taken |
| `Shrinker.DataTable.GetAllWithId` | crates/db-shrinker-postgres/src/main.rs:118-124 | returns the object's versions ascending |
| `Shrinker.DataTable.Commit` | crates/db-shrinker-postgres/src/main.rs:93-104 | deletes the rows of the object below the version and rewrites the row of that version, nothing else |
| `Shrinker.DataTable.ShrinkById` | crates/db-shrinker-postgres/src/main.rs:71-107 | fails without change iff there are no rows, else commits the fold at the newest version |
| `Shrinker.DataTable.ShrinkAll` | crates/db-shrinker-postgres/src/main.rs:54-66 | a whole undisturbed run leaves one row per object: its newest, holding the fold |
| `Shrinker.ShrinkOneMore` | crates/db-shrinker-postgres/src/main.rs:71-107 | shrinking one object of a partly shrunk table is one step towards the fully shrunk one |
| `Shrinker.SingleRow` | crates/db-shrinker-postgres/src/main.rs:54-59 | objects with one row, which the run skips, are already their own fold |
| `ShrinkerRuns.StepKeepsInv` | crates/db-shrinker-postgres/src/main.rs:71-124 | inserts, read, commit and abort in any order keep the stored rows in agreement with everything ever inserted |
| `ShrinkerRuns.AgreeCommit` | crates/db-shrinker-postgres/src/main.rs:93-104 | a commit after further inserts keeps that agreement |
| `ShrinkerRuns.AgreeRaise` | crates/db-shrinker-postgres/src/main.rs:71-124 | agreement up to a version carries over to every later one |
| `ShrinkerRuns.CommitAgrees` | crates/db-shrinker-postgres/src/main.rs:93-104 | committing the fold of all rows up to a version keeps the agreement, and needs no new bound when a single row was read |
| `ShrinkerRuns.ShrinkingPreservesDocuments` | crates/db-shrinker-postgres/src/main.rs:71-124 | over every run in which no insert goes below a version several rows were folded into, and no commit over unread rows below it, an object's rows fold to what everything ever inserted folds to |
| `LateInserts.PreservedIff` | crates/db-shrinker-postgres/src/main.rs:71-124 | for given versions read, arriving before the commit and after it, the document survives whatever the payloads iff none arrives below the version committed before the commit, nor after it unless one row was read |
| `LateInserts.ShrinkingSafeIff` | crates/db-shrinker-postgres/src/main.rs:71-124 | the same for the rows of a table and the transaction that commits |
| `LateInserts.InTimePreserves` | crates/db-shrinker-postgres/src/main.rs:71-124 | rows in time leave the fold as it is, for all payloads |
| `LateInserts.TooLate` | crates/db-shrinker-postgres/src/main.rs:71-135 | for every late arrival there are payloads whose fold changes |
| `LateInserts.LateOldInsertIsLost` | crates/db-shrinker-postgres/src/main.rs:95-98 | a concrete one before the commit: the two folds differ |
| `LateInserts.InsertBetweenFolded` | crates/db-shrinker-postgres/src/main.rs:99-102 | a concrete one after the commit, between two versions folded: an overwritten value comes back |
| `LateInserts.InsertBelowFoldedNull` | crates/db-shrinker-postgres/src/main.rs:126-135 | a concrete one after the commit, below a folded null: what the null should wipe out stays |
| `Queries.NewestIffUnexceeded` | crates/query-service/src/psql.rs:183-192 | the correlated subquery picks exactly the newest row |
| `Queries.JoinedIffNewest` | crates/query-service/src/psql.rs:146-157 | the max-version join picks exactly the newest rows of the requested objects |
| `Queries.OneRowPerObject` | crates/query-service/src/psql.rs:146-157 | one row and no more per requested object |
| `Queries.BySchemaFiltersById` | crates/query-service/src/psql.rs:146-192 | the by-schema rows are the by-id rows whose newest row has the schema |
| `Queries.CollectUnique` | crates/query-service/src/psql.rs:89-97 | the collected map does not depend on the order in which rows arrive |
| `Queries.QueryMultipleAnswers` | crates/query-service/src/psql.rs:129-166 | each requested stored object, and no other, is answered with its newest payload |
| `Queries.QueryBySchemaAnswers` | crates/query-service/src/psql.rs:168-199 | an object is answered iff its newest row has the schema, with its newest payload |
| `Queries.QueryAfterShrinking` | crates/query-service/src/psql.rs:146-157 | after an undisturbed shrinker run the by-id answer is the fold of all versions |
| `AckQueue.KafkaPartitionAckQueue.Add` | crates/utils/src/messaging_system/kafka_ack_queue.rs:57-62 | appends the offset and remembers it as the last |
| `AckQueue.KafkaPartitionAckQueue.Ack` | crates/utils/src/messaging_system/kafka_ack_queue.rs:64-101 | removes the offset, the cursor loop terminating, and stores only when the front was removed |
| `AckQueue.KafkaAckQueue.Add` | crates/utils/src/messaging_system/kafka_ack_queue.rs:18-26 | adds to the message's partition, made on first use, and to no other |
| `AckQueue.KafkaAckQueue.Ack` | crates/utils/src/messaging_system/kafka_ack_queue.rs:27-36 | acknowledges in the message's partition and in no other |
| `AckRuns.RunTracks` | crates/utils/src/messaging_system/kafka_ack_queue.rs:57-101 | after every run of increasing deliveries and acknowledgements in any order, queue and stored offsets agree with what was delivered and acknowledged |
| `AckRuns.WaitingExact` | crates/utils/src/messaging_system/kafka_ack_queue.rs:57-101 | no such run gets stuck, and the queue is the sorted delivered-minus-acknowledged sequence |
| `AckRuns.ExactWatermark` | crates/utils/src/messaging_system/kafka_ack_queue.rs:57-101 | delivered offsets at or below the last stored one are exactly the longest fully acknowledged prefix; stored offsets strictly increase |
| `AckRuns.AckOrderConfluence` | crates/utils/src/messaging_system/kafka_ack_queue.rs:64-101 | any two orders of the same acknowledgements end in the same queue and watermark, with the last delivered offset stored when all are acknowledged |
| `AckCrashes.StepKeepsInv` | crates/utils/src/messaging_system/kafka_ack_queue.rs:47-101 | every step keeps the invariant; committed offsets never decrease, stored ones not without a crash |
| `AckCrashes.AtLeastOnce` | crates/utils/src/messaging_system/kafka_ack_queue.rs:47-101 | through any crashes, every log message at or below the stored or committed offset was acknowledged at least once |
| `AckCrashes.OffsetsNeverDecrease` | crates/utils/src/messaging_system/kafka_ack_queue.rs:47-101 | from any reachable state the committed offset never decreases, nor the stored one without a crash |
| `AckCrashes.NeverFallsIff` | crates/utils/src/messaging_system/kafka_ack_queue.rs:47-101 | over any run the stored offset never falls iff every crash finds it committed |
| `AckCrashes.CrashLosesStored` | crates/utils/src/messaging_system/kafka_ack_queue.rs:47-101 | a reachable run in which it does fall |
| `AckCrashes.RestartRedelivers` | crates/utils/src/messaging_system/kafka_ack_queue.rs:72-89 | after a restart the message at the committed offset, already acknowledged, is delivered again iff there is a message with that offset |
| `DataRouter.HandleMessage` | crates/data-router/src/main.rs:185-280 | every entry is routed in order, then the failure is sent: the bad payload or the last entry that cannot be routed, then the message is acknowledged; nothing else is done |
| `DataRouter.HandledIff` | crates/data-router/src/main.rs:185-280 | these are the effects of the handler and no others, for all three shapes of payload |
| `DataRouter.AcknowledgedOnceAndLast` | crates/data-router/src/main.rs:185-280 | exactly one acknowledgement, after everything else; an error is sent iff the payload was bad or some entry failed |
| `DataRouter.StepKeepsInv` | crates/data-router/src/main.rs:90-116 | deliveries, spawns, the single effects of the handlers and their ends, in any order, keep permits, queues and jobs in step |
| `DataRouter.BoundedBacklog` | crates/data-router/src/main.rs:90-116 | no acknowledgement gets stuck, and delivered-but-unacknowledged messages number at most the limit plus one over all partitions |
| `DataRouter.AcknowledgedBeforeRelease` | crates/data-router/src/main.rs:103-109 | a message whose permit was released had all of its handling done, its one acknowledgement last; none is acknowledged twice or before the rest of its handling |
| `DataRouter.EntriesAttempted` | crates/data-router/src/main.rs:209-269 | when a permit is released, every entry of its message had been attempted before the acknowledgement |
| `DataRouter.JobsKept` | crates/utils/src/task_limiter.rs:17-29 | what a handler did and has left to do is, at every moment, what handling its message does |
| `TaskQueue.LockQueue.AddTask` | crates/utils/src/parallel_task_queue.rs:58-70 | a free queue is taken and granted at once, a blocked one gets the waiter at its end |
| `TaskQueue.LockQueue.EndTask` | crates/utils/src/parallel_task_queue.rs:72-85 | terminates; passes over dropped receivers, grants the first live waiter or unblocks |
| `TaskQueue.ParallelTaskQueue.AcquirePermit` | crates/utils/src/parallel_task_queue.rs:17-30 | acts on the key's queue, made on first use, and on no other |
| `TaskQueue.ParallelTaskQueue.DropGuard` | crates/utils/src/parallel_task_queue.rs:92-103 | ends the key's holder and removes the key when nobody is left |
| `TaskQueueRuns.StepKeepsInv` | crates/utils/src/parallel_task_queue.rs:17-103 | every interleaving of acquire, receive, cancel and drop keeps the lock's invariant and never panics |
| `TaskQueueRuns.MutualExclusion` | crates/utils/src/parallel_task_queue.rs:17-103 | at most one owner per key; a key is in the map iff some holder or lost permit occupies it |
| `TaskQueueRuns.WaiterQueuedOnce` | crates/utils/src/parallel_task_queue.rs:58-70 | a live waiter is in its key's queue, at one place, and in no other queue |
| `TaskQueueRuns.NoLostWakeUpIff` | crates/utils/src/parallel_task_queue.rs:24-103 | every key in the map has an owner iff no receiver was dropped after the permit was sent into it |
| `TaskQueueRuns.LostPermitBlocksForever` | crates/utils/src/parallel_task_queue.rs:24-29 | after such a drop nobody owns the key again, whatever follows |
| `TaskQueueRuns.GrantsInArrivalOrder` | crates/utils/src/parallel_task_queue.rs:58-103 | permits of a key are granted in arrival order, with only cancelled waiters passed over |
| `TaskQueueRuns.BoundedWaiting` | crates/utils/src/parallel_task_queue.rs:72-103 | a waiter with n entries ahead that does not cancel has been granted after n+1 guard drops of its key |
| `Semver.TotalOrder` | crates/schema-registry/src/db.rs:195-199 | the precedence used by `max_by_key` and the version check is a strict total order up to build metadata |
| `Semver.PrecedenceIs` | crates/schema-registry/src/db.rs:285-291 | the order used is section 11 of Semantic Versioning 2.0.0, said directly: major, minor, patch, pre-release before release, then the first differing identifier, numbers by value, before texts, texts in ASCII order |
| `Semver.FirstDifferenceDecides` | crates/schema-registry/src/db.rs:285-291 | the first differing pre-release identifier decides (section 11 of Semantic Versioning 2.0.0) |
| `Semver.PreReleaseRules` | crates/schema-registry/src/db.rs:285-291 | a release comes after its pre-releases, more identifiers after fewer |
| `Registry.LatestExists` | crates/schema-registry/src/db.rs:191-200 | among versions without ties some matching one is after all other matching ones |
| `Registry.LatestUnique` | crates/schema-registry/src/db.rs:191-200 | only one, so the answer does not depend on the order of edges |
| `Registry.LatestFound` | crates/schema-registry/src/db.rs:191-200 | a match is found iff some version satisfies the requirement |
| `Registry.UpdateFieldsAll` | crates/schema-registry/src/db.rs:233-276 | a series of metadata updates applies as a whole or fails at its first call |
| `Registry.BuildIs` | crates/schema-registry/src/schema.rs:9-36 | a build is the document with each entry of `definitions` that names a schema replaced by that schema's latest definition and everything else as it was, iff that compiles; it says which of the two reasons it fails for |
| `Registry.AddedSchemaReads` | crates/schema-registry/src/db.rs:217-231 | a schema is accepted iff its id is free and its definition builds; it then has its metadata, version 1.0.0 with the full definition and nothing else, and nothing else changes |
| `Registry.AcceptsVersionIff` | crates/schema-registry/src/db.rs:278-308 | a version is accepted iff the schema is there, all its versions come before it and the definition builds |
| `Registry.AddedVersionReads` | crates/schema-registry/src/db.rs:298-307 | it is then the schema's latest, with the full definition, and nothing else changes |
| `Registry.AddedViewReads` | crates/schema-registry/src/db.rs:310-324 | a view is accepted iff the schema is there, the expression is valid and the id is free; it is then read under its id and listed by its schema |
| `Registry.AddSchemaExtends` | crates/schema-registry/src/db.rs:217-231 | an accepted schema disturbs no recorded version |
| `Registry.AddVersionExtends` | crates/schema-registry/src/db.rs:278-308 | an accepted version comes after all versions of its schema and disturbs none |
| `Registry.LatestNeverDecreases` | crates/schema-registry/src/db.rs:191-200 | for a fixed requirement the latest match never moves back |
| `PropertyGraph.WrittenIsEncoded` | crates/schema-registry/src/types/storage/vertices.rs:51-123 | writing a vertex's properties one by one gives its encoding |
| `PropertyGraph.EncodedDecodes` | crates/schema-registry/src/types/storage/vertices.rs:38-128 | `from_properties` gives back every schema, definition and view that `into_properties` wrote |
| `PropertyGraph.PutVertexRefines` | crates/schema-registry/src/db.rs:39-65 | a new vertex keeps the graph well formed and adds a schema without versions, a view, or only a used id |
| `PropertyGraph.PutEdgeRefines` | crates/schema-registry/src/db.rs:80-92 | a fitting edge keeps the graph well formed and adds its version or view to its schema |
| `PropertyGraph.SetFieldRefines` | crates/schema-registry/src/db.rs:67-78 | writing one schema property changes that field of the registry and nothing else |
| `PropertyGraph.SetViewPropertyRefines` | crates/schema-registry/src/db.rs:333-339 | likewise for a view's name and expression |
| `PropertyLists.PropertyList.Extract` | crates/schema-registry/src/types.rs:102-122 | draining takes every property of the name out of the list, keeps the rest in order and returns the first |
| `PropertyLists.FirstOfOthers` | crates/schema-registry/src/types.rs:102-122 | draining one name does not disturb what is found under another |
| `PropertyLists.PropertyList.SchemaFromProperties` | crates/schema-registry/src/types/storage/vertices.rs:39-49 | the four extractions in a row decode the list, or fail at the first field missing or of the wrong shape |
| `PropertyLists.PropertyList.DefinitionFromProperties` | crates/schema-registry/src/types/storage/vertices.rs:78-85 | likewise for a definition |
| `PropertyLists.PropertyList.ViewFromProperties` | crates/schema-registry/src/types/storage/vertices.rs:108-116 | likewise for a view |
| `PropertyLists.PropertyList.DefinitionEdgeFromProperties` | crates/schema-registry/src/types/storage/edges.rs:66-74 | the version of a definition edge |
| `PropertyLists.DecodedIs` | crates/schema-registry/src/types/storage/vertices.rs:38-116 | what a list decodes to does not depend on its order |
| `PropertyLists.StoredDecodes` | crates/schema-registry/src/types/storage/vertices.rs:38-128 | the properties of a stored value, listed in any order, decode to that value |
| `Refinement.AddSchemaRefines` | crates/schema-registry/src/db.rs:217-231 | schema vertex, definition vertex and edge do to the registry what adding a schema does |
| `Refinement.AddVersionRefines` | crates/schema-registry/src/db.rs:298-307 | definition vertex and edge do what adding a version does |
| `Refinement.AddViewRefines` | crates/schema-registry/src/db.rs:319-323 | view vertex and edge do what adding a view does |
| `Refinement.UpdateViewRefines` | crates/schema-registry/src/db.rs:333-339 | the property writes do what updating a view does |
| `Refinement.AbsConsistent` | crates/schema-registry/src/db.rs:278-308 | versions of a schema in a well-formed graph never tie, and ids are used once |
| `Database.SchemaDb.CreateVertexWithProperties` | crates/schema-registry/src/db.rs:39-65 | a taken id is refused without change; else the vertex is there with all its properties |
| `Database.SchemaDb.SetEdgeProperties` | crates/schema-registry/src/db.rs:80-92 | the edge is created only between present vertices, then given its properties |
| `Database.SchemaDb.EnsureSchemaExists` | crates/schema-registry/src/db.rs:94-103 | on a well-formed graph it tells whether the registry has the schema iff the vertex is a schema or absent |
| `Strays.StrayField` | crates/schema-registry/src/db.rs:94-103 | a metadata field written to a view or definition: everything decodes, registry and exports stay the same, the property itself can be asked for, an import of the export forgets it |
| `Strays.StrayVersion` | crates/schema-registry/src/db.rs:94-103 | a version given to one: no record has it, but its versions are found and references to it resolve; exports carry it and imports rebuild it |
| `Strays.StrayView` | crates/schema-registry/src/db.rs:94-103 | a view given to one: the view exists in no record, only the views of that vertex list it; exports carry it and imports rebuild it |
| `Database.SchemaDb.GetSchemaVersions` | crates/schema-registry/src/db.rs:137-153 | exactly the versions along the schema's definition edges that carry one, in any order, or an error iff one of them does not decode |
| `Database.MaxByVersion` | crates/schema-registry/src/db.rs:195-199 | filter and `max_by_key`: a matching version no other matching one exceeds, or none |
| `Database.SchemaDb.GetLatestValidSchemaVersion` | crates/schema-registry/src/db.rs:191-200 | on a well-formed graph the unique latest matching version with its vertex, or the error, for every edge order |
| `Database.SchemaDb.GetSchemaDefinition` | crates/schema-registry/src/db.rs:119-134 | the definition recorded for that version |
| `Database.SchemaDb.Inline` | crates/schema-registry/src/schema.rs:17-30 | replacing references one by one, in any order, gives all of them their latest definitions, or fails iff one has none |
| `Database.SchemaDb.BuildFullSchema` | crates/schema-registry/src/schema.rs:9-36 | references inlined at this moment, then compiled: what a build leaves in the document, and when it succeeds, without reference to how it is computed |
| `Database.SchemaDb.GetView` | crates/schema-registry/src/db.rs:202-215 | the view, or an error if the vertex is absent or of another type |
| `Database.SchemaDb.DecodeVertex` | crates/schema-registry/src/types/storage/vertices.rs:38-116 | the property list, in any order, drained into the value the vertex decodes to |
| `Database.SchemaDb.DecodeVertices` | crates/schema-registry/src/db.rs:461-486 | all vertices of a type, or an error iff one does not decode |
| `Database.SchemaDb.AddSchema` | crates/schema-registry/src/db.rs:217-231 | commutes with adding a schema to the registry, with the exact error and the exact graph left; a rejected call changes nothing |
| `Database.SchemaDb.UpdateSchema` | crates/schema-registry/src/db.rs:233-276 | succeeds iff a vertex has the id and then writes that one property; agrees with the registry's answer iff the vertex is a schema or absent, and then commutes with the field update |
| `Database.SchemaDb.AddNewVersionOfSchema` | crates/schema-registry/src/db.rs:278-308 | when it succeeds and the exact graph it leaves, for all ids; agrees with the registry iff the vertex is a schema or absent, and then commutes; missing schema, stale version and bad definition change nothing |
| `Database.SchemaDb.AddViewToSchema` | crates/schema-registry/src/db.rs:310-324 | when it succeeds and the exact graph it leaves, for all ids; agrees with the registry iff the vertex is a schema or absent, and then commutes; missing schema, invalid view and duplicate id change nothing |
| `Database.SchemaDb.UpdateView` | crates/schema-registry/src/db.rs:326-342 | commutes with updating a view, with the exact error and graph, returning the old view; a rejected call changes nothing |
| `Database.SchemaDb.ImportVertices` | crates/schema-registry/src/db.rs:413-423 | succeeds iff no imported id is taken, and then adds all vertices |
| `Database.SchemaDb.ImportEdges` | crates/schema-registry/src/db.rs:425-431 | adds the edges in order |
| `Database.SchemaDb.ImportAll` | crates/schema-registry/src/db.rs:407-434 | a database with schemas is left alone; else the import succeeds iff all ids are distinct and builds vertices, then edges |
| `Database.SchemaDb.ListEdges` | crates/schema-registry/src/db.rs:488-502 | every edge of a kind once, in any order, or an error iff one does not decode |
| `Database.SchemaDb.ExportAll` | crates/schema-registry/src/db.rs:436-511 | succeeds iff everything decodes, so on every well-formed graph, and then lists exactly the graph |
| `Transfer.ImportOfExport` | crates/schema-registry/src/db.rs:407-511 | importing an export into an empty database rebuilds every graph that holds nothing besides what it decodes to, so every well-formed one; each edge is created after both its ends |
| `Transfer.RebuiltIff` | crates/schema-registry/src/db.rs:407-511 | the import of an export is the graph again iff its vertices and edges hold nothing besides what they decode to |
| `Transfer.ImportedExact` | crates/schema-registry/src/db.rs:407-434 | an import builds nothing besides what its export mentions |
| `Transfer.ExportsAgree` | crates/schema-registry/src/db.rs:436-511 | two exports of a graph agree up to the order of their edge lists |
| `Transfer.ExportOfImport` | crates/schema-registry/src/db.rs:407-511 | exporting what was imported gives the same export back |
| `Transfer.IdsDistinctIff` | crates/schema-registry/src/db.rs:413-423 | the three loads succeed iff schemas, definitions, views and present vertices share no id |
| `RegistryServer.ReplicationState.ReplicateMessage` | crates/schema-registry/src/replication/mod.rs:99-110 | a master with a live channel puts the event behind all earlier ones, which stay in order; otherwise nothing is sent |
| `RegistryServer.ReplicationState.StopReceiving` | crates/schema-registry/src/replication/master.rs:28-35 | the master thread returns; from then on events are dropped |
| `RegistryServer.SchemaRegistry.AddSchema` | crates/schema-registry/src/rpc.rs:89-123 | the topic check first: an unconfirmed topic changes nothing and emits nothing; otherwise database, answer and event are those of serving the request, with the exact error, graph and event |
| `RegistryServer.SchemaRegistry.AddSchemaVersion` | crates/schema-registry/src/rpc.rs:125-144 | for a schema or unknown id, those of serving the request; for every id, when it succeeds, the graph left, and an event iff it does |
| `RegistryServer.SchemaRegistry.UpdateSchemaMetadata` | crates/schema-registry/src/rpc.rs:146-193 | likewise for metadata, with the schema type parsed last and never sent |
| `RegistryServer.SchemaRegistry.AddViewToSchema` | crates/schema-registry/src/rpc.rs:195-219 | likewise for a new view |
| `RegistryServer.SchemaRegistry.UpdateView` | crates/schema-registry/src/rpc.rs:221-239 | likewise for a view update, with the exact error and graph, returning the old view |
| `RegistryServer.UpdateGiven` | crates/schema-registry/src/rpc.rs:164-172 | the optional name, topic and address in order, stopping at the first failure, and the exact graph left for all ids |
| `RegistryServer.FieldsRefine` | crates/schema-registry/src/rpc.rs:164-182 | a series of metadata writes to a schema or an unknown id is the series of registry updates |
| `RegistryServer.MetadataRefines` | crates/schema-registry/src/rpc.rs:146-193 | what serving a metadata request leaves, answers and emits, case by case |
| `RegistryServer.UpdateAll` | crates/schema-registry/src/rpc.rs:164-182 | the fields, then the type: the exact graph left and the answer, for all ids |
| `RegistryServer.UpdateAllServes` | crates/schema-registry/src/rpc.rs:146-193 | for a schema or an unknown id that is serving the request, its event included |
| `RegistryServer.ConsumeMessage` | crates/schema-registry/src/replication/slave.rs:58-107 | replays one event through the database and acknowledges it iff no call failed |
| `RegistryServer.ConsumeMq` | crates/schema-registry/src/replication/slave.rs:39-53 | the consumer's loop goes on after a failed event |
| `RegistryServer.EventsAcceptable` | crates/schema-registry/src/replication/slave.rs:58-107 | a slave that started equal can consume whatever a permitted run of the master emits |
| `RegistryServer.Follow` | crates/schema-registry/src/replication/slave.rs:39-107 | a slave's database that started equal and consumes the events of any permitted run ends equal, all events acknowledged |
| `RegistryServer.Dispatch` | crates/schema-registry/src/rpc.rs:89-239 | any call leaves, answers and emits what serving it does |
| `RegistryServer.ServeRun` | crates/schema-registry/src/rpc.rs:89-239 | after a run of calls on a master the channel holds what it held followed by the events of the run, in the order of the calls |
| `RegistryServer.Replicate` | crates/schema-registry/src/replication/mod.rs:99-110 | a slave that starts equal and consumes the master's channel ends equal to the master, all events acknowledged |
| `Replication.AddSchemaConverges` | crates/schema-registry/src/rpc.rs:114-118 | a schema accepted by the master is accepted by the slave with the same inlined definition |
| `Replication.UnconfirmedTopicRefused` | crates/schema-registry/src/rpc.rs:105-162 | a schema or metadata call for a topic that is missing or cannot be looked up changes nothing, emits nothing and says which |
| `Replication.WireTypes` | crates/rpc/proto/schema_registry.proto:127-131 | 0 is DocumentStorage, 1 is Timeseries, nothing else is a type |
| `Replication.AddVersionConverges` | crates/schema-registry/src/rpc.rs:136-141 | likewise for a version |
| `Replication.AddViewConverges` | crates/schema-registry/src/rpc.rs:207-214 | likewise for a view |
| `Replication.ServeConverges` | crates/schema-registry/src/rpc.rs:89-239 | one handler call and the consumption of its event keep master and slave alike; a silent call changed nothing they share |
| `Replication.Convergence` | crates/schema-registry/src/rpc.rs:89-239 | for every run of requests, in-order replay from an equal start ends equal up to definition vertex ids and schema types, no event rejected |
| `Replication.MetadataConvergesIff` | crates/schema-registry/src/rpc.rs:164-191 | a metadata call leaves the slave alike iff it does not carry an unknown schema type together with a field that changes |
| `Replication.SchemaTypeDiverges` | crates/schema-registry/src/rpc.rs:174-190 | whatever else a metadata call carries, replicas with equal types part iff it changes the type on the master |
| `Replication.AlikeWithTypesIff` | crates/schema-registry/src/rpc.rs:89-239 | after any call master and slave are alike including types iff it is not half done and leaves every schema of the master with the type the slave has |
| `Replication.SameAfterIff` | crates/schema-registry/src/rpc.rs:89-239 | after any call they are alike up to types iff it is not a half done metadata update |
| `Replication.RunExtends` | crates/schema-registry/src/db.rs:278-308 | over any run recorded definitions never change and later versions come after all earlier ones |
| `Replication.VersionDiscipline` | crates/schema-registry/src/db.rs:191-308 | in every run from an empty registry versions never tie, recorded definitions stay, the latest match never moves back |
| `Replay.Redelivered` | crates/schema-registry/src/replication/slave.rs:66-103 | an event already applied, delivered again, only overwrites the fields it writes |
| `Replay.AllDelivered` | crates/schema-registry/src/replication/slave.rs:66-103 | after a log is applied nothing of it is left to add and the last writes are in place |
| `Replay.ReplaySafety` | crates/schema-registry/src/replication/slave.rs:66-103 | after an accepted log, redelivering any suffix leaves the registry unchanged |
| `Replay.MasterLogReplaySafe` | crates/schema-registry/src/replication/slave.rs:66-103 | every master log is such a log |
| `Route.SplitJoin` | cdl-site/src/route.ts:76-77 | splitting a join at a separator no part contains gives the parts |
| `Route.PrintedPages` | cdl-site/src/route.ts:55-66 | the text of each page |
| `Route.PrintedQueries` | cdl-site/src/route.ts:62-64 | the text of each query type |
| `Route.PrintedSchemas` | cdl-site/src/route.ts:69-77 | the parameters of a schema page, in their order |
| `Route.Pages` | cdl-site/src/route.ts:29-48 | the empty location is the home page, and each name is its page whatever follows |
| `Route.NoPage` | cdl-site/src/route.ts:51 | any other location has none |
| `Route.SearchParamsRendered` | cdl-site/src/route.ts:74-77 | printed parameters are parsed back |
| `Route.GetKept` | cdl-site/src/route.ts:43-46 | each parameter read is the one printed, empty ones absent |
| `Route.RoundTrip` | cdl-site/src/route.ts:25-82 | parsing a printed route gives its normalised form for all values without separators, plus signs and escapes |
| `Route.RoundTripIff` | cdl-site/src/route.ts:25-82 | parsing a printed route gives its normalised form iff no value has a separator, a plus sign or an escape |
| `Route.UnsafeIsLost` | cdl-site/src/route.ts:69-77 | a route with such a value is not read back: the first one in print order comes out wrong |
| `Route.DecodeIff` | cdl-site/src/route.ts:27-27 | decoding leaves alone exactly the texts without plus signs and escapes |
| `Route.PlusAndBadBytes` | cdl-site/src/route.ts:27 | a plus sign is read as a space, a byte that starts no character as a replacement character |
| `Route.EscapedDecodes` | cdl-site/src/route.ts:27 | any text written as escapes of its UTF-8 bytes has no separators and is read back |
| `Route.UnreservedIsSafe` | cdl-site/src/route.ts:69-77 | values of unreserved characters (section 2.3 of RFC 3986) have none |
| `Route.PrintAlikeIff` | cdl-site/src/route.ts:55-82 | two such routes print alike iff they normalise alike |

## Left out

- Json.MergeInPlace: takes and returns values, so the original's writing through a mutable reference is not captured; numbers are integers, as no operation looks inside one.
- Database.SchemaDb.CreateVertexWithProperties: the datastore (IndraDB over sled) is a map of vertices and a map of edges; an edge needs both endpoints, and creating it again keeps its properties.
- PropertyGraph.EncodedDecodes: a version is stored as itself, taking its text form to be readable back.
- Database.SchemaDb.AddNewVersionOfSchema: well-formed graphs only, and so the other calls that resolve versions; `Strays` follows one call that leaves such a graph, not calls made after it.
- Database.SchemaDb.AddSchema: a call is one atomic step; a crash between two of its writes, and two calls interleaving, are not modelled.
- Database.SchemaDb.GetSchemaDefinition: errors carry less than in the original (no requirement, no compiler message), and errors of the datastore itself are absent.
- Database.SchemaDb.ImportAll: what a failing import leaves behind depends on map order and is not stated; the emptiness check looks at schema vertices where the code reads their names.
- Database.SchemaDb.ExportAll: which malformed vertex or edge is reported is not stated.
- Replication.Convergence: events arrive in order and none is lost; the master publishes each from a future of its own (`crates/schema-registry/src/replication/master.rs:56`), which does not guarantee it. The ids a slave generates for definitions are taken never to be chosen for a schema or view on the master.
- RegistryServer.ConsumeMessage: payload parsing and the broker's side of the acknowledgement; nothing is claimed about a failed event being delivered again.
- RegistryServer.SchemaRegistry.UpdateSchemaMetadata: requests start parsed; ids, versions and JSON that do not parse are refused before any of this.
- RegistryServer.ReplicationState.ReplicateMessage: a node keeps the role it was first given; changing roles and the master's publishing thread are left out.
- TaskQueue.ParallelTaskQueue.AcquirePermit: the part under the mutex; awaiting the receiver is the step Receive of the runs.
- AckQueue.KafkaPartitionAckQueue.Ack: acknowledging an offset that is not waiting panics or never returns in the original; it is excluded here and proved unreachable in runs.
- AckCrashes.AtLeastOnce: one partition and full restarts at the committed offset; partitions reassigned within one lifetime are left out.
- DataRouter.HandleMessage: resolving the schema, the cache and publishing are one predicate saying whether an entry is routed; the abort after a failed acknowledgement is left out.
- DataRouter.BoundedBacklog: Kafka only; the AMQP consumer has no such queue.
- Shrinker.DataTable.ShrinkAll: a run without concurrent inserts; concurrency is in `ShrinkerRuns`.
- ShrinkerRuns.ShrinkingPreservesDocuments: one shrinker; two at once are left out.
- LateInserts.ShrinkingSafeIff: one read and one commit; the exact condition is not carried over to runs with several.
- Queries.QueryMultipleAnswers: request parsing and the rendering of ids and payloads as text.
- Route.RoundTripIff: strings are sequences of Unicode scalar values; the browser's own encoding of fragments is not modelled.
- The registry's plain readers (single properties, lists of schemas, names and views), value validation and heartbeats: they would only add easy members.
- The leader elector, the API and GraphQL layer, the CLI, the pages of the site, the line-protocol builder, the Druid and Victoria query services and the caches: no state with a harder property.
