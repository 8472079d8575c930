# Waylog: verified model of the ingest core

This Dafny project models the stateful core of Waylog, a service that ingests wide events, answers questions about
traces and errors, and tracks incidents. It states what the core promises and proves it for all inputs, all runs and
all interleavings. `dafny verify dfyconfig.toml` checks everything.

| files | subject |
|---|---|
| `Ordering`, `Events`, `Forest` | sorting by a strict order, events, parent chains |
| `TraceOrder`, `Linkage`, `Anchor` | the trace graph, its causal order, and the root-cause anchor |
| `Rollup`, `RecentIndex`, `EventDedup`, `CrashRecovery`, `Ingest` | durable ingest, the hot index and its recovery from the WAL |
| `Paging`, `Reader`, `ErrorRollup` | keyset pagination, search, error rows and blast radius |
| `Incidents`, `IncidentRuns`, `IncidentEngine` | the incident life cycle over whole runs |
| `Text`, `PlanRef`, `PlanParams`, `Plan`, `PlanStore`, `PlanRun` | plans: references, substitution, validation, execution, progress logs |
| `SchemaInline` | inlining of schema references |
| `IdempotencyCache`, `Idempotency` | the idempotency cache and the requests that share it |
| `GroupCommit`, `WalFraming`, `WalDirectory`, `NdjsonBody`, `MinuteRing` | the group-commit log, WAL framing and files, request bodies, the minute counters |

How the model reads the program:

- Time is an `int` of nanoseconds; 0 is the zero time. Clock readings are parameters.
- Hashes are taken as injective: an incident id is its environment, family and five-minute bucket, and a body stands
  for its own hash.
- Sections under a mutex are atomic steps. Code that changes state in place is a class or a loop proved against a
  function; code shared by goroutines is a system of atomic steps, and the theorems are about every sequence of steps.
- Map iteration order is arbitrary: loops over maps pick keys nondeterministically.
- I/O outcomes, tool handlers and buffer sizes are parameters, and theorems hold for all of them.

Where the code does less than a reader may expect, the model follows the code:

- The live index can lack events that a replay brings back: those in flight at the crash, those whose projection
  failed, and those whose write reported an error after the record was in the file, because the fsync or the rotation
  failed. All of them stay in the WAL (`CrashRecovery.RecoveryIsExact`, `CrashRecovery.FailedProjectionShows`,
  `CrashRecovery.FailedWriteShows`).
- A replay can lack events that the live index has: those whose file it skips although they end after the cutoff
  (`CrashRecovery.RecoveryFromFiles`, `CrashRecovery.SkippedFileShows`).
- The id LRU survives a restart only as far as the replay cutoff keeps the newest records. The program replays since a
  recent cutoff, so an id that ended before it is accepted again (`CrashRecovery.DedupSurvivesRestart`,
  `CrashRecovery.RestartCanForget`).
- Files of one second whose modification times are equal are replayed in the order of their names, which is not that of
  their creation (`WalDirectory.ReadInOrder`, `WalDirectory.NamesOfOneSecond`). No record is lost
  (`WalDirectory.NothingLost`), and the index does not depend on the order (`CrashRecovery.RecoveryFromFiles`).
- The minute ring has 120 slots, but a window of 120 minutes spans 121 minute numbers, so its oldest minute can be
  overwritten (`MinuteRing.RingExact`, `MinuteRing.TwoHoursCanLose`).
- Schema inlining keeps a reference whose name is empty, although `$defs` may hold a definition with that name
  (`SchemaInline.BadRefsStay`), and panics if the root's chain of references ends in something that is not an object
  (`SchemaInline.PanicsExactly`, `SchemaInline.PanicsAt`).
- WAL records with interior newlines come back as several records (`WalFraming.RoundTripExact`,
  `WalFraming.NewlineSplits`). Bodies of type `application/x-ndjson` never contain such events
  (`NdjsonBody.EventsSurvive`).

## Model

| member | source | states |
|---|---|---|
| `Events.BeforeStrictOrder` | internal/ingest/v2/linkage.go:141-170 | the event identity comparison is a strict total order on every set of events with distinct ids |
| `Events.SortedIsChronological` | internal/ingest/v2/linkage.go:135-170 | a sequence sorted by identity has the earlier starts first, of equal starts the lesser service, of equal services the lesser id |
| `Events.FailedStatuses` | internal/incidents/engine.go:977-984 | every status but ok and suppressed is a failure |
| `Forest.AcyclicIffRooted` | internal/ingest/v2/linkage.go:103-124 | a parent map has no cycle if and only if every node's parent chain ends |
| `TraceOrder.CompleteIffAcyclic` | internal/ingest/v2/linkage.go:28-56 | with resolving links, the walk from the roots lists as many events as there are exactly when the parent relation is acyclic; then it lists exactly the input's events |
| `TraceOrder.PreorderMembers` | internal/ingest/v2/linkage.go:35-48 | the preorder below some events holds exactly the events that hang below one of them |
| `TraceOrder.PreorderNoDuplicates` | internal/ingest/v2/linkage.go:35-48 | the preorder lists no event twice |
| `TraceOrder.CausalOrderParentsFirst` | internal/ingest/v2/linkage.go:35-56 | in the causal order every event is preceded by its parent |
| `TraceOrder.AncestorsFirst` | internal/ingest/v2/linkage.go:35-56 | in the causal order every event comes after all its ancestors, over chains of any length |
| `TraceOrder.TraceSequencePermutes` | internal/ingest/v2/linkage.go:15-57 | the sequence, causal or by identity order, is a permutation of the trace |
| `TraceOrder.FallbackChronological` | internal/ingest/v2/linkage.go:129-139 | without causal order the events are listed by start, service and id |
| `TraceOrder.SiblingsChronological` | internal/ingest/v2/linkage.go:24-50 | roots, and the children of one event, are listed by start, service and id |
| `TraceOrder.BadLinkUnresolved` | internal/ingest/v2/linkage.go:91-94 | an event whose parent span is one of its own, or of no event, makes the graph unusable |
| `TraceOrder.OrderIndependent` | internal/ingest/v2/linkage.go:15-127 | if no span id is shared between events, all permutations of a trace have the same links, the same verdict and the same sequence |
| `Linkage.BuildTraceGraph` | internal/ingest/v2/linkage.go:66-127 | usable exactly when there is a link and every parent span resolves to another event; then children and parents are the forest's, and on acyclic links the memoised depths are the parent-chain lengths |
| `Linkage.DepthOf` | internal/ingest/v2/linkage.go:103-118 | with any sound memo, the recursive depth with its cycle guard is the parent-chain length on an acyclic map, and the memo stays sound |
| `Linkage.AllDepths` | internal/ingest/v2/linkage.go:119-124 | whatever the visiting order, all depths are the parent-chain lengths |
| `Linkage.Walk` | internal/ingest/v2/linkage.go:35-48 | the recursive walk with its seen set appends exactly the preorder of an unseen subtree and marks exactly its ids |
| `Linkage.WalkAll` | internal/ingest/v2/linkage.go:43-51 | the same for a list of siblings or roots |
| `Linkage.CollectRoots` | internal/ingest/v2/linkage.go:24-30 | exactly the events without a parent span, in identity order |
| `Linkage.OrderTrace` | internal/ingest/v2/linkage.go:15-57 | returns a permutation; reports causal exactly when some link exists, all resolve and they are acyclic, and then returns the forest's preorder, otherwise the events by start, service and id |
| `Anchoring.HasFailedDescendant` | internal/ingest/v2/anchor.go:130-147 | with a shared visited set, on any graph: a true answer is right, and after a false one nothing below the marked nodes has failed |
| `Anchoring.FailsBelow` | internal/ingest/v2/anchor.go:102-116 | from an empty visited set the answer is exact in both directions, cyclic graphs included |
| `Anchoring.CollectFailed` | internal/ingest/v2/anchor.go:27-32 | exactly the failed events, none twice |
| `Anchoring.FailedLeaves` | internal/ingest/v2/anchor.go:109-115 | exactly the failed events without a failed descendant, none twice |
| `Anchoring.TopIsLeaf` | internal/ingest/v2/anchor.go:111-127 | a failed event that ranks before all other failed events by depth and identity has no failed descendant |
| `Anchoring.AnchorUnique` | internal/ingest/v2/anchor.go:22-48 | at most one event ranks first |
| `Anchoring.AnchorByFields` | internal/ingest/v2/anchor.go:22-48 | the anchor is no less deep than any other failed event and, at equal depth or without causal links, before it by start, service and id |
| `Anchoring.AnchorOrderIndependent` | internal/ingest/v2/anchor.go:27-47 | if no span id is shared, which event is the anchor does not depend on the order of the input |
| `Anchoring.DeepestFailedLeaf` | internal/ingest/v2/anchor.go:102-128 | on acyclic links the chosen leaf exists, has no failed descendant, and ranks first by depth then identity among all failed events |
| `Anchoring.GraphTouchesFailed` | internal/ingest/v2/anchor.go:90-100 | true exactly when some failed event has a parent or a child |
| `Anchoring.ResolveAnchor` | internal/ingest/v2/anchor.go:22-48 | with a failure in the trace an anchor always exists and is a failed event; without cycles it is the first of all failed events in the order that applies, and the linkage says which |
| `Rollup.RecountUnique` | internal/ingest/v2/index.go:208-289 | a table that is the recount (keys, counts, least and greatest stamps) of a set of events is determined by that set |
| `Rollup.RecountInsert` | internal/ingest/v2/index.go:208-289 | the incremental update of a recount by one event is the recount of the larger set |
| `HotIndex.InsertKeepsValid` | internal/ingest/v2/index.go:78-93 | insertion keeps the trace lists a partition of the live events and every table a recount of them |
| `HotIndex.TablesDetermined` | internal/ingest/v2/index.go:78-93 | two valid index states with the same live events have equal tables and trace contents, whatever their histories |
| `HotIndex.CallEdges` | internal/ingest/v2/index.go:230-242 | a call edge is there exactly when a step of a live event that is not suppressed goes from the event's service to that downstream service and endpoint |
| `HotIndex.StepCallsCount` | internal/ingest/v2/index.go:230-242 | an event counts on a call edge once for each of its steps that makes the call |
| `HotIndex.ErrorNodes` | internal/ingest/v2/index.go:219-228 | an error node is there exactly when a live failed event has that service and anchor, and its range spans their end times |
| `HotIndex.ServiceNodes` | internal/ingest/v2/index.go:245-255 | a service node is there exactly when a live event names that service |
| `HotIndex.KeptPartitions` | internal/ingest/v2/index.go:166-189 | after dropping expired events from the trace lists they still partition the remaining events |
| `HotIndex.RecentIndex.Insert` | internal/ingest/v2/index.go:78-93 | refuses empty and known ids; otherwise the state becomes the specified one, and the invariant holds |
| `HotIndex.RecentIndex.ApplyAggregates` | internal/ingest/v2/index.go:208-255 | the service, error family and call edges of one event are absorbed into the tables |
| `HotIndex.RecentIndex.PruneOlderThan` | internal/ingest/v2/index.go:166-206 | keeps exactly the events ending at or after the cutoff, in trace order, returns the number dropped, and leaves rebuilt tables that satisfy the invariant; a zero cutoff changes nothing |
| `EventDedup.NewestIds` | internal/ingest/v2/dedup.go:63-116 | ids that were each absent when added leave exactly the newest ones in the LRU, newest first |
| `EventDedup.NewestInFront` | internal/ingest/v2/dedup.go:97-116 | whatever was added before, distinct ids that fit end up in front, newest first |
| `EventDedup.Dedup.Add` | internal/ingest/v2/dedup.go:52-61 | the new order is the specified one; table and list hold the same ids, within capacity |
| `EventDedup.Dedup.Remove` | internal/ingest/v2/dedup.go:82-95 | exactly the id goes, the rest keeps its order |
| `EventDedup.Dedup.Seen` | internal/ingest/v2/dedup.go:40-50 | an id is seen exactly when it is non-empty and in the LRU |
| `CrashRecovery.RunKeeps` | internal/ingest/v2/handler.go:146-202 | in every interleaving of commits, duplicates, failed writes that did or did not reach the file, projections, panics and prunes, over any number of restarts: all in-flight, accepted, indexed and lost events are in the WAL, and every WAL event the cutoff keeps is indexed, in flight or lost |
| `CrashRecovery.AcknowledgedIsDurable` | internal/ingest/v2/handler.go:174-202 | an event is in the WAL when it is acknowledged, and every event acknowledged by some moment of a run is in the WAL at every later one |
| `CrashRecovery.ReplayBringsBack` | internal/ingest/v2/replay.go:21-67 | at every moment of every run, a replay of all records since a cutoff not before the last one holds exactly the indexed, in-flight and lost events that the cutoff keeps |
| `CrashRecovery.RecoveryIsExact` | internal/ingest/v2/replay.go:21-67 | at every moment, with writes in flight or not, the live index pruned at a cutoff has the events of the replay of all records since it if and only if no kept event is in flight or lost and unindexed; then services, errors, calls and trace contents agree too |
| `CrashRecovery.RecoveryFromFiles` | internal/eventlog/v2/replay.go:17-61 | the same for the files that a replay since the cutoff reads, in any order: the events agree if and only if the kept records it does not read are exactly the unindexed ones, and then the tables agree |
| `CrashRecovery.FailedWriteShows` | internal/eventlog/v2/writer.go:58-73 | after a write that reports an error once its record is in the file, index and LRU lack an event that a replay brings back |
| `CrashRecovery.SkippedFileShows` | internal/eventlog/v2/replay.go:34-36 | a record that ends ten minutes after its file was last modified is skipped although the cutoff keeps it |
| `CrashRecovery.FailedProjectionShows` | internal/ingest/v2/handler.go:269-293 | the run commit, failed projection, prune ends with an index that differs from the replay |
| `CrashRecovery.DedupSurvivesRestart` | internal/ingest/v2/replay.go:21-67 | over any number of restarts, while no write failed after reaching the file, no projection failed and each replay kept the newest records, the LRU holds exactly the newest WAL ids; a replay since any cutoff rebuilds it if and only if the cutoff keeps all of the newest records |
| `CrashRecovery.RestartCanForget` | internal/ingest/v2/replay.go:52-56 | a run in which an event is committed, forgotten by a restart with a later cutoff, and committed again |
| `CrashRecovery.ReplayHolds` | internal/ingest/v2/replay.go:29-65 | a replay since a cutoff yields a valid index holding exactly the WAL events the cutoff keeps |
| `CrashRecovery.SkippedFilesAreStale` | internal/eventlog/v2/replay.go:17-40 | skipping files older than the cutoff minus the slack loses no event the cutoff keeps, as long as no record ends more than five minutes after its file was last modified |
| `Ingest.BatchAccounting` | internal/ingest/v2/handler.go:146-202 | a batch without error accounts for every body once as accepted, duplicate or rejected; on the durable path the WAL grows by exactly the accepted events in order, and a validate-only batch changes nothing |
| `Ingest.BodyIsSteps` | internal/ingest/v2/handler.go:174-202 | processing one body is one of the atomic step sequences of the crash-recovery system, a write that fails after reaching the file included |
| `Ingest.KnownIsDuplicate` | internal/ingest/v2/handler.go:174-192 | a known id adds one duplicate and changes nothing else |
| `Ingest.GoodIsAccepted` | internal/ingest/v2/handler.go:174-202 | a new event that is written and projected is accepted, in the WAL, in the index and known from then on |
| `Ingest.PanicIsError` | internal/ingest/v2/handler.go:269-293 | a failed projection is an error: the record stays in the WAL, the mark is taken back, nothing is accepted |
| `Ingest.FailedWriteIsError` | internal/ingest/v2/handler.go:167-186 | a failed write, or no WAL, is an error, and at most the record has reached the file |
| `Ingest.OtherOutcomes` | internal/ingest/v2/handler.go:151-166 | a cancelled context stops the batch, an invalid body is rejected, and without durability a valid one is only counted |
| `Ingest.GoodBatch` | internal/ingest/v2/handler.go:146-202 | without failures a batch has no error and accepts, writes and marks exactly the valid events whose id the LRU did not hold when they were reached, in order |
| `Ingest.Handler.IngestBody` | internal/ingest/v2/handler.go:174-202 | WAL, id mark, projection and counters change as specified, the failed branches included: an error before or after the record is in the file, and a failed projection |
| `Ingest.Handler.IngestRaw` | internal/ingest/v2/handler.go:146-202 | the whole batch in turn, up to a cancelled context or the first infrastructure failure, durable or validate-only, with or without WAL and LRU |
| `Ingest.ReplayWAL` | internal/ingest/v2/replay.go:21-67 | one pass leaves index and LRU as the replay of the decoded lines, skipping malformed, invalid and stale ones, and counts loaded, projected and undecodable lines |
| `Paging.CollectsEverything` | internal/ingest/v2/reader.go:66-86 | over a fixed sorted list, following the cursor until it is absent ends and yields exactly everything beyond the first cursor |
| `Paging.StableItemsOnce` | internal/ingest/v2/reader.go:54-87 | while the list changes between pages no key is returned twice, and an item present in every snapshot is returned exactly once |
| `Paging.PageHolds` | internal/ingest/v2/cursor.go:99-127 | each page holds exactly the items of its snapshot between its two cursors |
| `Paging.TakePage` | internal/ingest/v2/reader.go:66-86 | the loop with its one-past-the-limit probe gives the specified page and next cursor: at most limit items, and exactly limit when there is a next cursor |
| `Reader.ListFacts` | internal/ingest/v2/reader.go:237-260 | the items of a set in the order of distinct keys ascend strictly and are exactly the set |
| `Reader.SortIsList` | internal/ingest/v2/reader.go:66-69 | in whatever map order a call meets the items, sorting them gives that one list |
| `Reader.SearchEvents` | internal/ingest/v2/reader.go:54-87 | the answer is the page beyond the cursor of the one sorted list of matching events of the index |
| `Reader.SearchPagesComplete` | internal/ingest/v2/reader.go:54-87 | following the cursor over an unchanged index, each call listing its map anew, returns exactly the matching events, each once, newest first |
| `Reader.SearchNewestFirst` | internal/ingest/v2/reader.go:237-260 | found events are listed by later start, then lesser id |
| `Reader.FoundByFields` | internal/ingest/v2/reader.go:146-175 | an indexed event is left out exactly if a criterion that is set excludes it |
| `Reader.SearchPagesStable` | internal/ingest/v2/reader.go:54-87 | while the index changes between pages, a matching event that stays indexed is returned exactly once |
| `Reader.RecentTraces` | internal/ingest/v2/reader.go:105-144 | over the trace groups in any order, the answer is the page beyond the cursor of the one sorted list of summaries of listed traces |
| `Reader.EarliestIsLeast` | internal/ingest/v2/reader.go:197-207 | the start of a summary is the least start of its events, when all are set |
| `Reader.LatestIsGreatest` | internal/ingest/v2/reader.go:197-207 | the end of a trace is the greatest end of its events, when all are set |
| `Reader.DurationSpans` | internal/ingest/v2/reader.go:186-235 | the duration of a summary is that from least start to greatest end, in whole milliseconds |
| `Reader.ListedExactly` | internal/ingest/v2/reader.go:110-118 | a trace is listed exactly if an event of it matches, unless it is all suppressed events nobody asked for |
| `Reader.NoCandidate` | internal/ingest/v2/anchor.go:50-88 | only a trace of nothing but suppressed events has no anchor, unless they are asked for |
| `Reader.TracesNewestFirst` | internal/ingest/v2/reader.go:119-124 | traces are listed by later start, then lesser id |
| `Reader.TracePagesComplete` | internal/ingest/v2/reader.go:105-144 | following the trace cursor returns exactly one summary for each trace with a matching event and an anchor candidate, newest first |
| `ErrorRollup.AggregateErrors` | internal/ingest/v2/derived.go:323-352 | one aggregate for each family with a matching event: its count, its traces and the latest start of each |
| `ErrorRollup.BuildRows` | internal/ingest/v2/derived.go:323-352 | one row per aggregate, with its count, in an arbitrary order |
| `ErrorRollup.RowsAreRowSet` | internal/ingest/v2/derived.go:323-352 | in whatever order aggregates and rows are built, the rows are exactly those recomputed from the events, each once |
| `ErrorRollup.ErrorsPage` | internal/ingest/v2/derived.go:58-92 | the answer is the page beyond the cursor of the one sorted list of rows of the snapshot's events |
| `ErrorRollup.ErrorPagesComplete` | internal/ingest/v2/derived.go:58-92 | following the error cursor over an unchanged index, each call rebuilding its rows, returns exactly one row for each family with a matching event, largest count first |
| `ErrorRollup.ErrorsLargestFirst` | internal/ingest/v2/derived.go:392-415 | rows are listed by larger count, then lesser service, step and code |
| `ErrorRollup.CountedByFields` | internal/ingest/v2/derived.go:354-367 | a failed event with an anchor counts in the row of its service, step and code and in no other, exactly when no criterion that is set excludes it |
| `ErrorRollup.RollupMatchesTable` | internal/ingest/v2/derived.go:323-367 | the unfiltered rows have exactly the families and counts of the incrementally kept error table |
| `ErrorRollup.BlastTraces` | internal/ingest/v2/derived.go:94-126 | the traces with a matching event, each with the latest matching start |
| `ErrorRollup.BlastByFields` | internal/ingest/v2/derived.go:369-390 | the cross-code view takes failed events of the code, the other those of the whole family, within the window |
| `ErrorRollup.BlastMatchesRow` | internal/ingest/v2/derived.go:94-126 | for the same window the blast radius of a family covers exactly the traces of its error row |
| `Incidents.DerivedRowsOk` | internal/incidents/engine.go:193-290 | every tick emits rows that fit the cache, no two for one family, so all with distinct ids |
| `Incidents.BuildRowOk` | internal/incidents/engine.go:655-709 | a family with an open incident keeps its id and start, any other gets a new one whose id no cached incident has |
| `Incidents.ApplyRowKeeps` | internal/incidents/engine.go:499-539 | after each applied row the cache is exactly the store's unresolved rows, at most one per environment and family |
| `Incidents.TickKeeps` | internal/incidents/engine.go:499-539 | the same after every prefix of a tick's rows, so also when a write fails midway |
| `Incidents.RunKeeps` | internal/incidents/engine.go:173-191 | the same at every state of every run |
| `Incidents.OpenIncidentStable` | internal/incidents/engine.go:655-670 | an incident open before and after a tick keeps its id and its start |
| `Incidents.LeavesOnlyFromRecovering` | internal/incidents/engine.go:469-495 | an incident leaves the cache only from recovering, unseen this tick and quiet for at least the resolve delay, and is then stored as resolved |
| `Incidents.SameIdExactly` | internal/incidents/id.go:14-19 | two starts have the same id exactly for the same environment, family and five minutes of the clock |
| `IncidentRuns.DetectionOpens` | internal/incidents/engine.go:655-709 | every detection of a fully applied tick leaves an active incident of its family, seen now; a family that was not open starts with its earliest event, or now if that is later |
| `IncidentRuns.UnseenRecovers` | internal/incidents/engine.go:469-483 | an active incident that a fully applied tick does not see is recovering from then on |
| `IncidentRuns.UnseenResolves` | internal/incidents/engine.go:483-495 | a recovering one is resolved if its quiet period is over, and unchanged if not |
| `IncidentRuns.QuietResolves` | internal/incidents/engine.go:469-495 | over runs, an incident that two or more ticks in a row do not see, the last at least the resolve delay after its last sighting, is resolved |
| `IncidentRuns.SightingsRemembered` | internal/incidents/engine.go:687-709 | the last sighting an open incident carries is no earlier than any tick that saw it |
| `IncidentRuns.ResolvesAfterQuiet` | internal/incidents/engine.go:469-495 | over runs with a clock that does not go back and successful writes, an incident resolves only from recovering and no tick within the resolve delay saw it |
| `IncidentRuns.TimesStayOrdered` | internal/incidents/engine.go:469-495 | in every run start, last sighting and update are ordered and not in the future, and the recovering and resolved stamps are set exactly as the status requires |
| `IncidentRuns.NotificationsAlternate` | internal/incidents/engine.go:499-539 | in any run, failed writes included, the notifications of one incident strictly alternate, and the first is a resolution exactly when it was open at boot |
| `IncidentRuns.RebuildKeeps` | internal/incidents/engine.go:544-566 | after a rebuild the cache is again the store's unresolved rows, one per family, and a family open before and after is the same incident |
| `IncidentEngine.MemoryStore.ReplaceNonResolved` | internal/incidents/store.go:37-49 | resolved rows stay, unresolved ones go, then the given rows are written in order |
| `IncidentEngine.MemoryStore.ListActive` | internal/incidents/store.go:61-72 | exactly the unresolved rows |
| `IncidentEngine.FindByFamilyIn` | internal/incidents/engine.go:926-933 | an open incident of that environment and family, or none if there is none |
| `IncidentEngine.DeriveFound` | internal/incidents/engine.go:193-265 | one row per detection, keeping the identity of an open incident |
| `IncidentEngine.DeriveMissing` | internal/incidents/engine.go:469-495 | exactly the transitions of the unseen incidents, each once, in an arbitrary order |
| `IncidentEngine.Engine.ApplyLive` | internal/incidents/engine.go:499-539 | store, cache and notifications become those of the applied rows, up to a failed write; from a consistent state and rows that fit it, the cache is again the store's unresolved rows, one per family |
| `IncidentEngine.Engine.RunTick` | internal/incidents/engine.go:173-191 | a tick of the object is a step of the incident system |
| `IncidentEngine.Engine.ApplyRebuild` | internal/incidents/engine.go:544-566 | store and cache become those of a rebuild |
| `Text.EscapeRoundTrip` | internal/ingest/plan_ref.go:169-174 | decoding a JSON Pointer token undoes encoding for every key (sections 3 and 4 of RFC 6901) |
| `Text.PointerRoundTrip` | internal/ingest/plan_ref.go:329-345 | splitting and decoding a pointer gives back its tokens |
| `Text.AtoiRoundTrip` | internal/ingest/plan_ref.go:159-163 | reading a printed array index gives it back |
| `Text.AtoiSigned` | internal/ingest/plan_ref.go:99-104 | a sign counts, and only an optional sign and digits are read |
| `PlanRef.RefRoundTrip` | internal/ingest/plan_ref.go:37-109 | every well-formed reference survives formatting and parsing |
| `PlanRef.ParsedRef` | internal/ingest/plan_ref.go:37-109 | only the prefix, a step id up to the first closing quote, ".result" and a path parse as a reference |
| `PlanRef.ParsedPath` | internal/ingest/plan_ref.go:74-109 | only fields after dots and integers in brackets parse as a path |
| `PlanParams.WalkForRefs` | internal/ingest/plan_ref.go:138-167 | fails exactly if some string mentions a reference without being one; otherwise lists exactly the reference leaves, each once, with its pointer, in any map order |
| `PlanParams.WalkItems` | internal/ingest/plan_ref.go:158-164 | the same for the items of an array |
| `PlanParams.WalkFields` | internal/ingest/plan_ref.go:151-157 | the same for the fields of an object, visited in any order |
| `PlanParams.FindRefs` | internal/ingest/plan_ref.go:126-136 | the same for a whole parameter tree |
| `PlanParams.LeavesNotNested` | internal/ingest/plan_ref.go:138-167 | no reference leaf's place is a prefix of another's |
| `PlanParams.ContainsExactly` | internal/ingest/plan_ref.go:141-144 | a string mentions a reference exactly if the prefix occurs in it |
| `PlanParams.ResolveRefExact` | internal/ingest/plan_ref.go:244-290 | a reference resolves exactly to the value at its place in the output of the step it names; a path must not meet null |
| `PlanParams.SubstPlace` | internal/ingest/plan_ref.go:294-325 | the substitution keeps the shape of objects and arrays and every leaf that is not a reference |
| `PlanParams.SubstRef` | internal/ingest/plan_ref.go:294-325 | at each reference leaf the substituted tree holds the value at the place it names |
| `PlanParams.SetAtPointerIsPut` | internal/ingest/plan_ref.go:329-382 | at any place of a tree, setting by pointer never fails and is the structural update |
| `PlanParams.PutExtends` | internal/ingest/plan_ref.go:306-325 | setting one more listed reference extends the partial substitution by exactly that place |
| `PlanParams.ResolveParamsIsSubst` | internal/ingest/plan_ref.go:294-325 | for the references in any order found, setting them one by one fails only if one does not resolve, and gives the one-pass structural substitution |
| `PlanParams.ResolveParams` | internal/ingest/plan_ref.go:294-325 | the loop computes that one-by-one setting |
| `Plan.ValidatePlan` | internal/ingest/plan.go:107-196 | no error is reported exactly for the accepted plans: 1 to 10 steps, distinct non-empty ids, known tools, references only to earlier steps whose output admits the path, and no unknown parameter under a closed schema |
| `Plan.CheckStructure` | internal/ingest/plan.go:121-142 | no error exactly when ids are distinct and non-empty and tools are known |
| `Plan.IndexIds` | internal/ingest/plan.go:144-148 | every id is mapped to the position of the one step that has it |
| `Plan.CheckStep` | internal/ingest/plan.go:151-193 | no error exactly when the step's parameters decode, all its references are accepted and no parameter is unknown |
| `Plan.CheckRefs` | internal/ingest/plan.go:166-187 | no error exactly when every listed reference is accepted |
| `Plan.RefErrorExact` | internal/ingest/plan.go:162-188 | a reference passes exactly when it names an earlier step whose output schema admits its path |
| `Plan.NonRefParamsExact` | internal/ingest/plan.go:200-231 | going by pointers, the stripped top-level fields are exactly those that hold a reference |
| `Plan.AdmittedExactly` | internal/ingest/plan_ref.go:191-238 | a path is admitted exactly when every description on its way has no combiner, the right type, and the next field if it lists any |
| `Plan.RefAdmittedCorners` | internal/ingest/plan_ref.go:180-189 | the whole output is always admitted, and so is everything without a schema or with a null one; a schema that is not an object admits nothing else |
| `Plan.RefusedExactly` | internal/ingest/plan.go:239-268 | an input is refused exactly if the schema forbids further properties and a top-level field without references is not among its properties |
| `PlanRun.Execute` | internal/ingest/handler.go:1374-1446 | each result is its step's outcome on the outputs before it; a halt at i has i+1 results, Completed i and status failed or partial; a full run has Completed equal to Total; and the store receives exactly the events of the plan's log |
| `PlanRun.BindParams` | internal/ingest/handler.go:1396-1411 | collecting and resolving references gives the substituted parameters, or fails exactly when they are malformed or one does not resolve |
| `PlanRun.RunStep` | internal/ingest/handler.go:1392-1430 | the step's outcome on the bound parameters: a reference failure, the handler's error or its result |
| `PlanRun.StepOutcomes` | internal/ingest/handler.go:1396-1430 | a step has the result or error of its tool's handler called with the bound parameters, or fails to resolve, or is told that there is no such tool |
| `PlanRun.BoundCorners` | internal/ingest/handler.go:1392-1396 | absent parameters are bound to the empty object, malformed ones never |
| `PlanRun.ReferencedStepPresent` | internal/ingest/handler.go:1396-1411 | in an accepted plan, every reference of an executed step finds the output of the earlier successful step it names |
| `PlanRun.OnlyDeadPathsFail` | internal/ingest/handler.go:1396-1430 | in an accepted plan a step fails to resolve if and only if the path of some reference is absent from, or null in, an output that exists; any other error is one its handler raised |
| `PlanRun.PlanLogFits` | internal/ingest/plan_store.go:154-230 | the log of an accepted plan is the start and the end of each step reached, in order, and then done: at most 21 events |
| `PlanRun.SentByPlan` | internal/ingest/handler.go:1374-1473 | what a run sends to the store is that log |
| `PlanRun.StoredLogComplete` | internal/ingest/plan_store.go:154-230 | in every run of the store that the plan is still in, whatever other plans do, its log is complete: the cap drops nothing |
| `PlanStore.LogIsSent` | internal/ingest/plan_store.go:154-230 | while a plan stays stored its log is what it sent, cut at 21 events, under any interleaving with other plans |
| `PlanStore.RunKeeps` | internal/ingest/plan_store.go:56-72 | in every run the order lists exactly the stored plans, each once, at most 100 |
| `PlanStore.VictimFacts` | internal/ingest/plan_store.go:250-279 | the plan evicted from a full store is the oldest one that is not running, or the oldest if all run |
| `PlanStore.CompletedEntry` | internal/ingest/plan_store.go:182-230 | completion records status, result and time and appends done below the cap; other plans are untouched |
| `PlanStore.CreatedEntry` | internal/ingest/plan_store.go:56-72 | a new plan is running with an empty log and last in order; a closed store takes none |
| `PlanStore.ReadWithin` | internal/ingest/plan_store.go:75-87 | a plan is read for five minutes after it completed and then deleted; a running one is always read |
| `PlanStore.PlanStore.Create` | internal/ingest/plan_store.go:56-72 | makes room, then adds a running plan with an empty log; a closed store is unchanged |
| `PlanStore.PlanStore.Publish` | internal/ingest/plan_store.go:154-179 | appends to the log of a stored plan below the cap, and changes nothing else |
| `PlanStore.PlanStore.Complete` | internal/ingest/plan_store.go:182-230 | records done, status, result and time for a stored plan, and changes nothing else |
| `PlanStore.PlanStore.Get` | internal/ingest/plan_store.go:75-87 | a plan completed longer ago than five minutes is deleted and not returned |
| `PlanStore.PlanStore.EvictLocked` | internal/ingest/plan_store.go:250-279 | leaves room for one plan by removing exactly that victim |
| `PlanStore.PlanStore.DeleteLocked` | internal/ingest/plan_store.go:283-299 | removes the plan from table and order, and nothing else |
| `SchemaInline.InlinedExactly` | internal/tools/registry.go:78-114 | with good definitions, mutually recursive or not, the walk leaves no reference if and only if each of the node's own names a definition |
| `SchemaInline.InlineRefsExact` | internal/tools/registry.go:58-74 | with good definitions, inlining that does not panic ends without references if and only if the root's own are good |
| `SchemaInline.PanicsExactly` | internal/tools/registry.go:58-74 | inlining panics if and only if the schema has definitions and the root's chain of references ends in something that is not an object |
| `SchemaInline.PanicsAt` | internal/tools/registry.go:58-74 | it does for a root that refers to a definition that is true |
| `SchemaInline.InlinedIsFollowed` | internal/tools/registry.go:78-114 | the inlined schema has at each place what following the references step by step finds there |
| `SchemaInline.NothingToInline` | internal/tools/registry.go:78-114 | a schema without references is left as it is |
| `SchemaInline.BadRefsStay` | internal/tools/registry.go:78-123 | in any node and under any definitions, a reference that names no definition, has an empty name or is not a string stays behind |
| `SchemaInline.SelfReference` | internal/tools/registry.go:86-88 | a definition that refers to itself becomes {"type": "object"} |
| `SchemaInline.RootFieldsKept` | internal/tools/registry.go:67-69 | unless the root is itself a reference, it loses its definitions and no other field |
| `SchemaInline.RefNameExactly` | internal/tools/registry.go:117-123 | only "#/$defs/" and a name names a definition |
| `SchemaInline.FewerLeft` | internal/tools/registry.go:96-101 | following a reference leaves fewer definitions to expand, which with the node's size makes the walk end |
| `IdempotencyCache.StoredKeeps` | internal/ingest/dedup.go:282-299 | storing keeps list and table in bijection with at most 1000 keys, holds the new entry and changes no other |
| `IdempotencyCache.TrimmedKeeps` | internal/ingest/dedup.go:287-295 | evicting from the front leaves room and only removes entries |
| `IdempotencyCache.TouchedIsNewest` | internal/ingest/dedup.go:183 | a key that was used becomes the newest, and the order of the others stays |
| `IdempotencyCache.StoredOrder` | internal/ingest/dedup.go:287-298 | a new key is the newest, after the oldest was dropped from a full cache |
| `IdempotencyCache.DedupCache.EvictExpired` | internal/ingest/dedup.go:75-88 | removes exactly the entries that expired before now and keeps the order of the rest |
| `IdempotencyCache.DedupCache.StoreLocked` | internal/ingest/dedup.go:282-299 | the LRU becomes the specified one |
| `IdempotencyCache.DedupCache.Acquire` | internal/ingest/dedup.go:172-225 | the locked part answers hit, conflict, ownership or a flight to wait for, and changes cache and table as specified |
| `IdempotencyCache.DedupCache.Complete` | internal/ingest/dedup.go:249-280 | finishes the pending execution of the key, caches a cacheable response, and frees the key |
| `Idempotency.RunKeeps` | internal/ingest/dedup.go:168-299 | the invariant holds in every interleaving of arrivals, acquisitions, wake-ups, cancellations, completions and sweeps |
| `Idempotency.OneOwner` | internal/ingest/dedup.go:210-221 | at any moment at most one request executes a key |
| `Idempotency.PendingNotCached` | internal/ingest/dedup.go:249-280 | a pending key has an executing owner and is never also cached; list and table are in bijection with at most 1000 keys |
| `Idempotency.LiveEntryAnswers` | internal/ingest/dedup.go:176-186 | at any moment of any run, a request that meets a live entry of its key gets that entry if the bodies agree and is refused if not, and no execution starts |
| `Idempotency.NoLiveEntryExecutes` | internal/ingest/dedup.go:208-225 | without a live entry it waits for the execution of its key that is under way, or else becomes its executor |
| `Idempotency.ReplaysAreLive` | internal/ingest/dedup.go:176-206 | an acquisition replays only entries that have not expired |
| `Idempotency.CachedFor` | internal/ingest/dedup.go:102-119 | a response is cached with its body for five minutes after 200, 400 or 422, for thirty seconds after 404, and not at all otherwise |
| `Idempotency.WakerAnswers` | internal/ingest/dedup.go:228-239 | a waiter that wakes gets its execution's entry if the bodies agree and is refused if not |
| `Idempotency.ReplaysMatch` | internal/ingest/dedup.go:168-242 | every entry handed to a request was produced by an execution of the same key with the same body |
| `Idempotency.RefusalsJustified` | internal/ingest/dedup.go:179-231 | a conflict is reported only if another request executes or executed the key with a different body |
| `Idempotency.WaitersProgress` | internal/ingest/dedup.go:224-241 | a waiter can wake, or the owner it waits for is still executing |
| `GroupCommit.RunKeeps` | internal/eventlog/writer.go:129-237 | the invariant holds under every interleaving of writers, commit loop, rotation and Close, with any call failing |
| `GroupCommit.NilMeansDurable` | internal/eventlog/writer.go:129-145 | in sync mode a write that returned nil is in the fsynced part of a file at that moment and at every later one |
| `GroupCommit.LogInQueueOrder` | internal/eventlog/writer.go:180-198 | entries appear over all files in the order they were queued, each at most once |
| `GroupCommit.AckedAtMostOnce` | internal/eventlog/writer.go:195-197 | an acknowledgement goes only to a request that has none |
| `GroupCommit.OneFsyncPerBatch` | internal/eventlog/writer.go:164-198 | the batches hold 1 to 256 requests each and together exactly the received ones; each has at most one commit fsync, none outside sync mode, and exactly one if its requests were told nil in sync mode |
| `GroupCommit.AckIsOfBatch` | internal/eventlog/writer.go:180-198 | every acknowledged request is in a batch that records the same answer |
| `GroupCommit.NilCostsOneFsync` | internal/eventlog/writer.go:180-198 | in sync mode a request told nil was in a batch of at most 256 with exactly one commit fsync |
| `GroupCommit.StoppedAnswersAll` | internal/eventlog/writer.go:218-228 | when the goroutine stops, every received request has been answered |
| `GroupCommit.AllToldNil` | internal/eventlog/writer.go:180-198 | in a run in which no encode, fsync or rotation fails, every acknowledgement is nil |
| `GroupCommit.SealedWhenDone` | internal/eventlog/writer.go:164-176 | a batch is committed only once it has 256 requests or nothing is queued |
| `GroupCommit.StaysOrderly` | internal/eventlog/writer.go:129-161 | the goroutine drains only after Close, and a write is told that the log is closed only after it stopped |
| `WalFraming.RoundTripExact` | internal/eventlog/v2/writer.go:48-74 | replaying a written file gives back exactly the trimmed records if and only if each is non-empty once trimmed, has no newline inside and at most 2^20 bytes |
| `WalFraming.NewlineSplits` | internal/eventlog/v2/writer.go:48-74 | two records joined by a newline and written as one come back as two |
| `WalFraming.ReadLine` | internal/eventlog/v2/replay.go:108-131 | for every fragmentation the result is the next line trimmed, flagged when over the limit, with the reader aligned on the next one |
| `WalFraming.ReplayFile` | internal/eventlog/v2/replay.go:68-105 | exactly the non-empty lines within the limit are delivered, in order, up to the first one that the callback refuses |
| `WalFraming.LogRoundTrip` | internal/eventlog/v2/writer.go:48-74 | however the records were spread over rotated files, reading the files in order of creation gives them all back, trimmed and in order |
| `WalDirectory.ReadInOrder` | internal/eventlog/v2/replay.go:41-57 | replay reads the files in order of creation if and only if their times do not decrease and the names of files with equal times ascend |
| `WalDirectory.DirectoryRoundTrip` | internal/eventlog/v2/replay.go:41-57 | then it gives back all records in the order in which they were written |
| `WalDirectory.NothingLost` | internal/eventlog/v2/replay.go:41-57 | whatever the times and names, it loses and repeats no record |
| `WalDirectory.NamesOfOneSecond` | internal/eventlog/v2/writer.go:111-118 | the names made within one second do not ascend: "T-1" comes before "T", and "T-10" before "T-9" |
| `WalDirectory.SameSecondSwaps` | internal/eventlog/v2/replay.go:44-49 | two such files with equal times are read in the wrong order |
| `WalFraming.Writer.WriteRaw` | internal/eventlog/v2/writer.go:48-74 | the log grows by exactly that record if the writer is open and the write succeeds, otherwise not at all; success implies both, the fsync if asked for, and an active file below its size limit |
| `WalFraming.Writer.Rotate` | internal/eventlog/v2/writer.go:99-109 | rotation never changes the records, and success leaves the writer open |
| `NdjsonBody.ParseNdjson` | internal/ingest/v2/parse.go:91-111 | exactly the non-blank lines, trimmed of Unicode white space, unless there are more than 256 |
| `NdjsonBody.EventsSurvive` | internal/ingest/v2/parse.go:91-111 | every event of a body within the size limit survives the log |
| `NdjsonBody.LinesRoundTrip` | internal/ingest/v2/parse.go:91-111 | trimmed events joined line by line come back as they are |
| `NdjsonBody.TrimmedEnds` | internal/ingest/v2/parse.go:101 | a trimmed line neither starts nor ends with white space |
| `NdjsonBody.AsciiSpaces` | internal/ingest/v2/parse.go:101 | of the single bytes, tab, line feed, vertical tab, form feed, carriage return and space are white space |
| `MinuteRing.RingExact` | internal/ingest/handler.go:65-82 | for windows up to two hours the slots sum to the recorded totals if and only if the window does not reach a minute the ring has reused; then the errors are exact too |
| `MinuteRing.CutoffOf` | internal/ingest/handler.go:71 | a window of at most 119 minutes never reaches a reused minute, one of at most 120 reaches at most one |
| `MinuteRing.MinuteByClock` | internal/ingest/handler.go:49 | minute m lasts from m to m + 1 times sixty seconds |
| `MinuteRing.SlotAfter` | internal/ingest/handler.go:48-63 | recording an event, also one up to 119 minutes late, changes its own slot alone, and that slot then holds the counts of its latest minute |
| `MinuteRing.TwoHoursCanLose` | internal/ingest/handler.go:65-82 | a window of exactly 120 minutes can lose a recorded minute |
| `MinuteRing.UnsampledCounters.Inc` | internal/ingest/handler.go:48-63 | every slot keeps holding the counts of the latest minute recorded in it, for calls up to 119 minutes out of order |
| `MinuteRing.UnsampledCounters.Sum` | internal/ingest/handler.go:65-82 | for windows up to 120 minutes exact if and only if no slot since the cutoff was reused; with nothing recorded after now, exact up to 119 minutes and with the exact condition up to 120; zero beyond |

## Left out

- HTTP handlers, authentication, metrics, logging, server-sent events, LLM and MCP code: plumbing around the core.
- SQLite storage, JSON Schema validation, protobuf and gzip: foreign libraries. The in-memory store stands for the store.
- Nil events in traces; `OrderTrace` and the anchor skip them.
- The anchor of a trace without failures (selectTraceRoot), which may read a partly built graph; suppressed-event options.
- Depth values on cyclic graphs: they depend on map order there, so depth claims assume acyclic links. The other graph claims do not.
- HotIndex.RecentIndex.ApplyAggregates: service nodes carry a count in the model that the program's nodes do not have; the program's stamps are modelled. Cloning of events is not.
- Partial WAL writes: a write either adds its whole record or nothing.
- CrashRecovery.AcknowledgedIsDurable: WAL retention, which deletes files older than a configured age (internal/eventlog/retention.go:14-49), is not modelled; the claims are about the records not yet deleted.
- CrashRecovery.RunKeeps: a failed projection is taken to fail before it touches the index.
- CrashRecovery.DedupSurvivesRestart: after a failed projection, a write that failed after reaching the file, or a replay that dropped one of the newest records, only the index claims are made; a replay that skips files or reads them out of order is not covered.
- GroupCommit.NilMeansDurable: a successful fsync is taken to make the whole file durable, also after an earlier failed one. A failed encode adds nothing.
- GroupCommit.RunKeeps: the commit goroutine is modelled as steps, not as an object with loops; whether a file is due for rotation is a free choice.
- Ingest.Handler.IngestRaw: validation and decoding are outcomes of each body, and a handler without a projector is not modelled.
- Reader.SearchEvents: cursors are their decoded fields; their JSON and base64 encoding and the int64 range of nanoseconds are not modelled. The zero time stands for an open bound.
- Reader.RecentTraces: the services, status and anchor text of a summary are not modelled; whether an anchor exists is.
- ErrorRollup.BuildRows: affected users and sample traces of a row are not modelled; they are functions of the affected traces, and would only add easy members.
- ErrorRollup.BlastTraces: users, services and samples of a blast radius are not modelled, for the same reason.
- Trace stories and percentiles: aggregation without further invariants.
- Incidents.DerivedRowsOk: detectors (thresholds, baselines, lifts, pending traffic), evidence and classification are inputs: a tick receives its detections, of distinct families.
- IncidentRuns.RebuildKeeps: a rebuild may drop a recovering incident that is not yet due, as the code does.
- PruneResolvedOlderThan and the sort order of listed incidents.
- PlanRef.RefRoundTrip: strings are sequences of characters; the reference parser works on bytes.
- PlanParams.ResolveParams: the parameter tree is a value; the program updates it in place and re-encodes it.
- Plan.ValidatePlan: error messages are constructors, and schemas and parameters are decoded JSON.
- PlanRun.Execute: durations, contexts and results that cannot be encoded as JSON are not modelled. A tool handler is a function of the step number, the tool and its parameters.
- PlanStore.PlanStore.Create: generated ids are taken to be new. Subscribers and their channels are not modelled.
- Plan templates.
- IdempotencyCache.DedupCache.Acquire: copies of entries always succeed; the unused direct Store is left out. The owner recorded with each execution is not in the program.
- MinuteRing.UnsampledCounters.Inc: counters do not wrap at 64 bits, and no call is two hours or more behind a recorded one.
- Rate limiting and the client library.
