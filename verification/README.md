# storectrl: a verified model of the list/watch replication pipeline

storectrl lets Kubernetes controllers run against any store. Its heart is a
pipeline: a versioned store with a bounded event log, bounded watcher channels,
an informer cache with secondary indices, and a coalescing queue that feeds
event handlers. This project states that pipeline as state machines, proves
that every stage stays consistent with the fold of the store's complete
mutation history under every interleaving, and proves that the mutable objects
of the program do what the state machines say.

`dafny verify dfyconfig.toml` checks the whole project.

## How it is organised

| file | content |
|---|---|
| `Objects`, `Numbers` | keys, objects, drafts, events; decimal formatting and parsing |
| `History` | the untrimmed history of a store and the state it folds to |
| `StoreSpec`, `StoreProofs`, `StoreRuns` | the store as a state machine, its invariant, and what holds over every run |
| `EventLog` | the bounded log both stores keep |
| `Memory` | `MemoryStore` and `memoryWatcher` as classes, each method proved against `StoreSpec` |
| `FileLog` | the file store's log and revision counter across restarts |
| `QueueSpec`, `QueueProofs`, `QueueSummary` | the coalescing queue, its refinement of the events put into it, and exactly what a drain delivers |
| `InformerSpec`, `InformerProofs`, `IndexSpec`, `Confluence` | what an informer does with events, lists and stale events, and its indices |
| `Informer` | `eventQueue` and `storeInformer` as classes |
| `Pipeline`, `PipelineProofs`, `SelectorLimits` | store, watch loop, queue and handler as one state machine; convergence and handler consistency, and exactly when they hold |
| `InitialEvents` | the list-then-watch stream adapters |
| `Postgres`, `PgSequence`, `PgLeases`, `PgResume`, `CompositeVersion` | the fenced, sequenced write path, leases, resuming with per-object versions, composite version strings |

The central device is a ghost history that is never trimmed. The revision
counter is its length, the event log its end, the objects of a kind the fold of
that kind's events. A watcher, an informer and a handler are each described by
a position in that history. In `Pipeline` every atomic step of every goroutine
is a move (store calls by anybody, list, load, connect, receive, channel
closed, relist, resync, each single enqueue, drain, each single callback, close
of the queue), and a run is any sequence of enabled moves.

Modelling choices:

- Objects are immutable values; deep copies are therefore not visible. Resource
  versions are numbers. `spec` and `status` are encoded values that may be absent.
- The merge in `Update` and `UpdateStatus` decodes JSON over a copy of the
  caller's object. The model keeps this at the level of whole fields and of
  single label and annotation entries: an absent field, or a map entry the
  decoded JSON lacks, keeps what the caller's object held.
- Label selectors are arbitrary predicates on labels; index extractors and
  transforms are arbitrary functions. Go's map iteration order is an arbitrary
  order. Each SQL statement is one atomic step; the database clock never goes back.
- Revision counters are unbounded in the memory store; `FileLog` keeps them
  within 64 bits because it parses them back.

Where the code and its documentation disagree, the model follows the code:

- `store.go:71-73` says an update with identical spec must not take a
  resource version. The code compares the caller's generation too, so identical
  content with another generation does (`UnsetGenerationBumpsRevision`);
  `NoOpIffNothingNew` gives the exact condition.
- `store.go:69-70` says `Update` ignores the caller's status. It does exactly
  when the stored object has one or the caller's has none (`UpdateKeepsStatus`,
  `UpdateCanSetAbsentStatus`). `UpdateStatusKeepsSpec` gives the conditions under
  which `UpdateStatus` keeps spec, labels and annotations;
  `UpdateStatusCanSetAbsentSpec` and `UpdateStatusCanAddMetadata` are stores
  where it does not.
- With a label selector an informer can be connected, caught up and wrong, an
  Added event can replace an older cached object, and a handler can be told to
  add an object it has. Each is impossible exactly when replays suffice: there
  is no selector, or it treats all label sets alike, or no key passes the other
  filters, or the store keeps no log (`ConvergesIffReplaysSuffice`; the failing
  runs are `MissesRelabelling`, `CreatesAgain` and `AddsTwice`).
- A lease epoch fences off older requests only until the bucket is released;
  after a release the epochs count from 1 again (`FencedUntilReleased`,
  `ReleaseRevivesEpoch`).
- An Added event that replaces an older cached object is reported to handlers
  as an add (`ReplacingAddIsIllegal`). Where replays suffice no run produces one
  (`AddedIsNew`).

## Model

| member | source | states |
|---|---|---|
| PipelineProofs.Convergence | cache.go:596-701 | in every interleaving, label selector or not as long as replays suffice, a synced informer holds exactly the filtered, transformed fold of its kind's history up to lastRV; with an open, drained watch that is the store's current objects, and a quiet handler has seen exactly those |
| PipelineProofs.HoldsExactlyWanted | cache.go:859-876 | a caught-up informer holds a key exactly when the store does and its namespace, labels, name and namespace terms are as configured, and then the transformed object |
| PipelineProofs.ConnectOpensOrRelists | cache.go:628-655 | connecting opens a watch from lastRV with the selected events since, or goes back to listing exactly when an event after lastRV is no longer held |
| PipelineProofs.ResyncRetells | cache.go:688-690 | a resync in the watch loop is about to tell each cached object again and changes nothing else |
| PipelineProofs.HandlerConsistency | cache.go:202-246 | in every run in which replays suffice, what the handler saw plus what is in delivery, pending and about to be enqueued folds to the cache, every event legal in turn; no key has more than two pending events |
| PipelineProofs.EveryCallbackIsLegal | cache.go:1234-1272 | at every callback of every run in which replays suffice: OnAdd only for a key the handler lacks, OnUpdate from the object it saw last, OnDelete for a key it has |
| PipelineProofs.MoveKeepsInv | cache.go:533-737 | each single step of store, producer, processor or shutdown keeps the invariant tying history, channel, cache, queue and handler |
| PipelineProofs.NextEvent | cache.go:668-687 | the next event in a watcher's channel is the next change of the kind's folded state after lastRV, and newer than all of it |
| PipelineProofs.SameVersionSameObject | cache.go:1208-1222 | cached views at any two revisions hold the same object under a key whenever they agree on its version, which the relist diff relies on |
| SelectorLimits.ConvergesIffReplaysSuffice | memory/store.go:520-528 | for every kind, configuration and log size: the cache is right whenever caught up in all runs, every callback is legal for what the handler has seen in all runs, and an Added event is for an uncached key in all runs, each if and only if there is no label selector, or it is constant, or no key is admitted, or the log size is 0 |
| SelectorLimits.MissesRelabelling | memory/store.go:509-528 | for every selector that tells two label sets apart, every admitted key and every log: a run ends connected and drained with an object cached that has left the selection |
| SelectorLimits.CreatesAgain | memory/watcher.go:51-65 | for the same, a run through an overflow close has an Added event next in the channel for a key still cached in an older version |
| SelectorLimits.AddsTwice | cache.go:1017-1042 | that run goes on to a state whose next callback is an add of an object the handler has already been told of |
| SelectorLimits.AddedIsNew | cache.go:1029-1034 | where replays suffice, an Added event next in the channel is for a key that is not cached |
| StoreRuns.RunKeepsInv | memory/store.go:101-206 | in every run the objects of each kind are the fold of its events, revisions are contiguous, the log holds the last min(revision, eventLogMax) entries and every watcher is gap-free |
| StoreRuns.ListPlusReplayIsCurrent | memory/store.go:145-149 | an earlier list plus an accepted replay from its revision is exactly the current objects; no listed version exceeds the list's revision |
| StoreRuns.ReplayIsExact | memory/store.go:694-725 | a replay is refused exactly when some event after r is no longer held, naming the oldest revision that is, and an accepted one is exactly the kind's events after r |
| StoreRuns.DeliveryIsGapFree | memory/watcher.go:31-65 | what a watcher was sent is always a prefix of the kind's history after its start, all of it while open; nothing is added once it is closed |
| StoreRuns.WatchStartsAtRequest | memory/store.go:509-543 | for every requested revision and selector: refused, changing nothing, exactly when an event after it is no longer held; otherwise a new open watcher at that revision or the current one with exactly the selected events since, in a channel of the right capacity |
| StoreRuns.WatchStartsNow | memory/store.go:512-543 | a watch without a revision always opens, empty, at the current revision, and changes nothing else |
| StoreRuns.WatchFromNowIsGapFree | memory/store.go:512-543 | over every run such a watcher is sent a prefix of the kind's events logged after it was opened, all of them while open |
| StoreRuns.SelectedExact | memory/store.go:520-528 | a selector lets through exactly the bookmarks and the events it accepts, in order |
| StoreRuns.ReceiveAndStop | memory/watcher.go:27-40 | receiving takes the oldest event of one watcher and stopping closes one, and nothing else changes |
| StoreRuns.StepKeepsWatcher | memory/store.go:630-643 | no step reopens a watcher, moves its start or takes back what it delivered |
| StoreRuns.ChangeNeedsNewest | memory/store.go:242-244 | a changing versioned write presents the revision of the key's newest event, across delete and re-create, and becomes the newest itself |
| StoreRuns.ConflictIffNotNewest | memory/store.go:456-465 | Conflict, NotFound and AlreadyExists exactly characterised by liveness of the key and its newest event; a refused call changes nothing |
| StoreRuns.AtMostOneChangePerVersion | memory/store.go:308-318 | in every run at most one change per key and presented version succeeds |
| StoreRuns.LivesBeginWithCreate | memory/store.go:177-206 | in every run a live object goes back to one successful create that stored the draft at its revision with generation 1, has been live since, and still has the UID it got then |
| StoreRuns.GeneratedUidsDiffer | memory/store.go:625-628 | in every run two creates that generate a UID give different ones |
| StoreRuns.NewUidNames | memory/store.go:625-628 | a generated UID is "uid-" and one more than the counter |
| StoreRuns.UidCounterCounts | memory/store.go:625-628 | in every run the counter is the number of UIDs generated, given UIDs not counted |
| StoreRuns.UpdateKeepsStatus | memory/store.go:264-294 | Update keeps the stored status exactly when it is present or the draft's is absent; keeps UID and key; takes spec, labels and annotations from the draft |
| StoreRuns.UpdateStatusKeepsSpec | memory/store.go:381-409 | UpdateStatus keeps the stored spec, labels and annotations each exactly under the condition stated; entry by entry the stored value wins; keeps UID, key and generation |
| StoreRuns.UpdateCanSetAbsentStatus | memory/store.go:269-286 | after creating any draft without status, Update stores whatever status it is given |
| StoreRuns.UpdateStatusCanSetAbsentSpec | memory/store.go:386-398 | after creating any draft without spec, UpdateStatus stores whatever spec it is given |
| StoreRuns.UpdateStatusCanAddMetadata | memory/store.go:397-398 | after creating any draft, UpdateStatus stores a label and an annotation under a key the draft did not have |
| StoreRuns.DeleteTellsLastObject | memory/store.go:467-483 | a delete logs and returns the stored object with only its version changed, and the key is gone |
| StoreRuns.CallsTouchOnlyTheirKey | memory/store.go:156-486 | no call changes an object of another kind or key |
| StoreRuns.GenerationCountsSpecUpdates | memory/store.go:301-306 | in every run a live object's generation is one plus the number of spec-changing Updates since its creation |
| StoreRuns.HistoryShowsSpecChanges | memory/store.go:397-409 | the spec changes the history shows are those Updates plus the specs UpdateStatus let in, so they account for the generation exactly when it let none in |
| StoreRuns.NoOpIffNothingNew | memory/store.go:296-299 | an accepted write leaves objects, history, log and channels unchanged exactly when the draft says nothing new, and logs one event otherwise |
| StoreRuns.UnsetGenerationBumpsRevision | memory/store.go:577-587 | after creating any draft, an Update with the same content and any generation other than 1 takes a revision and changes nothing but the version |
| StoreProofs.PublishKeepsInv | memory/store.go:680-692 | logging an event that can follow, with the objects changed to match, keeps state equal to history and every watcher gap-free |
| History.KindEventsExact | memory/store.go:718-724 | the events of a kind are exactly those logged for it, in order of revision |
| History.StateSound | memory/store.go:190-201 | an object of a folded state is the one its version was issued for |
| History.LiveVersionIsLastChange | memory/store.go:308-309 | a live object carries the revision of its key's newest event |
| Memory.MemoryWatcher.Send | memory/watcher.go:51-65 | appends if there is room, closes the channel exactly if it is full, ignores a closed channel |
| Memory.MemoryWatcher.Receive | memory/watcher.go:27-29 | takes the oldest buffered event; reports the end only when closed and empty |
| Memory.MemoryStore.LogEvent | memory/store.go:680-692 | after trimming the log is still the end of the full history |
| EventLog.Append | memory/store.go:681-691 | appending and trimming leaves the end of the longer history, of the length the maximum allows |
| EventLog.EventsSince | memory/store.go:696-725 | scanning the trimmed log answers exactly as the full history would |
| Memory.MemoryStore.SendAll | memory/store.go:634-641 | every open watcher of the list gets the event, and those that were open stay registered |
| Memory.MemoryStore.NotifyWatchers | memory/store.go:630-643 | all watchers of the kind ever opened end as if each had been sent the event; every open one stays registered |
| Memory.MemoryStore.RemoveWatcher | memory/store.go:645-657 | a stopped watcher leaves its list and no open watcher does |
| Memory.MemoryStore.Stop | memory/watcher.go:31-40 | closing and unregistering is the state machine's stop |
| Memory.MemoryStore.Create | memory/store.go:156-206 | the new state and reply are those of the state machine: version, UID, generation 1, log and notification, or AlreadyExists with nothing changed |
| Memory.MemoryStore.Update | memory/store.go:211-323 | the new state and reply are those of the state machine, errors and no-op included |
| Memory.MemoryStore.UpdateStatus | memory/store.go:328-431 | likewise, with the generation kept |
| Memory.MemoryStore.Delete | memory/store.go:434-486 | likewise, conditional on the version only if one is given |
| Memory.MemoryStore.List | memory/store.go:101-153 | each object that passes the filters exactly once, at the current revision |
| Memory.MemoryStore.Preload | memory/store.go:530-540 | the replay fits the channel it is put in, so no send under the lock blocks |
| Memory.MemoryStore.Watch | memory/store.go:492-544 | replay, channel and registration are one step of the state machine, or a refusal that changes nothing; without a revision the channel is open and empty |
| FileLog.FileStore.Restart | filesystem/store.go:64-77 | the counter comes back from disk, the log is empty, and both still agree with the history over all restarts |
| FileLog.FileStore.LoadRevision | filesystem/store.go:628-638 | a readable counter is taken over, anything else leaves it alone |
| FileLog.TrimSpaceExact | filesystem/store.go:633 | white space at both ends goes, and nothing else |
| FileLog.FileStore.Record | filesystem/store.go:218-244 | a successful write takes the next revision, persists it and keeps the log the end of the history |
| FileLog.FileStore.EventsSince | filesystem/store.go:661-690 | what is left of the log answers as the full history would |
| FileLog.Drive | filesystem/store.go:628-659 | a file store driven through any writes and restarts, its counter printed and parsed each time, ends with the full numbered history and the log a restart and the window leave |
| FileLog.ReplayAcrossRestarts | filesystem/store.go:647-690 | after any such run, that store's replay is refused exactly when some event after r predates the last restart or left the window, and otherwise is all of them |
| QueueProofs.QueueRefinesInput | cache.go:202-272 | for every legal event sequence and every placement of drains, drained plus pending events are legal and fold to what was enqueued; at most two pending per key |
| QueueSummary.DrainTellsNetChanges | cache.go:202-272 | for every legal event sequence and every placement of drains, a drain delivers exactly the net change of each key put since the last drain, keys in the order first put; a delete carries the object that first went away, an add the mark of the last add |
| QueueSummary.JoinSummarises | cache.go:233-246 | coalescing one more event into the net change of a key's events gives the net change of them all |
| QueueSummary.FirstSeenExact | cache.go:1248-1254 | first-seen order has every key once and is only ever extended by later keys |
| QueueProofs.EnqueueKeepsInStep | cache.go:202-246 | coalescing keeps every key in one of five shapes between handler, pending events and published object |
| QueueProofs.DeliveriesReach | cache.go:1248-1270 | delivering a batch is legal event by event and ends at the published objects, whatever stale or duplicate keys the order holds |
| QueueProofs.DeliveredExactlyOnce | cache.go:1248-1254 | each pending key's events are delivered once, in order, and nothing else is |
| Informers.EventQueue.Enqueue | cache.go:202-231 | the new queue is the specified one: append, cancel or coalesce, nothing once closed |
| Informers.EventQueue.Drain | cache.go:256-272 | everything pending leaves at once; the end is reported only when closed and empty |
| Informers.ProcessBatch | cache.go:1248-1270 | the calls made are the batch in first-seen key order, each key once |
| InformerProofs.EventTracks | cache.go:1017-1116 | an add, update or delete moves the cache exactly as the event moves the store's objects, with events that legally explain the move |
| InformerProofs.ReplacedIsCached | cache.go:1171-1189 | a relist leaves exactly the filtered, transformed view of the listed objects |
| InformerProofs.MatchesIffWanted | cache.go:859-876 | the filter lets in exactly the objects whose namespace is configured or all are, whose labels the selector accepts and whose name and namespace meet every term, other fields counting as empty |
| InformerProofs.ReplacedKeepsWanted | cache.go:1171-1186 | a key is in the relisted cache exactly when one of its items passes the filter and its transform succeeds |
| InformerProofs.ReplacedIsLastKept | cache.go:1171-1186 | and then it is the last such item, transformed |
| InformerProofs.DiffTellsEachKey | cache.go:1199-1223 | in any iteration order a relist tells each key once: deleted with the old object, added as initial, updated when the version differs, or nothing |
| InformerProofs.ResyncTellsEachKey | cache.go:711-717 | in any iteration order a resync tells each cached key once as an update from itself, and no other key |
| InformerProofs.DiffExplains | cache.go:1199-1223 | a relist's events, in any iteration order, legally take a handler from the old cache to the new one |
| InformerProofs.ResyncExplains | cache.go:703-718 | a resync's events are legal and leave the handler where it was |
| Confluence.KeepsNewest | cache.go:1029-1034 | under any arrivals each key ends with a candidate of the greatest version, and is cached exactly when it had one |
| Confluence.NeverGoesBack | cache.go:1075-1081 | a cached version never decreases under Added and Modified events |
| Confluence.SameArrivalsSameCache | cache.go:1432-1439 | two sequences of the same arrivals, in any order and with any repeats, leave the same cache |
| Confluence.ReplacingAddIsIllegal | cache.go:1030-1041 | an Added event is legal for a handler in step exactly when it does not replace a cached object |
| Informers.StoreInformer.Add | cache.go:1017-1042 | an object that is asked for, transformed and newer than the cached one replaces it and is enqueued as an add; anything else changes nothing; indices agree with the objects |
| Informers.StoreInformer.Update | cache.go:1044-1097 | a newer object that is no longer asked for removes the cached one and enqueues its delete; one asked for is added or updated if newer; anything else changes nothing |
| Informers.StoreInformer.Delete | cache.go:1099-1116 | the key leaves the cache whatever its version, and a cached object is enqueued as deleted |
| Informers.StoreInformer.HandleEvent | cache.go:668-687 | lastRV becomes the larger of itself and the event's version, and the event is dispatched by type |
| Informers.StoreInformer.ReplaceAll | cache.go:1171-1224 | the cache holds exactly the items asked for and transformed, the last per key; indices agree; what is pending for each key is joined by its difference |
| Informers.StoreInformer.Resync | cache.go:703-718 | what is pending for each cached key is joined by an update from itself; other keys are left alone |
| Informers.StoreInformer.AddIndexer | cache.go:1118-1134 | a newly registered index agrees with a scan of the objects |
| Informers.StoreInformer.RebuildIndicesForObject | cache.go:1136-1151 | after re-indexing a key every index agrees with the changed objects |
| Informers.StoreInformer.RemoveFromIndices | cache.go:1153-1169 | the key leaves every bucket and empty buckets disappear |
| Informers.StoreInformer.MatchingKeys | cache.go:962-998 | intersecting buckets leaves exactly the keys a scan would keep, missing index or bucket included |
| Informers.StoreInformer.ListFromIndex | cache.go:962-1015 | a cached object is listed, once, exactly when every equality requirement is on a registered index and the index extracts the value from it |
| IndexSpec.ForgetAgrees | cache.go:1153-1169 | dropping a key from cache and index keeps them in agreement |
| IndexSpec.AddAgrees | cache.go:1141-1150 | adding an object to cache and index keeps them in agreement |
| InitialEvents.RunAdapter | listerwatcher.go:249-299 | the output is one ADDED per item, the bookmark, and the selected live events in order, cut only where the room ends; with room and no selector all of the inner events follow the bookmark |
| InitialEvents.Relay | listerwatcher.go:177-212 | the relayed events are the selected inner events in order, cut only where the room ends |
| InitialEvents.StreamIsListThenTail | listerwatcher.go:90-118 | over every run of the store the output is a prefix of the listed items, an end-of-list bookmark at the list's revision and every later event in order, as long as the room allows; after the bookmark it folds to the state at the last revision emitted, with room left at the last revision received, and to the current objects when the watch is open and drained |
| PgTables.Database.PgctlWrite | postgres/testdata/schema.sql:104-202 | fence, suppression, counter and upsert step by step give the specified tables and reply; a raise leaves counter and rows as they were |
| PgSequence.SequenceConservation | postgres/testdata/schema.sql:148-197 | in every run with assigned buckets, versions in a bucket sum to its counter, version <= sequence <= counter for every row, and sequences are distinct |
| PgSequence.ConservedIffAtHome | postgres/testdata/schema.sql:148-167 | a changing write keeps the sums exactly when it creates its row or goes to the row's own bucket |
| PgSequence.WriteAdvances | postgres/testdata/schema.sql:119-201 | a changing write takes the next number and one version; an error or suppressed write takes neither |
| PgSequence.WriteTakesEffect | postgres/testdata/schema.sql:119-201 | after every reply but an error the row has what the request wrote; the reply says unchanged exactly when the write was not forced and the row had all of it before |
| PgSequence.WriteRaisesExactly | postgres/testdata/schema.sql:106-197 | the exact condition of each error: fence, status without version, existing row, version conflict; a raise changes nothing |
| PgSequence.RowTellsItsWrites | postgres/testdata/schema.sql:156-197 | in every run a row's version is the number of changing writes to it, the m-th of which expected version m; UID and bucket are the first one's, the status the last one's, spec, metadata and deletion the last spec write's |
| PgLeases.RunKeepsPaired | postgres/store.go:574-644 | in every run a bucket's spec and status rows are both absent or the same lease |
| PgLeases.AcquireIsAllOrNothing | postgres/store.go:576-620 | an acquire takes both domains exactly when the bucket is free, expired or its own, and otherwise changes nothing |
| PgLeases.HandoverBetweenWriters | postgres/testdata/schema.sql:106-115 | between accepted writes of two holders, the first, while holding the lease, lost it by expiry or its own release, and then the second acquired both domains |
| PgLeases.EpochNeverDrops | postgres/store.go:580-586 | in every run a bucket's epoch never goes down while its holder does not release it |
| PgLeases.FencedUntilReleased | postgres/store.go:580-586 | in every run, if a request of an epoch that an acquire superseded passes the fence later, the holder released the bucket in between |
| PgLeases.ReleaseRevivesEpoch | postgres/store.go:638-644 | from every state, the holder releasing the bucket and acquiring it e times lets requests of epoch e through again |
| PgLeases.OneWriterAtATime | postgres/testdata/schema.sql:106-115 | all requests that pass the fence of a bucket at one moment carry one holder and one epoch |
| PgLeases.RenewExtends | postgres/store.go:622-636 | renewing moves the expiry of the holder's lease and of no other |
| PgTables.Database.AcquireBothLeases | postgres/store.go:574-620 | succeeds exactly when both rows are absent, expired or its own, and then both are its own, one epoch up; otherwise it keeps nothing and live rows of others are untouched; other buckets never change |
| PgTables.Database.RenewBothLeases | postgres/store.go:622-636 | extends exactly the rows of the bucket the holder owns, leaves all others as they were, and succeeds exactly when it owned both |
| PgTables.Database.ReleaseBothLeases | postgres/store.go:638-644 | exactly the rows of the bucket the holder owns go; all others stay as they were |
| PgResume.ResumeSkipsNothing | cache.go:673-677 | in every run lastRV is the largest of the list's position and the versions told since and never exceeds the sequence reached, and every row not known as it is lies past it, so a poll from lastRV reads it; with everything up to the head taken, exactly the rows are known |
| CompositeVersion.PrintThenParse | postgres/store.go:400 | parsing a printed version returns its epoch and the bucket's sequence, 0 if absent |
| CompositeVersion.PrefixNamesBucket | postgres/store.go:738-740 | a bucket's prefix starts that bucket's part and no other's, shared digits or not |
| CompositeVersion.ParseBucketHWM | postgres/store.go:729-746 | the loop over the parts is the specified parse, malformed input included |
| CompositeVersion.ParseMeans | postgres/store.go:730-745 | whatever the string: before the first bar the epoch with or without its e, after it the first part that starts with the bucket's prefix, malformed if either number is |
| CompositeVersion.SplitExact | postgres/store.go:739 | the parts hold no separator and join to the string |
| CompositeVersion.PrintedFormat | postgres/store.go:728 | the documented example is what printing gives |
| Numbers.FormatParse | postgres/store.go:734-741 | parsing undoes formatting on every 64-bit integer |
| Numbers.ParseExact | postgres/store.go:734-741 | a string parses to n exactly when n fits 64 bits and the string is a fitting sign, leading zeros and the digits of n |

## Left out

- FileLog.FileStore.Record: a failing file write, which leaves the counter ahead of the log, is not modelled.
- PgResume.ResumeSkipsNothing: the poller is not part of the repository; polls are assumed to read all rows past their cursor in ascending sequence order.
- Transforms that change an object's key or version, mutate their argument, or fail (failing transforms are modelled in the informer's operations but not in convergence).
- Partial decoding inside `spec` and `status`, and metadata other than labels and annotations.
- Handlers registered after the informer has started, and `RemoveInformer`.
- Delivery to a handler once its queue is closed, beyond the legality of what was already accepted.
- Label and namespace filtering after an index lookup, and index registration in bulk.
- Objects in the file store: only its log and counter are modelled.
- Compaction in the Postgres backend, the bridge client, and the mapping of its errors.
- Timers, backoff, contexts, and everything about progress.
- `client.go`: patching and bulk deletion compose store calls with an external patch library.
