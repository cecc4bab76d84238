# Verification of the event router, the client initialisation and the CRUD handler

A Dafny 4.11 model of the stateful parts of the Seastar/MongoDB starter, with proofs about whole
runs of them. `dafny verify dfyconfig.toml` checks everything.

What is modelled, module by module:

- **EventRouter, RouterTraces, RouterGuards** (`INCLUDE/EVENTS.h`). The handle allocator as it is
  written: `attach` returns `next_handle++` and stores with `emplace`, which keeps an entry that is
  already there; `detach` decrements the counter whenever it erases. Unique handles are *not* a
  property of this code: attach 1, 2, 3, detach 1, attach again, and the new caller is told 3 while
  its handler is dropped (`OutOfOrderDetachLosesNextHandler`). The proofs say what every run keeps,
  what any burst of detaches and attaches does, and exactly when nothing is lost. Guards are then
  followed through any order of creation and destruction, with aliased handles and raw calls mixed
  in. That a guard's destructor removes only its own handler fails too, against another guard
  (`AliasedGuardStealsHandler`) and against a raw caller (`GuardStealsRawHandler`). It holds for every
  live guard exactly while no two live guards share a live handle and no raw handler is stored under
  a live guard's handle (`DestroysHarmlessExactly`); with guards alone the first half is enough.
  Entries carry a tag naming who attached them; no step reads it.
- **InitProtocol, InitOutcomes, InitSchedules, InitFaults, DBClients** (`INCLUDE/DB/DBClients.h`). The log phase
  of `Init` as a protocol of n shards over one collection and one static flag. Each driver call and
  each flag access is one atomic step, any shard may move next, any driver call may throw. Two things
  a caller may expect fail even when the database never does. One record per shard is guaranteed only
  for a single shard (`OneRecordEachGuaranteedExactly`), and success is guaranteed only when CONN_LOG
  existed or there is at most one shard (`SureToSucceedExactly`, with a failing schedule of four turns
  in `TwoLookersRefuseOne`; three never fail). The exact sets of possible endings, with and without
  database faults, and the outcome of running shards one after another are proved as well.
  `DBClients.Init` then runs the three phases imperatively and sets the two flags.
- **Bson, MongoStore, MongoInterface, CrudHandler, CrudRequests, CrudReplies, CrudRuns,
  IndexInvariant, CrudUndo** (`main.cc`, `INCLUDE/DB/MongoInterface.h`). `crud_handler::handle` with its nested switches and two catch
  levels, over the operations of `MongoDBInterface` with their search loops and empty-argument
  guards. A flat reference meaning (decode the request, then carry out one command) is what the
  nested code is proved to compute. What a request stands for is then said of its parameters and its
  content alone (`Asked`), what the client is told is written out literally (CrudReplies), and
  statements about whole request sequences and about requests that undo each other follow.
- **StopSignal** (`stop_signal.hh`). The one-shot latch with its waiters.
- **Outcomes, Sets, Sequences**: results, and facts about finite sets and sequences.

Assumptions of the model:

- A driver call is atomic and either throws without effect or succeeds. Every request makes at most
  one call, so one Boolean per request says whether it throws.
- The server: creating a collection that exists fails; renaming fails when the source is missing or
  the target exists; updates never insert; inserting or indexing creates a missing collection;
  dropping a missing database or collection is not an error; an index name that is taken by another
  index, and dropping `_id_` or an unknown index, fail; listing the indexes of a missing collection
  lists nothing; a database exists as long as it has a collection.
- JSON parsing, filter matching, the content of an update, `find` with its options, index naming and
  listing order are parameters (`MongoStore.Driver`).
- `call` starts every handler, in an order given as a parameter.
- Handles are unbounded integers and the guard's `-1` is the number 2^64 - 1. An attach may throw
  inside `emplace`, after the counter has moved.

## Model

| member | source | states |
|---|---|---|
| EventRouter.EventRouter.constructor | INCLUDE/EVENTS.h:19-24 | a new router counts from 1 and is empty |
| EventRouter.EventRouter.Attach | INCLUDE/EVENTS.h:39-45 | returns the old counter value, advances the counter, keeps every old entry, stores the handler only under a free key; a throwing `emplace` leaves only the moved counter |
| EventRouter.EventRouter.Detach | INCLUDE/EVENTS.h:52-61 | reports whether the handle was live, removes exactly it, and keeps the difference between stored handlers and counter |
| EventRouter.EventRouter.Call | INCLUDE/EVENTS.h:26-37 | for every visiting order, each stored handler is invoked exactly once with the event and nothing else is |
| EventRouter.RouterGuard.constructor | INCLUDE/EVENTS.h:72-88 | attaches once and keeps the handle; on an exception the handle stays -1 and the catch block detaches nothing |
| EventRouter.RouterGuard.Destroy | INCLUDE/EVENTS.h:90-94 | detaches the guard's handle unconditionally, whoever owns the entry |
| RouterTraces.Conservation | INCLUDE/EVENTS.h:39-61 | over every run from any router, the counter minus the number of stored handlers grows by exactly the number of attaches that stored nothing |
| RouterTraces.ReachableBounds | INCLUDE/EVENTS.h:19-61 | in every reachable router the counter is 1 + stored + lost, hence at least 1; live handles are between 1 and the number of calls, so 0 is never live |
| RouterTraces.AttachBurst | INCLUDE/EVENTS.h:39-45 | any number of attaches in a row from any router: consecutive handles, old entries win, one loss per handle that was taken |
| RouterTraces.DetachBurst | INCLUDE/EVENTS.h:52-61 | any detaches in a row, in any order, with repeated and unknown handles: exactly the named entries go and the counter falls once for each erased one |
| RouterTraces.ExactReuse | INCLUDE/EVENTS.h:39-61 | from live handles 1..n, detach any s in any order and attach s: returned are n-s+1..n, the counter is restored, a new handler is stored exactly at returned handles that had been detached, and nothing is lost if and only if the top s were detached |
| RouterTraces.SafeExactlyWhenBelow | INCLUDE/EVENTS.h:39-61 | a router can go on attaching for ever without losing a handler if and only if every live handle is below the counter |
| RouterTraces.SafeExactlyWhenCompact | INCLUDE/EVENTS.h:39-61 | after a run that lost nothing, that holds if and only if the live handles are 1..next_handle-1 without a hole |
| RouterTraces.OutOfOrderDetachLosesNextHandler | INCLUDE/EVENTS.h:39-61 | the concrete run in which handle uniqueness fails and the new handler is dropped |
| RouterTraces.NestedInvariant | INCLUDE/EVENTS.h:39-61 | at every point of last-in-first-out use the open handles are consecutive above the base, each stores its own handler, the base is intact, and the next handle is free |
| RouterTraces.NestedUseIsIdentity | INCLUDE/EVENTS.h:39-61 | nested use that closes all it opened restores map and counter; on the way every handle returned was free and live handles were distinct |
| RouterTraces.NestedCallsLoseNothing | INCLUDE/EVENTS.h:39-61 | nested use is a run of the router's own attaches and detaches, and that run loses no handler |
| RouterGuards.NoDanglingHandler | INCLUDE/EVENTS.h:64-98 | in every run of guards and raw calls, each stored handler of a guard belongs to a live guard and sits under that guard's own handle |
| RouterGuards.Play | INCLUDE/EVENTS.h:19-98 | the router and guard objects driven through any sequence of actions go exactly the way the runs describe, so all that follows holds of the objects |
| RouterGuards.GuardKeepsHandle | INCLUDE/EVENTS.h:69-94 | a guard lives until it is destroyed, with the handle its attach was told, or with -1 (as 2^64 - 1) when its attach threw |
| RouterGuards.ThrownGuardIsHarmless | INCLUDE/EVENTS.h:69-94 | destroying a guard whose attach threw removes nobody's handler in any run of fewer than 2^64 - 1 actions |
| RouterGuards.CallReachesServedGuards | INCLUDE/EVENTS.h:26-37 | after any run, a call in any visiting order reaches a guard's handler if and only if the guard is alive with its own handler stored, and then once, with the event |
| RouterGuards.LostHandlerStaysLost | INCLUDE/EVENTS.h:26-98 | a handler attached by a guard or raw that is not stored, because its attach collided or somebody detached its handle, is invoked by no later `call`, in any visiting order and after any continuation |
| RouterGuards.CollidedAttachIsAbsent | INCLUDE/EVENTS.h:39-88 | a guard or raw attach that is told a live handle has lost its handler in that sense at once |
| RouterGuards.DestroysHarmlessExactly | INCLUDE/EVENTS.h:39-98 | at any moment of any run of guards and raw calls, every live guard can be destroyed without taking somebody else's handler along if and only if no two live guards hold the same live handle and no raw handler is stored under a live guard's handle |
| RouterGuards.GuardsAloneHarmlessExactly | INCLUDE/EVENTS.h:39-98 | with guards only, if and only if no two live guards hold the same live handle |
| RouterGuards.AliasedGuardStealsHandler | INCLUDE/EVENTS.h:39-94 | the concrete run in which a guard's destructor removes the handler of another live guard |
| RouterGuards.GuardStealsRawHandler | INCLUDE/EVENTS.h:39-94 | the concrete run in which no two guards share a handle and a guard's destructor removes a raw caller's handler |
| RouterGuards.RouterRunsCalls | INCLUDE/EVENTS.h:64-98 | guards act on the router only through its attach and detach, so everything about call runs holds of guard runs |
| RouterGuards.TeardownEmptiesRouter | INCLUDE/EVENTS.h:39-94 | used through guards only, the router is empty once all guards are gone in any order, with the counter at 1 + lost handlers; it is as new if and only if none was lost |
| RouterGuards.NothingLostExactlyWhenAllServed | INCLUDE/EVENTS.h:39-94 | with guards only, no handler is ever lost if and only if at every moment every live guard's own handler is stored; live guards then hold different handles |
| RouterGuards.NewestFirstLosesNothing | INCLUDE/EVENTS.h:39-98 | guards that are always destroyed newest first lose no handler, if and only if no attach throws |
| InitProtocol.Reachable | INCLUDE/DB/DBClients.h:88-113 | in every reachable state of every interleaving, with any failures, CONN_LOG is exactly what was inserted after the last wipe (after the prior content if none), together with the per-shard, history and shared-state invariants |
| InitOutcomes.RecordSurvives | INCLUDE/DB/DBClients.h:88-113 | a shard's record is present if and only if it was inserted and no wipe came later |
| InitOutcomes.AtMostOnce | INCLUDE/DB/DBClients.h:92-112 | at most one create succeeds, none on a collection that was there before, and no shard has two records |
| InitOutcomes.StaleRecordsPurged | INCLUDE/DB/DBClients.h:92-112 | once `cleared` is set, or a shard is past the clear guard with its delete done, no record of an earlier process run is left |
| InitOutcomes.MissingExactlyWhenWipedLater | INCLUDE/DB/DBClients.h:92-112 | a completed shard's record is missing if and only if another shard's delete_many followed its insert |
| InitSchedules.OneRecordEachGuaranteedExactly | INCLUDE/DB/DBClients.h:88-113 | whether CONN_LOG existed or not, every fault-free schedule in which all shards complete leaves a record for each shard if and only if there is one shard |
| InitOutcomes.OneRecordEachExactly | INCLUDE/DB/DBClients.h:92-112 | a single run in which all shards complete, faults or not, leaves a record for each if and only if no wipe came after an insert |
| InitOutcomes.CompletedRunKeepsLastWiper | INCLUDE/DB/DBClients.h:88-113 | then the log is never empty, holds only this run's shards, all of them when nobody wiped, and always the last wiper's record |
| InitOutcomes.FinishedRunKeepsLastWiper | INCLUDE/DB/DBClients.h:88-113 | the same for every fault-free run that ends, refused shards included: a nonempty log, of completed shards only, all of them when nobody wiped, and with the last wiper's record |
| InitSchedules.SureToSucceedExactly | INCLUDE/DB/DBClients.h:88-113 | without database faults all shards complete on every schedule if and only if CONN_LOG existed or there is at most one shard |
| InitSchedules.TwoLookersRefuseOne | INCLUDE/DB/DBClients.h:92-95 | for every n >= 2, the four-turn schedule after which a shard has failed although the database never did |
| InitSchedules.ThreeTurnsRefuseNobody | INCLUDE/DB/DBClients.h:92-95 | no fault-free schedule of at most three turns makes a shard fail, so four is the least |
| InitOutcomes.FailsExactlyWhenTwoFindMissing | INCLUDE/DB/DBClients.h:92-95 | which shards fail in a given fault-free run: exactly those that found the collection missing and did not create it |
| InitSchedules.SerialInit | INCLUDE/DB/DBClients.h:92-112 | shards one after another in any order: an existing CONN_LOG ends with one record for each shard, a new one with n >= 2 without the record of the first, its creator |
| InitSchedules.PossibleOutcomes | INCLUDE/DB/DBClients.h:88-113 | how interleaving alone can end: with exactly the records of any nonempty set of shards that were not refused, where no shard is refused if CONN_LOG existed and otherwise any shards but one can be |
| InitFaults.PossibleFaultyOutcomes | INCLUDE/DB/DBClients.h:88-113 | with database faults too: any shards may fail while the records left are those of any completed ones, with none left only if a shard failed, and no record of an earlier run; or all shards fail and the earlier records are all still there; nothing else is possible |
| InitFaults.MuteRun | INCLUDE/DB/DBClients.h:92-112 | any run has a counterpart in which one completing shard's insert throws and everything else, collection and flag included, goes the same way but for its record |
| InitFaults.ThrowOnlyEndsShard | INCLUDE/DB/DBClients.h:92-112 | a has_collection, create_collection, delete_many or insert_one that throws ends its shard and changes neither the collection nor the flag; nothing else can throw |
| InitFaults.FailedExactly | INCLUDE/DB/DBClients.h:88-113 | in every run a shard has failed if and only if one of its calls threw or it tried to create a collection that exists |
| DBClients.TurnMakesProgress | INCLUDE/DB/DBClients.h:88-113 | every turn of an unfinished shard lowers a bound of five turns a shard, so the log phase ends on every schedule |
| DBClients.SharedLog.Advance | INCLUDE/DB/DBClients.h:92-112 | the statements of the shard lambda, one at a time, change the collection and the static flag exactly as the protocol step does |
| DBClients.DBClients.AssignClients | INCLUDE/DB/DBClients.h:79-89 | the assignment phase fails if and only if it throws on some shard |
| DBClients.DBClients.RunLogPhase | INCLUDE/DB/DBClients.h:88-113 | whatever is scheduled and whatever fails, the phase ends within five turns a shard as a run of the protocol, and fails if and only if a shard did not complete |
| DBClients.DBClients.Init | INCLUDE/DB/DBClients.h:47-121 | a failing start or assignment sets both flags, returns normally and leaves the log alone; a failing log phase sets neither and throws; `operator bool` stays true if and only if neither start nor any assignment threw; on a first Init failed_to_init is never set with initialized clear, and the object claims to be usable while uninitialised if and only if the log phase threw |
| DBClients.FirstInit | INCLUDE/DB/DBClients.h:64-121 | after a first Init that succeeds, CONN_LOG is nonempty and holds only records of this run's shards |
| MongoInterface.MongoDBInterface.CreateDB | INCLUDE/DB/MongoInterface.h:22-30 | succeeds if and only if the call does not throw and the database has no DummyCollection; the store then gains exactly that empty collection, and otherwise stays as it was |
| MongoInterface.MongoDBInterface.CreateCollection | INCLUDE/DB/MongoInterface.h:32-40 | succeeds if and only if the call does not throw and the name is free; the store gains exactly that collection or stays as it was |
| MongoInterface.MongoDBInterface.CreateDocument | INCLUDE/DB/MongoInterface.h:42-51 | unless it throws, the document is last in its collection, created if missing, and nothing else changes |
| MongoInterface.MongoDBInterface.CreateIndex | INCLUDE/DB/MongoInterface.h:270-283 | with empty keys succeeds and changes nothing, fault or not; otherwise succeeds if and only if the name is free or the same index is there, and the index is then found under its name beside all earlier ones |
| MongoInterface.MongoDBInterface.UpdateCollection | INCLUDE/DB/MongoInterface.h:191-200 | succeeds if and only if the old name exists and the new one does not; the collection moves whole and nothing else changes |
| MongoInterface.MongoDBInterface.UpdateDocument | INCLUDE/DB/MongoInterface.h:202-228 | with an empty update succeeds and changes nothing; otherwise exactly the matching documents, all or the first, are rewritten in place, and no collection appears |
| MongoInterface.MongoDBInterface.DeleteDB | INCLUDE/DB/MongoInterface.h:230-237 | unless it throws, every collection of that database is gone and every other is as it was |
| MongoInterface.MongoDBInterface.DeleteCollection | INCLUDE/DB/MongoInterface.h:239-246 | unless it throws, that collection is gone, if it was there, and every other is as it was |
| MongoInterface.MongoDBInterface.DeleteDocument | INCLUDE/DB/MongoInterface.h:248-268 | with an empty filter succeeds and changes nothing; otherwise delete_many leaves no match and every other document as often as before, delete_one cuts out the first match only |
| MongoInterface.MongoDBInterface.DeleteIndex | INCLUDE/DB/MongoInterface.h:325-335 | succeeds if and only if the collection has an index of that name other than `_id_`; then exactly that one is cut out |
| MongoInterface.OptionsRoundTrip | INCLUDE/DB/MongoInterface.h:160-172 | find settings survive encoding, and an options document stands for given settings if and only if it gives each option the encoded value; order and other fields do not matter, a mistyped option stands for nothing |
| MongoInterface.ShowDatabases | INCLUDE/DB/MongoInterface.h:59-87 | over any cursor the loops give all entries, or the first of that name, or one error entry |
| MongoInterface.ShowCollections | INCLUDE/DB/MongoInterface.h:105-143 | the same for collections, each reduced to name and type; an entry without them throws |
| MongoInterface.ShowIndexes | INCLUDE/DB/MongoInterface.h:293-314 | the same for indexes, with an empty answer when no index has the name |
| MongoInterface.MongoDBInterface.ReadDB | INCLUDE/DB/MongoInterface.h:53-96 | never null: the answer under "databases", or the exception |
| MongoInterface.MongoDBInterface.ReadCollection | INCLUDE/DB/MongoInterface.h:98-152 | never null: the answer under "collections", or the exception |
| MongoInterface.MongoDBInterface.ReadDocument | INCLUDE/DB/MongoInterface.h:154-189 | never null: the found documents under "documents"; a mistyped option throws before the search |
| MongoInterface.MongoDBInterface.ReadIndex | INCLUDE/DB/MongoInterface.h:285-323 | never null: the answer under "indexes", or the exception |
| CrudHandler.CrudHandler.Handle | main.cc:167-497 | the nested switches and catches compute exactly decode-then-execute, reply and store both; "No result" reaches no client |
| CrudRequests.RequestRoundTrip | main.cc:71-476 | a POST stands for the command it asks for: its parameters name operation and class, its content parses, and each field is there with its type, other fields and the order being free; filter, options and collection_options may be absent |
| CrudRequests.WrittenRequestAsks | main.cc:71-476 | every command can be asked for, by the request a client writes for it |
| CrudRequests.UnderstoodOnlyAsSaid | main.cc:71-476 | the converse: a request stands only for what it asks for in this sense, and one without the parameters or with content that does not parse stands for nothing |
| CrudRequests.RefusedFor | main.cc:71-251 | for which reason a request is refused: unknown operation before unknown class, an update of a database or index, json_data of a wrong type or that does not parse, otherwise a missing or mistyped field |
| CrudReplies.RefusedReply | main.cc:167-497 | a POST that asks for no command is answered with that error and changes nothing |
| CrudReplies.WriteReply | main.cc:199-475 | a write is answered "ok" without data if and only if it has an empty argument to skip, or its call does not throw and the server accepts it; otherwise with the driver's error and the store as it was |
| CrudRequests.JsonDataForms | main.cc:231-265 | two inserts that differ only in the form of json_data, document, JSON text or array (stored under its own name), get the same answer whatever is stored and whatever throws; with the namespace given, they do so only if both forms denote the same document |
| CrudReplies.DocumentReadReply | main.cc:319-336 | the reply to a document read, written out: what the search finds, in order, under "documents"; an error for a mistyped option, whatever the server does, or when the search throws |
| CrudReplies.FindReceivesOptions | main.cc:319-336 | the search runs with exactly the settings the client encoded |
| CrudRuns.ServeAll | main.cc:167-497 | the handler run over any sequence of requests and faults: its replies and store are those the requests mean, the store is what a client reconstructs from the replies, and the document count is conserved |
| CrudRuns.AcknowledgedReplay | main.cc:167-497 | over every sequence of requests and faults, the final store is the initial one after the effects of exactly the requests answered "ok", in order |
| CrudRuns.UnacknowledgedAndReadsKeepStore | main.cc:167-497 | an error reply, a method other than POST, which is rejected without a body, and a read leave the store as it was; every POST gets status 200 and a body other than "No result"; all replies go out as JSON |
| CrudRuns.AcknowledgedCreateIsStored | main.cc:231-265 | an acknowledged document create has appended its document, kept the others and the indexes, and changed no other collection |
| CrudRuns.DocumentsConserved | main.cc:197-476 | over every run the document count is the initial one plus acknowledged document creates minus what acknowledged deletes removed; renames, updates, index operations and reads never change it, nor does a delete with an empty filter |
| CrudRuns.EffectOnCount | INCLUDE/DB/MongoInterface.h:22-335 | the same for one command, with the removed documents counted by matches, collection or database |
| CrudRuns.UntargetedUntouched | main.cc:197-476 | a run leaves alone every collection that no acknowledged request targets |
| CrudRuns.NamedLookupIsFilter | INCLUDE/DB/MongoInterface.h:53-323 | on uniquely named listings a named database or index lookup is the list-all answer filtered by name; without a match databases answer one error entry, indexes an empty array |
| CrudRuns.LookupStopsAtFirst | INCLUDE/DB/MongoInterface.h:53-323 | over any cursor a named lookup answers with the first entry of that name whatever follows, throws at an entry without a name met before, and reports nothing found only after passing all entries |
| CrudRuns.ListAllExactly | INCLUDE/DB/MongoInterface.h:53-323 | list-all over any cursor: databases and indexes whole and in order, collections by name and type, with an error if and only if an entry lacks one of them |
| CrudRuns.NamedCollectionIsFilter | INCLUDE/DB/MongoInterface.h:98-152 | on such a listing, when listing all collections succeeds, the named lookup is that answer filtered by name, or one error entry |
| CrudRuns.ListAllThrowsAlone | INCLUDE/DB/MongoInterface.h:98-152 | listing all collections throws although the named lookup succeeds if and only if some entry has no type and the entry of that name, if there is one, has |
| CrudReplies.DatabaseReadReply | main.cc:286-302 | the reply to a named database read, written out: the entry of that database if and only if the store has it, else one error entry; an error when the call throws; the store is kept |
| CrudReplies.DatabaseListReply | main.cc:286-302 | the reply to list-all: every database exactly once |
| CrudReplies.CollectionReadReply | main.cc:303-318 | the reply to a named collection read, written out: name and type of that collection if and only if the store has it, else one error entry; an error when the call throws; the store is kept |
| CrudReplies.CollectionListReply | main.cc:303-318 | the reply to list-all: every collection of the database exactly once, by name and type |
| CrudReplies.IndexReadReply | main.cc:338-355 | the reply to an index read, written out: all indexes in order for the empty name, otherwise the first of that name or nothing |
| IndexInvariant.IndexesStayGood | INCLUDE/DB/MongoInterface.h:270-335 | over every run each collection keeps its `_id_` index and uniquely named indexes |
| IndexInvariant.IndexReadTellsTruth | main.cc:338-355 | after any run a named index read is answered with the only index of that name, or with no entry |
| CrudUndo.AcknowledgedUpdate | main.cc:383-400 | an acknowledged update has rewritten exactly the matching documents, all or the first, and nothing else; with an empty update nothing |
| CrudUndo.AcknowledgedDelete | main.cc:440-456 | an acknowledged delete has removed exactly the matching documents, all or the first, and nothing else; with an empty filter nothing |
| CrudUndo.RenameUndone | main.cc:367-382 | an acknowledged rename can be reversed after any requests that leave both names alone, acknowledged unless its call throws: both names are as before the first rename, and directly afterwards the whole store is |
| CrudUndo.CreateUndone | main.cc:215-439 | an acknowledged collection create, any requests, then an acknowledged delete of it: the name is free and all else as those requests left it; if none of them asked for that collection, the store is what they leave without the create and the delete |
| CrudUndo.IndexCreateUndoneExactly | main.cc:266-472 | with uniquely named indexes and `_id_`, as every run keeps them: an acknowledged index create with keys followed by a delete of its name restores the store if and only if the collection was there and the name was new or `_id_` |
| StopSignal.StopSignal.Signaled | stop_signal.hh:56-64 | the first signal sets the flag and broadcasts, later ones do nothing |
| StopSignal.StopSignal.Wait | stop_signal.hh:77-80 | ready at once when the flag is set, otherwise queued |
| StopSignal.StopSignal.Resume | stop_signal.hh:77-80 | a woken waiter rechecks the flag: released when it is set, queued again otherwise |
| StopSignal.NoLostWakeUp | stop_signal.hh:56-84 | over every interleaving at most one broadcast, nobody released before the signal, nobody blocked after it |
| StopSignal.CaughtExactlyAfterSignal | stop_signal.hh:56-84 | over every interleaving the flag that `stopping` reads is set if and only if a signal has come |
| StopSignal.WaitersKnownExactly | stop_signal.hh:56-80 | over every interleaving exactly those who waited are queued, woken or released, all of them queued until the signal |
| StopSignal.ReleasedExactly | stop_signal.hh:56-80 | who has been released: exactly those who came after a signal or were resumed after one, having waited |
| StopSignal.LatchIsMonotone | stop_signal.hh:56-84 | the flag never goes back, a release is final, no waiter is forgotten |
| StopSignal.EveryWaiterReleased | stop_signal.hh:56-84 | after a signal, in any continuation that gives each woken waiter a turn, nobody is queued or pending and everybody who waited, before the signal or since, is released |

## Left out

- Seastar itself: futures, reactors, sharding, the HTTP server and signal registration. A coroutine between suspension points is one step.
- Call: does not model handlers that call back into the router while it is visited, nor what a failing handler does to the future.
- Wrap-around of `next_handle` after 2^64 attaches, and of allocation failures all but a throwing `emplace`.
- `std::shared_mutex` in the router: each attach and detach is one step already.
- Unsynchronised access to `cleared` below the level of whole reads and writes.
- A driver call that takes effect on the server although it throws at the client.
- Init: starting the same sharded service twice is not part of this model; a second call only keeps the flags as they are or sets them.
- BSON and JSON encoding, error texts and the order in which C++ evaluates call arguments: an exception carries a reason, the same for every field of one call.
- `collection_options` beyond its type, and other server-side options such as validators and capped collections.
- Logging, durations, `sharded_mutex`, `demo.h`, `main_fut`, routes, and the URI taken from the environment.
