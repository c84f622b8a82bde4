# Protosource, verified

Protosource is an event-sourcing engine. A command loads an aggregate by replaying its log,
passes gates, emits versioned events (and a snapshot after every N versions) and saves them; the
stores promise ordered logs, tails and, for DynamoDB and Cosmos, that no version is written twice.
This project models that engine in Dafny and proves what it promises, for every input, every log
and every interleaving. `dafny verify dfyconfig.toml` checks all of it.

## How it is put together

| file | what it is |
|---|---|
| `Machine.dfy` | int64 and int32 arithmetic over unbounded integers, bytes |
| `Order.dfy` | the Order aggregate as functions: `On`, `AfterOn`, gates, emission, projection |
| `Aggregate.dfy` | the same as the objects the generated code has: aggregate and builder, updated in place |
| `Replay.dfy` | logs, snapshot placement, tail loading |
| `OrderSafety.dfy` | what every log of an Order keeps |
| `OrderHistory.dfy` | every field of an order, read off the records of its log by position |
| `OrderGates.dfy` | the verdict on every command, read off the records |
| `OrderCommands.dfy` | from what a command asks for to what the next load shows |
| `OrderTotals.dfy` | count, total and summary by the records |
| `Protocol.dfy`, `OrderRuns.dfy` | any number of writers interleaving on one conditional store |
| `ViewOrder.dfy` | when the materialized view goes back to an older version |
| `Listing.dfy`, `Paging.dfy` | ordered reads, pages, tails, in-place reversal |
| `ConditionalStore.dfy` | the DynamoDB and Cosmos stores |
| `Compression.dfy`, `Codec.dfy`, `Repository.dfy` | `Repository.Apply` end to end over bytes |
| `Refinement.dfy` | calls of `Apply` over bytes as runs of the protocol |
| `MemoryStore.dfy` | the memory store, which shares its records with its readers |
| `VersionKeys.dfy`, `BoltCursor.dfy`, `Shards.dfy`, `BoltStore.dfy` | the sharded Bolt store |
| `Framing.dfy` | the length-prefixed event stream |
| `Generator.dfy` | the code generator's collection validator and the lookups that rely on it |
| `GeneratorRules.dfy` | the validator's rules by names, numbers and types of fields |

Two layers meet in the proofs. The functions (`On`, `Load`, `EmitEvents`, `Listed`, `Tail`, `Frames`)
say what things are; the classes and loops (`Aggregate`, `Builder`, `Repository`, the stores, the
encoder and decoder) are proved to compute them, and the theorems are about the functions. The
snapshot interval is a parameter n throughout; n >= 2 is all that is needed, and the Order uses 50.

Clocks, faults, page sizes, what other writers append between pages, commits between the steps of a
call, lost calls and lost answers are parameters or actions, so every statement holds for all of
them. gzip and the event serializer are parameters with their laws as premises: what was compressed
decompresses and starts with the magic bytes, what was marshalled unmarshals, and no marshalled
event starts with the gzip magic (`Lawful`, `Sound`, `Faithful`).

The Order functions are pinned from outside as well. `OrderHistory`, `OrderGates`, `OrderCommands`
and `OrderTotals` say what a load, a verdict, a command and a total are in terms of the records of a
log and their positions, without naming the functions that compute them.

## Limits and surprises

Each of these comes with the condition under which the property does hold.

- Tail loading needs n >= 2. With a snapshot after every version a prefix that ends just before
  a snapshot loads as an order that was never created (`IntervalOneLosesPrefixes`).
- The stored view can go back to an older version when writers race, since materialized writes
  carry no condition (`ViewCanGoBackwards`). A put lowers the version exactly when the writer's last
  event is older than the view (`PutLowersIff`), and a run is free of this exactly when its puts come
  in commit order (`ViewFollowsCommits`).
- The int64 total is the true total exactly when that fits, whatever happened to intermediate sums
  (`TotalExact`); two accepted commands reach one that does not (`TotalCanOverflow`).
- A save that reports an error may have taken effect, when only the answer got lost. The log is then
  longer by exactly the command's events (`Repository.Apply`).
- A payload that is stored uncompressed and starts with the gzip magic is taken for compressed
  (`CompressionRoundTrip`, `GzippedPayloadIsUnwrapped`).
- A Bolt load is in version order exactly when the saves before it did not mix negative and other
  versions (`PerformAll`, `ListedInVersionOrder`); a run that mixes them is `SavesOfBothSigns`.
- A shard limit that is a multiple of 2^32 is stored as zero, and then already the first id skips
  shard 1 (`ZeroLimitSkipsShards`).
- Behind 2^32 - 1 full shards the counter wraps and the next id goes to shard 0 (`CounterWraps`); up
  to there the j-th new id goes to shard j / m + 1 (`ShardOfNth`).
- AddItem without an item and AddTag without a tag pass and leave a record that changes no collection
  (`CommandTakesEffect`, `Verdicts`); AddItem without an item is refused as a duplicate exactly when
  there is an item whose id is empty.
- The generator takes a repeated field for a singular one where it checks the required fields
  (`RequiredFields`).
- The comment at protosource.go:465-466 says that loading starts at the most recent snapshot. The
  code fetches the last N records wherever the snapshot is, so up to N-1 records are applied to
  wrong state first; the model follows the code, and they leave no trace (`TailReplaysAll`).
- The generator's error text calls the only domain field of a REMOVE event "the key". Of an
  accepted event that is so exactly when `key_field` is neither `id` nor `actor`
  (`RemoveAccepted`, `RemoveByAggregateId`).
- Loading that fails for any reason is treated like an aggregate that does not exist
  (protosource.go:314-317), although the comment there speaks of one that does not exist yet. The
  protocol stays safe: such a writer can only be refused (`Serializability`).
- A stream that ends cleanly and one that is cut give the same error, so a reader cannot tell them
  apart (`WriteThenRead`).

## Model

| member | source | states |
|---|---|---|
| `Protocol.Serializability` | protosource.go:300-407 | for any number of writers and any interleaving of stale or failed loads, decisions, lost, refused or unacknowledged saves and crashes: the store holds exactly versions 1 to V, equal to the committed commands run one by one; each batch is what its command emits from the full replay of the log before it; every answer without a save is what some prefix gives |
| `Protocol.RefusedIsAnswered` | protosource.go:319-355 | a command that does not pass is answered with its verdict and changes nothing kept |
| `Protocol.UnrefusedSaveSawEverything` | stores/dynamodbstore/dynamodbstore.go:125-135 | a save whose versions do not exist yet was prepared from the whole log |
| `Protocol.CommitExtends` | stores/cosmosdbstore/cosmosdbstore.go:139-201 | an unrefused save turns the log into the serial log of one more admitted command |
| `Protocol.RunKeepsInv` | protosource.go:300-407 | every reachable state keeps: the store is the serial log, every writer works on a load of some prefix, every view was loaded from a prefix |
| `Protocol.MaterializedIsLoaded` | protosource.go:365-385 | applying the saved events to the loaded aggregate and deriving gives what `Load` returns on that prefix |
| `Protocol.MaterializedViews` | protosource.go:365-404 | in every run each aggregate given to SaveAggregate is `Load` of a committed prefix, the summary is the projection of one of them, and the view is current iff its version is the log's |
| `Protocol.SequentialViewsAreCurrent` | protosource.go:300-407 | one writer at a time, saves succeeding: view and summary are those of the whole log after any list of commands |
| `OrderRuns.ViewCanGoBackwards` | stores/dynamodbstore/dynamodbstore.go:270-296 | a concrete two-writer run in which the stored aggregate's version decreases |
| `ViewOrder.PutLowersIff` | protosource.go:379-385 | in every run, materializing lowers the view's version iff the writer's last saved event is older than the view: the guard a conditional put would carry |
| `ViewOrder.ViewFollowsCommits` | protosource.go:365-385 | over every run the view's version never decreases iff the puts that take place come in commit order |
| `ViewOrder.ViewNeverGoesBack` | protosource.go:365-385 | the same with the versions put in place of the commits |
| `ViewOrder.PutsAreCommits` | protosource.go:359-385 | every version put is where the log ended right after some commit |
| `ViewOrder.EndsInCommitOrder` | stores/dynamodbstore/dynamodbstore.go:96-142 | the order of these versions is the order of the commits |
| `OrderRuns.LogOnlyGrows` | stores/dynamodbstore/dynamodbstore.go:96-142 | at any two moments of any run the earlier log is a prefix of the later one |
| `OrderRuns.OrderLifeInEveryRun` | gen/example/app/order/v1/order_v1.protosource.pb.go:116-172 | between any two loads in any run the state only moves forward, contents are frozen once DRAFT is left, creation never changes |
| `OrderRuns.OrderLogInEveryRun` | gen/example/app/order/v1/order_v1.protosource.pb.go:89-172 | at every prefix of the log of every run: one Created record, items conserved, keys match, tail load equals the meaning of the domain events, snapshots in place |
| `Replays.TailLoadingPreservesMeaning` | protosource.go:467-529 | for n >= 2 and every prefix of every log of admitted commands: the last n records replayed from nothing, all records, and the domain events alone give one and the same aggregate and version |
| `Replays.OrderTailLoading` | gen/example/app/order/v1/order_v1.protosource.pb.go:53-71 | the same at the Order's interval of 50 |
| `Replays.TailReplaysAll` | protosource.go:514-529 | up to n-1 records applied to wrong state first leave no trace |
| `Replays.IntervalOneLosesPrefixes` | protosource.go:514-529 | at n = 1 a reachable prefix loads as an order that does not exist |
| `Replays.SnapshotPlacement` | gen/example/app/order/v1/order_v1.protosource.pb.go:89-103 | at every prefix: a snapshot at v iff v > 1 and v mod n = 1, (V-1) div n of them, one in every last-n window that is not everything |
| `Replays.EmitExtends` | gen/example/app/order/v1/order_v1.protosource.pb.go:393-400 | a command's events keep the log in shape and never leave it ending on a multiple of n |
| `Replays.SerialLogOk` | gen/example/app/order/v1/order_v1.protosource.pb.go:387-697 | every log of admitted commands is in shape, for every n >= 2 |
| `Replays.SnapshotOverwrites` | gen/example/app/order/v1/order_v1.protosource.pb.go:72-88 | after a snapshot nothing of the earlier state is left |
| `Replays.SnapshotRestores` | gen/example/app/order/v1/order_v1.protosource.pb.go:72-103 | a snapshot changes nothing but the version |
| `Replays.ReplayIsMeaning` | protosource.go:467-512 | replaying a log with its snapshots is replaying its domain events |
| `Replays.LoadContinues` | protosource.go:369-378 | applying new events to a loaded aggregate is loading the longer log |
| `OrderSafety.FrozenAfterDraft` | gen/example/app/order/v1/order_v1.protosource.pb.go:387-697 | between any two prefixes: UNSPECIFIED to DRAFT to PLACED or CANCELLED, PLACED to CANCELLED, and no change of items, tags, address, customer, count or total out of DRAFT |
| `OrderSafety.SingleCreation` | gen/example/app/order/v1/order_v1.protosource.pb.go:104-126 | Created is record 1 and no other; every later load reports its actor, time and customer |
| `OrderSafety.ItemsConserved` | gen/example/app/order/v1/order_evaluators.go:40-71 | number of items = ItemAdded records with an item - ItemRemoved records, at every prefix; each key is its element's item id |
| `OrderSafety.LoadedOrderOk` | gen/example/app/order/v1/order_v1.protosource.pb.go:116-172 | at every prefix: version = length, state set iff created, keys match elements, derived fields derived |
| `OrderModel.AfterOnAbsorbed` | gen/example/app/order/v1/order_derived.go:7-14 | AfterOn(On(AfterOn(o), e)) = AfterOn(On(o, e)) for every state and event |
| `OrderModel.AfterOnAbsorbedByReplay` | gen/example/app/order/v1/order_derived.go:7-14 | the same over any list of events |
| `OrderModel.TotalExact` | gen/example/app/order/v1/order_derived.go:7-14 | the reported total is exact iff the true total fits an int64 |
| `OrderSafety.TotalCanOverflow` | gen/example/app/order/v1/order_derived.go:9-13 | two commands the gates accept after which the total of 2^63 is reported as -2^63 |
| `OrderModel.ExactTotalRemove` | gen/example/app/order/v1/order_derived.go:9-12 | the total does not depend on the order in which items are taken |
| `OrderModel.OnIgnoresDerived` | gen/example/app/order/v1/order_v1.protosource.pb.go:116-172 | no event lets a derived field influence any other field |
| `OrderHistory.LoadShows` | gen/example/app/order/v1/order_v1.protosource.pb.go:72-172 | for every log of admitted commands, by position of records: address, billing, placing, creation, modification and state are what the last record about each says, defaults where there is none; a tag or item is there iff the last record naming its key added it, and is what that record carried |
| `OrderHistory.ReplayShows` | gen/example/app/order/v1/order_v1.protosource.pb.go:104-172 | the same of replaying any events at all but snapshots, admitted or not |
| `OrderGates.Verdicts` | gen/example/app/order/v1/order_v1.protosource.pb.go:387-697 | for every log of admitted commands and every request, the verdict the records call for: which is accepted, skipped or refused, and with which error when several gates fail |
| `OrderGates.StateByRecords` | gen/example/app/order/v1/order_v1.protosource.pb.go:116-172 | the state by the records: Cancelled iff there is such a record, else Placed iff there is such a record, else Draft |
| `OrderGates.ItemsByRecords` | gen/example/app/order/v1/order_evaluators.go:40-71 | an item is there iff some record added it and no later one removed it |
| `OrderGates.GuardsOfOtherStates` | gen/example/app/order/v1/order_v1.protosource.pb.go:681-690 | Cancel passes from PAID and not from SHIPPED or DELIVERED; the DRAFT commands from none of them |
| `OrderGates.AnswersByRecords` | protosource.go:319-355 | in every concurrent run each answer without a save is what the records of the prefix loaded call for, and each saved command was called for by the whole log before it |
| `OrderCommands.CommandTakesEffect` | gen/example/app/order/v1/order_v1.protosource.pb.go:393-400 | for every admitted command, from the request to the next load: exactly what is asked for changes, stamped with the command's actor and time; the batch has the event's id, version, time, actor, kind and reason, and a snapshot of the result by "snapshot@system" exactly when one is due |
| `OrderTotals.CountByRecords` | gen/example/app/order/v1/order_derived.go:8 | itemCount is items added less items removed, as an int32, and equal to it below 2^31 |
| `OrderTotals.TotalByRecords` | gen/example/app/order/v1/order_derived.go:9-13 | a record adding an item raises the total by price times quantity modulo 2^64, one removing it lowers it by the same, any other leaves it; an empty log totals 0 |
| `OrderTotals.SummaryByRecords` | gen/example/app/order/v1/order_v1.protosource.pb.go:356-367 | a summary's customer and creation are record 1's, its state, placing, count and total those of the records and items |
| `OrderTotals.RecordsInEveryRun` | gen/example/app/order/v1/order_v1.protosource.pb.go:72-172 | fields, state, count and total by the records, at every prefix of the log of every concurrent run |
| `OrderTotals.SummaryInEveryRun` | protosource.go:391-403 | the stored summary of every concurrent run is what the records of some committed prefix call for |
| `OrderModel.EmitEvents` | gen/example/app/order/v1/order_v1.protosource.pb.go:393-400 | one or two events of the command's id, numbered from the aggregate's version; what they carry is `OrderCommands.CommandTakesEffect` |
| `Aggregates.SumLines` | gen/example/app/order/v1/order_derived.go:9-13 | the wrapping loop, in whatever order the map is iterated, gives the true total modulo 2^64; what a line is worth is `OrderTotals.TotalByRecords` |
| `Aggregates.Aggregate.On` | gen/example/app/order/v1/order_v1.protosource.pb.go:116-172 | the field updates, case by case, compute the function `OrderHistory` is about; fails exactly on event types the aggregate has no case for |
| `Aggregates.Aggregate.RestoreSnapshot` | gen/example/app/order/v1/order_v1.protosource.pb.go:72-88 | every field but the id is overwritten |
| `Aggregates.Aggregate.AfterOn` | gen/example/app/order/v1/order_derived.go:7-14 | derives the count and total `OrderTotals` is about, whatever the order of iteration |
| `Aggregates.Builder.Append` | gen/example/app/order/v1/order_v1.protosource.pb.go:47-50 | appends one event under the next version |
| `Aggregates.Builder.TakeSnapshot` | gen/example/app/order/v1/order_v1.protosource.pb.go:89-103 | appends a derived snapshot exactly at multiples of the interval |
| `Aggregates.EmitEventsOf` | gen/example/app/order/v1/order_v1.protosource.pb.go:393-400 | builds the batch `OrderCommands` is about on a copy; the loaded aggregate is not touched |
| `Repositories.Repository.Apply` | protosource.go:300-407 | the whole call over encoded, possibly compressed records in a conditional store, with page faults, other writers committing between its load and its save and between its save and its materialization, lost calls and lost answers: the verdict of the gates on what was loaded; a command that passes takes effect iff that is still the whole log, all events marshal and the call arrives, and then the log grows by exactly its events; iff the answer comes back too it reports the new length and publishes what `Load` returned right after the save; a failed save has left the log as it was or grown by exactly the command's events |
| `Repositories.Repository.Check` | protosource.go:319-355 | the gates in their order give the verdict `OrderGates` is about |
| `Refinement.Serve` | protosource.go:300-407 | any sequence of such calls on a new repository, over bytes: every aggregate is in the state of a run of the protocol, its log is that of admitted commands run one by one, view and summary are those of committed prefixes |
| `Refinement.CallIsRun` | protosource.go:300-407 | an interrupted call has, for every aggregate, the effect of its own protocol steps with the others' steps where they come in |
| `Refinement.StoreStep` | protosource.go:356-362 | a save on a load of any prefix has the effect of the protocol's conditional write |
| `Refinement.PublishSteps` | protosource.go:365-404 | whoever came in between, publishing has the effect of the protocol's materialize and project |
| `Refinement.PublishedIsLoaded` | protosource.go:369-379 | what is published is what `Load` returned right after the save |
| `Refinement.ReachedIsSerial` | protosource.go:300-407 | what runs promise holds of what the repository keeps |
| `Repositories.Repository.Commit` | protosource.go:356-407 | steps 6 to 9 on an aggregate loaded from any prefix of the log, with other commits before the views are written |
| `Repositories.Repository.LoadAggregate` | protosource.go:467-512 | from the tail's bytes to `Load` of the whole log |
| `Repositories.Repository.Persist` | protosource.go:413-445 | for events prepared from any prefix: stored iff they continue the log, marshal and the call arrives, reported iff the answer comes back too; otherwise nothing is stored |
| `Repositories.OnlyNextAccepted` | stores/dynamodbstore/dynamodbstore.go:125-138 | the store takes a save prepared from a prefix iff the prefix is the whole log |
| `Repositories.Repository.Materialize` | protosource.go:365-404 | what is stored is the derived replay of the new events and its summary |
| `Repositories.ReplayRecords` | protosource.go:478-509 | decoding and applying record after record is the replay of the events they carry |
| `ConditionalStores.ConditionalStore.Save` | stores/dynamodbstore/dynamodbstore.go:96-142 | batches of 100: success stores all; a failure leaves the batches before the failing one, and that one too iff it was carried out and only its answer got lost; up to 100 records are all or nothing; no other aggregate changes |
| `ConditionalStores.FailedSaveKeepsGapless` | stores/cosmosdbstore/cosmosdbstore.go:149-198 | a save of the next versions fails only on its way, and leaves the gapless log longer by exactly those batches |
| `ConditionalStores.ConditionalStore.TransactWrite` | stores/dynamodbstore/dynamodbstore.go:125-138 | a transaction is carried out iff it arrives and no version of it exists or repeats; it is reported iff its answer also comes back; version order is kept |
| `ConditionalStores.PartialSaveKeepsGapless` | stores/cosmosdbstore/cosmosdbstore.go:149-198 | after any partial save a gapless log is still gapless |
| `ConditionalStores.InsertAllKeeps` | stores/dynamodbstore/dynamodbstore.go:146-190 | a partition stays in version order and holds exactly the old and the new records |
| `Paging.QueryTail` | stores/dynamodbstore/dynamodbstore.go:196-264 | for every way the service cuts pages, including empty pages and a spurious last key, and whatever other writers append between pages: the last min(n, length) records of the log the first page saw, ascending |
| `Paging.PagerTail` | stores/cosmosdbstore/cosmosdbstore.go:239-285 | the same for a pager that ignores the page size and is stopped early |
| `Paging.Reverse` | stores/dynamodbstore/dynamodbstore.go:257-261 | the in-place swap loop reverses |
| `Compression.CompressedFromThreshold` | compress.go:20-33 | a payload is stored as it is iff the threshold is not positive or the payload is shorter, else in gzip form |
| `Compression.MagicIs` | compress.go:14-16 | exactly the data that start with the bytes 31, 139 count as gzip |
| `Compression.CompressionRoundTrip` | compress.go:14-51 | reading back what was written gives the payload, or exactly when it was stored bare and starts with the magic, its decompression |
| `Compression.GzippedPayloadIsUnwrapped` | compress.go:37-51 | such a payload exists for every lawful gzip |
| `Codecs.EncodedCarries` | protosource.go:413-435 | what is stored decodes to the event, and still does once decompressed in place; it is in gzip form iff the marshalled bytes reach a positive threshold |
| `Codecs.CarriesDecodes` | protosource.go:481-493 | decoding, before and after overwriting the record with its decompressed bytes, gives the event |
| `MemoryStores.ReadMany` | protosource.go:272-288 | any sequence of `Load` and `History` calls, each overwriting the store's own records, leaves every decoded log as it was, and every load returns its replay |
| `MemoryStores.MemoryRepository.Save` | protosource.go:413-445 | appends all events or, when one does not marshal, none |
| `MemoryStores.MemoryRepository.History` | protosource.go:272-288 | the log, decompressed, through the store's own records; an empty id is refused |
| `MemoryStores.MemoryRepository.Load` | protosource.go:467-512 | the replay of what was saved, or an error iff nothing was saved or an event has no case |
| `MemoryStores.MemoryStore.Save` | stores/memorystore/memorystore.go:38-57 | appends without looking at versions, to this id only |
| `MemoryStores.MemoryStore.Load` | stores/memorystore/memorystore.go:62-76 | hands out the stored history itself, a fresh one for an unknown id |
| `VersionKeys.VersionKeyOrder` | stores/boltdbstore/boltdbstore.go:142-144 | the 8-byte key of every int64 version reads back, and byte order is numeric order iff not exactly one of two versions is negative |
| `VersionKeys.LexOrderIsNumeric` | stores/boltdbstore/boltdbstore.go:142-144 | big-endian keys of any one width are ordered like their numbers |
| `BoltCursors.ScanAll` | stores/boltdbstore/boltdbstore.go:172-195 | the cursor walk lists exactly the bucket's entries in key order |
| `BoltCursors.ScanTail` | stores/boltdbstore/boltdbstore.go:218-247 | the backward walk and reversal give the last min(n, length) of that list |
| `BoltCursors.ListedIsExact` | stores/boltdbstore/boltdbstore.go:172-195 | the list holds each entry and nothing else |
| `BoltCursors.ListedInVersionOrder` | stores/boltdbstore/boltdbstore.go:181-190 | it is in ascending version order iff versions do not mix signs |
| `BoltStores.PerformAll` | stores/boltdbstore/boltdbstore.go:117-247 | over any sequence of saves, loads, tails, faults and restarts on a new store every answer is that of a plain map id -> version -> data; a load is in ascending version order iff the acknowledged saves of its id before it do not mix negative and other versions, and a tail if they do not; the index is the saved ids assigned in order and fills shard after shard with as many ids as the caller asked for |
| `BoltStores.PlainInVersionOrder` | stores/boltdbstore/boltdbstore.go:181-190 | the whole list of an id is in version order iff its acknowledged saves do not mix signs |
| `BoltStores.PlainVersions` | stores/boltdbstore/boltdbstore.go:141-147 | the plain map holds exactly the versions that were saved and acknowledged |
| `BoltStores.SavesOfBothSigns` | stores/boltdbstore/boltdbstore.go:141-190 | a run that saves versions 1 and -1 and loads them back in that order |
| `BoltStores.LastWriteWins` | stores/boltdbstore/boltdbstore.go:141-147 | in the plain map the last write of a version wins |
| `BoltStores.UnwrittenKept` | stores/boltdbstore/boltdbstore.go:141-147 | versions not written keep what they held |
| `BoltStores.RunKeepsShards` | stores/boltdbstore/boltdbstore.go:271-306 | an id that has a shard at some point of a run has it at the end |
| `BoltStores.PutRecords` | stores/boltdbstore/boltdbstore.go:132-149 | the put loop on a bucket is the plain map's update |
| `BoltStores.BoltStore.Save` | stores/boltdbstore/boltdbstore.go:117-150 | all records or none, in the id's own shard, no other id's entries touched; a late failure may leave a shard assigned |
| `BoltStores.BoltStore.Load` | stores/boltdbstore/boltdbstore.go:153-195 | exactly the id's entries, in order; creating an empty shard file changes no entries |
| `BoltStores.BoltStore.LoadTail` | stores/boltdbstore/boltdbstore.go:199-247 | the newest n of what Load returns |
| `BoltStores.BoltStore.AssignShard` | stores/boltdbstore/boltdbstore.go:271-306 | keeps an id's shard, else takes the current or, when full, the next; a failed transaction changes nothing |
| `BoltStores.BoltStore.CountInShard` | stores/boltdbstore/boltdbstore.go:310-319 | the cursor loop counts the ids of a shard |
| `BoltStores.BoltStore.OpenShard` | stores/boltdbstore/boltdbstore.go:339-362 | opens once, creates a missing file empty, changes nobody's data |
| `Shards.ShardsAsAskedFor` | stores/boltdbstore/boltdbstore.go:25-51 | with m the limit asked for modulo 2^32, or 10000 when none is, and any assignments of k <= m (2^32 - 1) distinct ids: exactly shards 1 to ceil(k / m) are used, all but the last hold m ids, the last at most m |
| `Shards.ShardOfNth` | stores/boltdbstore/boltdbstore.go:271-306 | the j-th new id goes to shard j / m + 1 |
| `Shards.CounterWraps` | stores/boltdbstore/boltdbstore.go:289-290 | behind m (2^32 - 1) ids the next goes to shard 0 |
| `Shards.ShardFilling` | stores/boltdbstore/boltdbstore.go:271-319 | any assignments, no counter overflow, in terms of the limit as stored: shards fill in order and k ids use exactly shards 1 to ceil(k / limit) |
| `Shards.ShardNeverChanges` | stores/boltdbstore/boltdbstore.go:277-281 | further assignments never move an id |
| `Shards.ZeroLimitSkipsShards` | stores/boltdbstore/boltdbstore.go:104-110 | a limit stored as zero sends the first id to shard 2 |
| `Framing.WriteThenRead` | serializers/protobinaryserializer/protobinaryserializer.go:86-174 | for any events and a writer that fails after any number of bytes, or never: reading back yields exactly the events whose frames are complete, then the end error; all of them when all bytes were taken |
| `Framing.NextOfCut` | serializers/protobinaryserializer/protobinaryserializer.go:156-174 | every decoding step on a stream cut anywhere: the next payload while its frame is complete, then an error |
| `Framing.Encoder.WriteEvent` | serializers/protobinaryserializer/protobinaryserializer.go:86-106 | appends the frame, or the part of it the writer took, and reports its size only when complete |
| `Framing.Decoder.ReadN` | serializers/protobinaryserializer/protobinaryserializer.go:142-154 | n bytes, or all there are and an error |
| `Framing.Decoder.ReadEvent` | serializers/protobinaryserializer/protobinaryserializer.go:156-174 | takes exactly one frame; an incomplete one is consumed and gives no event |
| `Framing.LittleEndianRoundTrip` | serializers/protobinaryserializer/protobinaryserializer.go:94-95 | the length header reads back |
| `Framing.FrameIs` | serializers/protobinaryserializer/protobinaryserializer.go:92-101 | a frame is eight bytes, byte i being the length divided by 256^i modulo 256, then the payload |
| `Generator.Generate` | cmd/protoc-gen-protosource/protosourceify.go:1196-1211 | whatever passes validation: an ADD event's only domain field is the source field found, its type is the target map's value type, and element type and key name are not empty |
| `Generator.AddAccepted` | cmd/protoc-gen-protosource/protosourceify.go:361-386 | an ADD event is accepted iff the target is a usable collection and the only domain field has its element type; that field is the one looked up |
| `GeneratorRules.AcceptedByTheRules` | cmd/protoc-gen-protosource/protosourceify.go:545-693 | in terms of names and types: accepted iff the target is a map from strings to some message that has the key as a singular string, and the event has one domain field, of that message for ADD, or for REMOVE a singular string field named as the key and not only creation commands behind it |
| `GeneratorRules.RequiredFields` | cmd/protoc-gen-protosource/protosourceify.go:917-946 | an event has its required fields iff id = 1, version = 2, at = 3, actor = 4 are there with their scalar types, singular or repeated |
| `Generator.RemoveAccepted` | cmd/protoc-gen-protosource/protosourceify.go:665-688 | the only domain field of an accepted REMOVE event is the key iff key_field is not id or actor |
| `Generator.RemoveByAggregateId` | cmd/protoc-gen-protosource/protosourceify.go:665-688 | an accepted REMOVE event keyed by the aggregate id |
| `Generator.LookupsSucceed` | cmd/protoc-gen-protosource/protosourceify.go:390-412 | on an accepted target both lookups find the validated target and key |
| `Generator.ValidateCollectionMapping` | cmd/protoc-gen-protosource/protosourceify.go:545-693 | accepts exactly unannotated and well-mapped events; the error is the first check that fails |
| `Generator.ValidateTarget` | cmd/protoc-gen-protosource/protosourceify.go:551-617 | the checks on annotation, target and element, the first failing one reported |
| `Generator.ValidateEvent` | cmd/protoc-gen-protosource/protosourceify.go:619-692 | the checks on the event, the first failing one reported |
| `Generator.ValidateFields` | cmd/protoc-gen-protosource/protosourceify.go:926-946 | accepts iff every required field has its number and type; names the first that does not and why |
| `Generator.IsCreationEvent` | cmd/protoc-gen-protosource/protosourceify.go:154-174 | some command produces the event and only creation commands do |
| `Generator.EventCollectionSourceField` | cmd/protoc-gen-protosource/protosourceify.go:361-386 | the first event field of the target map's value type |
| `Generator.CollectionElementTypeName` | cmd/protoc-gen-protosource/protosourceify.go:390-397 | the Go name of the value type of the first collection of that name, else empty |
| `Generator.CollectionKeyFieldGoName` | cmd/protoc-gen-protosource/protosourceify.go:401-412 | the Go name of the key field in the first collection of that name that has it, else empty |

## Left out

- HTTP adapters, clients, CLIs, Lambda handlers, router, CORS and authorization: plumbing without state worth a theorem.
- stores/mysqlstore: its INSERT names four columns with three placeholders, so there is nothing to specify.
- TTL stamping and expiry: expiry removes log prefixes the protocol assumes are kept.
- Overflow of the int64 version: versions are unbounded integers; shard numbers, counts and totals do wrap.
- Context cancellation, nil commands, log messages, and commands that cannot emit: each is one early return.
- The key prefix of qualified ids: ids are taken as already qualified.
- Locks inside the memory and Bolt stores, and the double-checked opening of a shard: calls on these two stores are one after the other; only the conditional stores are modelled under concurrency.
- The full, untailed `Load` of DynamoDB and Cosmos, the string form of document ids and GSI sort keys, OpaqueData slots: easy next to the tails.
- Limits of bbolt itself, such as refused empty keys: covered by the transaction faults.
- protovalidate beyond the one constraint the Order schema declares (SetBilling needs a billing).
- Aliasing inside the aggregate (a restored snapshot shares its maps with the event) and of the decoder's scratch buffer with the bytes it returns: both are values here.
- Framing.Encoder.WriteEvent: covers the same framing in `WriteBase64` only by analogy; base64 is not modelled.
- ConditionalStores.ConditionalStore.SaveAggregate: the opaque store's item layout is not modelled, only that the put is unconditional.
- Generator.ValidateCollectionMapping: errors are kinds, not texts; field and message names come from protoc, which guarantees distinct field names and resolved types.
- The remaining validators and the templates of the generator, the TypeScript generator and the sample aggregates.
