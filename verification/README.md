# Click counter: aggregator and repository

This project models the core of a banner click counter written in Go.

Clicks come in through `Usecase.Increment`. Each click adds one to the
banner's count in one shard of a sharded in-memory cache. On a timer,
`Usecase.FlushToDB` walks the shards in order. For each shard it:

- clears a reusable buffer;
- copies the shard into the buffer;
- empties the shard;
- hands the buffer to the repository's `BatchData` unless the buffer is empty.

An error from `BatchData` is ignored.

`BatchData` queues one additive upsert per banner into the `banners_counter`
table: the statement creates the banner's bucket, or adds the count to it. The bucket
for each row is the minute the row is queued in. `GetStats` selects a
banner's rows in a time range, ordered by timestamp.

The model is written as pure functions over immutable values:

- `sums.dfy` (module `Sums`): the total of a finite map, and enumerations of a finite set. A Go `range` over a map visits keys in an arbitrary order.
- `inmemory.dfy` (module `InMemory`): shards, and routing a key to its shard.
- `repository.dfy` (module `Repository`):
  - the table, as a map from (banner id, minute) to value;
  - `BatchData`, defined by its effect (`Merge`) and also as the queued upserts (`Queue`, `Exec`);
  - `GetStats`, as a scan over the range.
- `usecase.dfy` (module `Usecase`): `New`, `Increment`, `FlushToDB` and `GetStats`.
- `trace.dfy` (module `Trace`): runs of clicks and flush ticks, conservation of clicks, and a worked scenario.

Times are Unix seconds. The clock is a parameter: `now(i)(id)` is the reading
taken when the flush's call for shard `i` queues the row for banner `id`.
Whether the database accepts the call for shard `i` is the parameter
`accepts(i)`. The cache's routing function is a parameter `route`. All that
is known about it is that it picks one of the `n > 0` shards.

The flush loop calls the repository only through a `Sender`, a function from
the table and the call to the new table. A `Sender` is an abstraction of the
usecase's `model.Repository` interface, not a copy of it. It receives the
shard index with the batch, which `BatchData(ctx, map)` never gets, so that
the clock and the database's answer can depend on the call. It has no error
result, since the loop drops the error anyway. `FlushToDB` plugs in this
model's `BatchData` through `Deliver`. The lemmas about which calls are made and what state is
left behind hold for any sender.

## Model

| member | source | states |
|---|---|---|
| Repository.Minute | internal/banners/repository/main.go:47 | `Truncate(time.Minute)` yields a multiple of 60 that is at most the reading and more than the reading minus 60 |
| Repository.MinuteUnique | internal/banners/repository/main.go:47 | the truncated minute is the only multiple of 60 in (s - 60, s] |
| Repository.Merge | internal/banners/repository/main.go:33-48 | the table after a batch has the old buckets plus one bucket per banner of the batch, and every bucket holds its old value plus what the batch adds to it |
| Repository.BatchDataReply | internal/banners/repository/main.go:29-32 | an empty batch returns nil and sends no statement, even when the database is down. A non-empty batch queues one statement per entry. The call fails exactly when the batch is non-empty and the database refuses it, and a failed call leaves the table unchanged |
| Repository.BatchDataAt | internal/banners/repository/main.go:33-48 | after a successful call, one bucket holds its old value plus the batch's contribution, and it exists exactly when it existed before or the batch writes it |
| Repository.BatchDataWrites | internal/banners/repository/main.go:33-48 | after a successful call the values are additive and the keys are the old keys plus the written buckets. In every case no existing bucket disappears or shrinks and buckets of other banners are untouched. A new bucket is minute-aligned and lies in the minute before its row's clock reading |
| Repository.BatchDataMerges | internal/banners/repository/main.go:29-32 | toward an accepting database a call is a plain merge, because an empty batch merges nothing |
| Repository.Upsert | internal/banners/repository/main.go:33-42 | one statement creates its bucket if missing and adds its value to it, leaving every other bucket unchanged |
| Repository.Queue | internal/banners/repository/main.go:44-48 | the loop queues exactly one statement per visited entry: statement k is the k-th visited banner's row, stamped with the minute of its own clock reading and carrying its count |
| Sums.EnumeratesCard | internal/banners/repository/main.go:46 | a range that visits every key of the map exactly once makes as many visits as the map has entries |
| Repository.BatchDataSendsQueue | internal/banners/repository/main.go:44-57 | for a non-empty batch, the `len(data)` results read back are exactly as many as the statements queued |
| Repository.ExecAt | internal/banners/repository/main.go:50-57 | executing the queued statements in order adds to each bucket the values of the statements naming it, and a bucket exists afterwards exactly when it existed before or some statement names it |
| Repository.QueueRealisesMerge | internal/banners/repository/main.go:44-57 | executing the queued upserts, in whatever order the map is ranged over, gives the merged table |
| Repository.UpsertTotal | internal/banners/repository/main.go:33-42 | one upsert raises the table's total by the row's value |
| Repository.ExecTotal | internal/banners/repository/main.go:53-57 | executing queued statements raises the total by the sum of their values |
| Repository.QueueTotal | internal/banners/repository/main.go:44-48 | the queued statements carry exactly the sum of the batch |
| Repository.BatchDataTotal | internal/banners/repository/main.go:29-60 | a successful call raises the total of all buckets by exactly the sum of the batch, and a failed one changes nothing |
| Repository.MergeCommutes | internal/banners/repository/main.go:40-41 | merging two batches gives the same table in either order |
| Repository.BatchDataCommutes | internal/banners/repository/main.go:40-41 | two accepted calls commute: writes to a shared bucket add up and never overwrite |
| Repository.Scan | internal/banners/repository/main.go:64-70 | the rows come in strictly ascending `ts`. Each row is a bucket of the banner inside [from, to] with its stored value, and every such bucket appears |
| Repository.GetStats | internal/banners/repository/main.go:64-88 | a query the database refuses returns only an error, as at lines 72-74. Otherwise the result is exactly the banner's buckets in [from, to], ascending by `ts` |
| InMemory.GetShard | internal/banners/usecase/main.go:33 | the routed shard index is always one of the cache's shards |
| Usecase.New | internal/banners/usecase/main.go:22-28 | a new usecase has an empty buffer over the given cache |
| Usecase.Increment | internal/banners/usecase/main.go:32-39 | the banner's live count goes up by one and every other banner's stays the same. Only the routed shard changes, and in it only the clicked banner's entry. The buffer is untouched, and keys stay in their routed shards |
| Usecase.Copy | internal/banners/usecase/main.go:53 | `maps.Copy` writes every source entry over the destination and keeps the destination's other entries |
| Usecase.Refill | internal/banners/usecase/main.go:48-53 | after clearing and copying, the buffer holds exactly the shard, whatever it held before |
| Usecase.Drain | internal/banners/usecase/main.go:46-56 | draining shard `i` empties that shard only and leaves its previous contents in the buffer |
| Usecase.FlushFrom | internal/banners/usecase/main.go:45-63 | the loop from shard `i` leaves the earlier shards as they were and empties every later one |
| Usecase.PendingCalls | internal/banners/usecase/main.go:53-62 | every call carries a non-empty shard's whole contents from before the flush |
| Usecase.PendingComplete | internal/banners/usecase/main.go:45-62 | every non-empty shard is sent |
| Usecase.PendingIncreasing | internal/banners/usecase/main.go:45 | calls go out in strictly increasing shard order, so there is at most one per shard |
| Usecase.FlushSendsPending | internal/banners/usecase/main.go:58-62 | the calls made are those listed from the shards alone. They depend neither on the table nor on what the repository does, so an error never stops the loop |
| Usecase.FlushBucket | internal/banners/usecase/main.go:61-62 | each bucket gains exactly what the accepted calls add to it, and refused calls change nothing |
| Usecase.FlushTable | internal/banners/usecase/main.go:61-62 | the same as `FlushBucket`, for every bucket at once |
| Usecase.FlushToDB | internal/banners/usecase/main.go:43-64 | every shard ends empty and every non-empty shard is sent once with exactly its prior contents, in shard order. The table gains exactly what the accepted calls carry, and no bucket appears that no accepted call writes |
| Usecase.SendTotal | internal/banners/usecase/main.go:45-62 | through any repository that adds an accepted, non-empty batch's sum to the table's total, the loop raises the total by exactly the sum of the accepted batches |
| Usecase.FlushTotal | internal/banners/usecase/main.go:61-62 | the table's total rises by exactly the sum of the accepted batches |
| Usecase.FlushBuffer | internal/banners/usecase/main.go:48-55 | after a flush the buffer holds the last shard's snapshot, since it is refilled for every shard, empty or not |
| Usecase.FlushIgnoresErrors | internal/banners/usecase/main.go:61-62 | the state left and the calls made are the same whatever the table, the clock and the database's answers |
| Usecase.FlushNothing | internal/banners/usecase/main.go:58-60 | a flush over empty shards makes no call and leaves the table unchanged |
| Usecase.FlushIdle | internal/banners/usecase/main.go:55-60 | a second flush with no click in between makes no call and leaves the table unchanged |
| Usecase.PendingEmits | internal/banners/usecase/main.go:45-62 | with keys in their routed shards, the calls from shard `i` on carry a banner's live count if its shard is among them, and nothing otherwise |
| Usecase.FlushEmits | internal/banners/usecase/main.go:45-62 | a flush hands over exactly each banner's live count |
| Usecase.PendingAtMostOnce | internal/banners/usecase/main.go:45-62 | with keys in their routed shards, no banner appears in two calls |
| Usecase.FlushAtMostOnce | internal/banners/usecase/main.go:45-62 | within one flush, a banner appears in at most one batch |
| Usecase.GetStats | internal/banners/usecase/main.go:68-70 | statistics are exactly what the repository returns, error included |
| Trace.StepConserves | internal/banners/usecase/main.go:32-64 | one event keeps keys in their routed shards. What it emits plus what stays live equals what was live plus the clicks it adds |
| Trace.RunConserves | internal/banners/usecase/main.go:32-64 | over any run, the clicks emitted plus the clicks still live equal the clicks live at the start plus the clicks in the run |
| Trace.RunAppend | internal/banners/usecase/main.go:32-64 | running two stretches of events one after the other is the same as running them together |
| Trace.NothingLost | internal/banners/usecase/main.go:43-64 | from a fresh cache, a run ending in a flush has handed every click to `BatchData` exactly once |
| Trace.NeverClickedNeverSent | internal/banners/usecase/main.go:32-62 | a banner enters a shard only through a click (`sh.Data[id]++`). If no shard holds it and the run never clicks it, no shard ever holds it and no call ever carries it, not even with a count of zero |
| Trace.DeliveredFixed | internal/banners/repository/main.go:46-48 | with a single clock reading and a database that accepts every call, a bucket of that minute receives all of its banner's emitted clicks and other buckets receive nothing |
| Trace.WrittenOnly | internal/banners/repository/main.go:46-48 | with a single clock reading and a database that accepts every call, calls carrying one banner write only that banner's bucket of that minute |
| Trace.ScanSingle | internal/banners/repository/main.go:64-70 | on a one-bucket table the scan finds exactly that row when it lies in range, and nothing otherwise |
| Trace.FlushAddsLive | internal/banners/usecase/main.go:43-64 | with a single clock reading and the database up, each banner's current-minute bucket gains exactly its live count |
| Trace.FlushCarriesOnly | internal/banners/usecase/main.go:53-62 | a cache holding one banner produces batches with only that banner |
| Trace.FlushKeysOnly | internal/banners/usecase/main.go:43-64 | a flush of a one-banner cache into an empty table creates only that banner's current-minute bucket |
| Trace.FlushOnly | internal/banners/usecase/main.go:43-64 | that flush leaves exactly one bucket, holding the banner's live count |
| Trace.ThreeClicks | internal/banners/usecase/main.go:32-39 | three clicks on one banner in a fresh cache give a live count of 3, with only that banner in its routed shard |
| Trace.ThreeClicksOneFlush | internal/banners/usecase/main.go:32-64 | three clicks on banner 42 and one accepted flush into an empty table give the single bucket (42, minute) = 3. `GetStats` over the surrounding hour returns exactly that row |

## Left out

- Locks, goroutines and the flush ticker (`internal/banners/manager.go`, `internal/manager.go`): each `Increment` and each whole `FlushToDB` is one atomic step. An `Increment` landing between the drain of one shard and the send of another is not modelled.
- Overlapping flushes are not modelled. `internal/manager.go:16` starts `workers = 4` flush loops (`internal/banners/manager.go:34-48`), and all of them call `FlushToDB` on the same usecase. The shared buffer (`internal/banners/usecase/main.go:17`) is cleared and refilled under the shard's lock (lines 49-53) but ranged over by `BatchData` with no lock held (line 62). Two flushes that overlap can therefore send a banner's clicks twice or lose them, or Go can abort on concurrent map access. Usecase.Refill, Usecase.FlushAtMostOnce, Trace.RunConserves and Trace.NothingLost hold only when flushes never overlap.
- The wall clock: it is the parameter `now`. Nanoseconds are dropped, and times are integer Unix seconds.
- The cache package (`internal/provider/inmemory`) is not part of this model.
  - Its routing function is the parameter `route`, known only to pick one of the shards.
  - Its constructor is assumed to give `n` empty shards (`InMemory.Empty`).
  - Its shards are assumed to be held by reference (`*Shard`), so that resetting `sh.Data` during a flush (`internal/banners/usecase/main.go:55`) empties the cache's own shard (Usecase.Drain). If the cache held shards by value, `range` (line 45) would copy each one, the reset would not reach the cache, and every flush would resend old counts.
  - `NumCPU`-based sizing and the configuration constants are left out.
- The database connection and pgx mechanics (`SendBatch`, `Exec`, `Close`).
  - A refused batch changes nothing. A partial failure, with some statements applied and a later `Exec` failing, is not modelled.
  - `GetStats` errors are all-or-nothing too: a failing `Scan` of one row (`internal/banners/repository/main.go:81-82`) is folded into the query failing.
- Repository.BatchDataReply: only the error that the flush loop drops is modelled. Errors of individual `Exec` calls are not distinguished.
- HTTP, JSON, request parsing and the router (`controller`, `router`, `common`, `cmd`).
- int64 overflow of counts and sums: counts are unbounded naturals.
- The Go guard `len(u.buffer) == 0` is written as `buffer == map[]`, which is the same condition.
- Repository.GetStats: an error reported by `rows.Err()` after some rows were read is not modelled. The source returns those partial rows together with the error (`internal/banners/repository/main.go:87`), while the model's failure carries no rows. The only caller, `internal/banners/controller/main.go:71-73`, discards the rows whenever there is an error. The scan also steps through whole seconds. It sees every bucket because buckets lie on whole minutes, but sub-second bounds are not modelled.

