# react-template tracker storage, queue, batcher and counter — a Dafny model

This project models the data-handling core of the `react-template` repository:

- **`IndexedDBAdapter`** (src/utils/Tracker/IndexedDBAdapter.ts), a wrapper over the
  browser's Indexed Database. It sets up stores and indexes on first open, and reads,
  adds, deletes and updates records by key or by cursor scan. The browser's database is
  modelled as a value: a map from store names to object stores. Each object store is a
  strictly key-ordered sequence of records with an optional in-line key path, a key
  generator and named indexes. Keys are numbers or strings, ordered as in the "Keys"
  section of the W3C Indexed Database API. Key ranges and cursor directions follow its
  "Key Range" and "Cursor" sections. A cursor walk is the sorted record sequence (or the
  index order) restricted to the range, then reversed or reduced to one record per key
  as the direction asks.
- **The offline queue** (src/utils/Tracker/storeAdapter.ts), which keeps events in the
  auto-increment store `events` of the database `OfflineDataQueue`. It is proved to be
  first-in, first-out.
- **The threshold batcher** of both tracking transmitters
  (src/utils/Tracker/TrackingTransmitter.ts and src/utils/Tracker/trackingTransmitter.ts).
  Payloads are staged, and every 30 staged payloads become one batch on the send queue.
- **The network tracker** (src/utils/networkTracker.ts), an online/offline state machine
  that notifies its listeners on a real change of state.
- **The counter slices** (src/features/counter/slice.ts and examples/withRedux/slice.ts).

Every class of the source is a Dafny `class` whose methods change its fields in place.
Each method is proved against a specification function over values, and the properties
are proved about those functions. Host input is passed in as parameters: whether a
database already exists, whether the open request succeeds, `navigator.onLine`, and the
`Date.now()` batch id.

Files: `outcomes.dfy` (Option, Result, one-or-many arguments), `keys.dfy` (keys, order,
ranges), `object_store.dfy` (the engine's store and its get/add/put/delete),
`cursor.dfy` (cursor walks), `schema.dfy` (store and index creation),
`adapter_spec.dfy` (what each adapter operation does to a store),
`indexeddb_adapter.dfy` (the adapter class), `store_adapter.dfy` (the queue),
`batching.dfy` and `transmitters.dfy` (the batcher), `network_tracker.dfy`,
`counter_slice.dfy`.

## Model

| member | source | states |
|---|---|---|
| ObjectStore.AddRecordEffect | src/utils/Tracker/IndexedDBAdapter.ts:226-228 | `store.add` succeeds only under a key that was free. It then stores the record there, leaves every other key as it was and keeps the store valid (sorted, in-line keys agree, generator ahead). A failed add changes nothing. |
| ObjectStore.AssignKeyFits | src/utils/Tracker/IndexedDBAdapter.ts:90-93 | The key `add` assigns agrees with the in-line key field. The generator only moves forward and stays above every generated key. |
| ObjectStore.PutAtEffect | src/utils/Tracker/IndexedDBAdapter.ts:378-380 | A put at a known key is refused exactly when a unique index conflicts (`ok <==> !UniqueConflict`), and a refused put changes nothing. Otherwise it stores the record at that key, changes no other key and keeps the store valid. |
| ObjectStore.DeleteKeyEffect | src/utils/Tracker/IndexedDBAdapter.ts:266-268 | A delete removes exactly that key, whether or not it was present, and keeps the store valid. |
| Cursor.WalkFromStore | src/utils/Tracker/IndexedDBAdapter.ts:175-176 | Every record a cursor visits is a record of the store. A cursor on the store itself visits only keys inside the range. |
| Cursor.PrimaryWalkOrder | src/utils/Tracker/IndexedDBAdapter.ts:176 | On the store, "next" visits exactly the records whose keys are in the range, in ascending key order. "prev" visits the same records in reverse. |
| Schema.CreateIndexesKeeps | src/utils/Tracker/IndexedDBAdapter.ts:105-116 | Processing index declarations adds exactly the declared names and never changes an existing index. |
| Schema.CreateIndexesFirstWins | src/utils/Tracker/IndexedDBAdapter.ts:108-112 | A new index gets the settings of the first declaration of its name. A bare name gets key path = name, unique = false, multiEntry = false. |
| Schema.CreateIndexesIdempotent | src/utils/Tracker/IndexedDBAdapter.ts:111-113 | Processing the same declarations twice gives the same indexes as once. |
| Schema.CreateStoresKeeps | src/utils/Tracker/IndexedDBAdapter.ts:87-98 | Processing store configs adds exactly the configured names and leaves every existing store, with its indexes, untouched. |
| Schema.CreateStoresFirstWins | src/utils/Tracker/IndexedDBAdapter.ts:89-95 | A new store is created empty from the first config of its name. It takes the config's key path and indexes, and auto-increments unless the config says false. |
| Schema.CreateStoresIdempotent | src/utils/Tracker/IndexedDBAdapter.ts:89 | Processing the same configs twice gives the same stores as once. |
| Schema.CreateStoresValid | src/utils/Tracker/IndexedDBAdapter.ts:90-93 | Every store the upgrade creates is valid. |
| AdapterSpec.AddAllEffect | src/utils/Tracker/IndexedDBAdapter.ts:218-236 | `add` never changes an already-stored record. The count equals the number of new keys, so it never exceeds the number of items. The store stays valid. |
| AdapterSpec.AddAllThrows | src/utils/Tracker/IndexedDBAdapter.ts:225-226 | The run of `store.add` calls throws (DataError, rejecting the promise with the earlier items applied) exactly when some item has no usable key. |
| AdapterSpec.AddThenQuery | src/utils/Tracker/IndexedDBAdapter.ts:226-228 | Adding a record whose key field holds `k` never throws. It either counts 1, after which `k` looks up exactly that record, or counts 0 because `k` was taken or a unique index conflicts, and the store is unchanged. |
| AdapterSpec.GeneratedKeyUnreachable | src/utils/Tracker/IndexedDBAdapter.ts:5 | A record stored under a generated numeric key is invisible to every string-key lookup. This is why the header asks callers for string keys. |
| AdapterSpec.DeleteAllEffect | src/utils/Tracker/IndexedDBAdapter.ts:258-276 | After `deleteByKeys`, no listed key holds a record and every other key is as before. |
| AdapterSpec.GuardedFields | src/utils/Tracker/IndexedDBAdapter.ts:368-376 | The merged record has the fields of both records, with payload fields winning. The key-path field is forced back to the requested key. |
| AdapterSpec.UpdateOneEffect | src/utils/Tracker/IndexedDBAdapter.ts:362-380 | A key without a record is skipped and nothing is written. A key with one gets the guarded merge, unless the store has a unique index and the write is refused, which changes nothing. No other key changes, and the key set never changes. |
| AdapterSpec.UpdateAllEffect | src/utils/Tracker/IndexedDBAdapter.ts:353-388 | `updateByKeys` adds and removes no record, keeps the store valid and touches only the listed keys. The count is at most the number of keys. |
| AdapterSpec.UpdateAllVisits | src/utils/Tracker/IndexedDBAdapter.ts:360-386 | Every listed key, repeats included, ends as follows. A key without a record still has none. A key that held `v` holds `{...v, ...newData}` with the key field forced, or still `v` only when the store has a unique index. Without a unique index the count is exactly the number of listed keys that hold a record; with one it is at most that. |
| AdapterSpec.UpdateKeepsKeyField | src/utils/Tracker/IndexedDBAdapter.ts:370-376 | With an in-line key path, every record's key field reads the same after `updateByKeys` as before. A payload cannot move a record. |
| AdapterSpec.Processed | src/utils/Tracker/IndexedDBAdapter.ts:172-188 | A limited scan processes at most `limit` records and at most the walk's length. It stops only when the walk ends or the limit is hit, and a limit that is not positive processes none. |
| AdapterSpec.DeleteEntriesEffect | src/utils/Tracker/IndexedDBAdapter.ts:313-322 | Deleting the visited records removes exactly their keys. Every key not among them, whether never visited or not reached before the limit, holds the record it held before. |
| AdapterSpec.UpdateWalkEffect | src/utils/Tracker/IndexedDBAdapter.ts:424-441 | A `putByCondition` walk that completes counts exactly the records the condition selects, including updates a unique index refuses. It keeps every key and the store's validity, and leaves records it did not visit unchanged. |
| AdapterSpec.UpdateWalkAborts | src/utils/Tracker/IndexedDBAdapter.ts:436-438 | A walk aborts exactly when some selected record's merge would give it a different in-line key, which makes `cursor.update` throw. |
| AdapterSpec.UpdateWalkVisits | src/utils/Tracker/IndexedDBAdapter.ts:430-440 | When the walk visits no key twice, a record the predicate rejects is left as it was, and a selected record ends as `{...value, ...updateCallback(value)}`. It stays as it was only when the store has a unique index that refused the update. |
| AdapterSpec.ConditionWalkScope | src/utils/Tracker/IndexedDBAdapter.ts:414-416 | The cursor of a range or predicate condition visits exactly the stored records in scope (in the range, or all of them), each key once. |
| AdapterSpec.PutByConditionAborts | src/utils/Tracker/IndexedDBAdapter.ts:413-438 | The call aborts exactly when some stored record in scope that the condition selects would get a different in-line key from its merge. |
| AdapterSpec.PutByConditionEffect | src/utils/Tracker/IndexedDBAdapter.ts:413-441 | A call that completes counts the selected records and keeps every key and validity. A record out of scope (outside the range) is unchanged. A record in scope is unchanged when the predicate rejects it; when selected, it becomes `{...value, ...updateCallback(value)}`, or stays as it was only under a refusing unique index. |
| AdapterSpec.WalkKeysStored | src/utils/Tracker/IndexedDBAdapter.ts:414-416 | Every key a scan visits is a key of the store. |
| AdapterSpec.UpdateAsWrittenDiffers | src/utils/Tracker/IndexedDBAdapter.ts:361-380 | On a concrete store, the code as written drops the field `x` that the intended merge keeps. It also creates and counts a record for the absent key `"b"`, which the intended update skips. |
| IndexedDB.IndexedDBAdapter.constructor | src/utils/Tracker/IndexedDBAdapter.ts:20-24 | A new adapter has its database name and no database. |
| IndexedDB.IndexedDBAdapter.StoreList | src/utils/Tracker/IndexedDBAdapter.ts:29-34 | Before initialisation the store list is empty. Afterwards it names exactly the database's stores. |
| IndexedDB.IndexedDBAdapter.Initialize | src/utils/Tracker/IndexedDBAdapter.ts:40-79 | With a database already set, it returns that database and changes nothing. A failed open leaves it unset; the `Err(OpenFailed)` result stands for the promise resolving `undefined` after the catch logs the error. Otherwise the database is the host's existing one, or, when none exists, the stores the upgrade creates from the normalised configs. |
| IndexedDB.IndexedDBAdapter.ProcessStore | src/utils/Tracker/IndexedDBAdapter.ts:87-98 | The loop over configs yields exactly `CreateStores`, whose properties are proved in Schema. |
| IndexedDB.IndexedDBAdapter.ProcessIndexes | src/utils/Tracker/IndexedDBAdapter.ts:105-116 | The loop over declarations yields exactly `CreateOptionalIndexes`. An absent list does nothing. |
| IndexedDB.IndexedDBAdapter.QueryByKeys | src/utils/Tracker/IndexedDBAdapter.ts:122-148 | It rejects before initialisation and for an unknown store. Otherwise there is one result per normalised key, in order: the stored record, or None for a missing key. Nothing is modified. |
| IndexedDB.IndexedDBAdapter.QueryByCondition | src/utils/Tracker/IndexedDBAdapter.ts:157-202 | It rejects before initialisation, for an unknown store or for an unknown index. Otherwise the result is the first `Processed(walk, limit)` values of the cursor walk (default limit 30, default direction "next"), in cursor order. |
| IndexedDB.IndexedDBAdapter.Add | src/utils/Tracker/IndexedDBAdapter.ts:210-242 | On the error paths the database is unchanged. Otherwise the store becomes `AddAll`'s store for the normalised items. The result is `AddAll`'s count, or `Err(DataError)` when an item had no usable key, in which case the earlier items stay added. |
| IndexedDB.IndexedDBAdapter.AddItems | src/utils/Tracker/IndexedDBAdapter.ts:225-233 | The loop over the items ends with exactly `AddAll`'s store, count and thrown flag, and leaves the store valid. |
| IndexedDB.IndexedDBAdapter.DeleteByKeys | src/utils/Tracker/IndexedDBAdapter.ts:250-282 | On the error paths the database is unchanged. Otherwise the store becomes `DeleteAll` of the normalised keys and the count equals the number of keys. |
| IndexedDB.IndexedDBAdapter.DeleteByCondition | src/utils/Tracker/IndexedDBAdapter.ts:290-336 | On the error paths the database is unchanged. Otherwise exactly the first `Processed(walk, limit)` visited records are deleted, and that is the count. |
| IndexedDB.IndexedDBAdapter.UpdateByKeys | src/utils/Tracker/IndexedDBAdapter.ts:342-394 | On the error paths the database is unchanged. Otherwise the store becomes `UpdateAll` of the normalised keys and the count is the number of successful puts. |
| IndexedDB.IndexedDBAdapter.UpdateItems | src/utils/Tracker/IndexedDBAdapter.ts:361-384 | The loop over the keys ends with exactly `UpdateAll`'s store and count. |
| IndexedDB.IndexedDBAdapter.PutByCondition | src/utils/Tracker/IndexedDBAdapter.ts:399-455 | An unknown store rejects before the condition is examined. A malformed condition rejects with "Error condition." and changes nothing. A merge that would change a record's key aborts and changes nothing. Otherwise the count is the number of selected records. Each record in scope that is selected becomes `{...value, ...updateCallback(value)}` (unless a unique index refuses it). Every other record is unchanged. |
| StoreAdapter.UpgradeEffect | src/utils/Tracker/storeAdapter.ts:19-24 | The upgrade creates `events` (auto-increment, no key path) only when it is absent, keeps every other store, and running it twice is the same as once. |
| StoreAdapter.EnqueueAppends | src/utils/Tracker/storeAdapter.ts:38-40 | `add` on the queue always succeeds. It stores the data under the generator's number, a key larger than every queued key, and changes no other record. The contents gain the data at the end. |
| StoreAdapter.DequeueTakesFirst | src/utils/Tracker/storeAdapter.ts:50-60 | On a non-empty queue, it returns the record with the lowest key and removes exactly that record. On an empty queue, it returns None and changes nothing. |
| StoreAdapter.EnqueueAllContents | src/utils/Tracker/storeAdapter.ts:35-43 | Enqueuing `ds` appends `ds`, in order, to the contents. |
| StoreAdapter.DrainContents | src/utils/Tracker/storeAdapter.ts:45-65 | Dequeuing until empty returns the contents in order. |
| StoreAdapter.Fifo | src/utils/Tracker/storeAdapter.ts:35-60 | Records enqueued as d1..dn are dequeued as d1..dn, after those already queued. |
| StoreAdapter.IndexedDBAdapter.constructor | src/utils/Tracker/storeAdapter.ts:8-11 | Database "OfflineDataQueue", store "events", no cached database. |
| StoreAdapter.IndexedDBAdapter.InitDB | src/utils/Tracker/storeAdapter.ts:13-33 | The cached stores become `OpenedStores(cached, existing, openSucceeds)`: a cached database is kept; otherwise a failed open caches none and rejects, and a successful one caches the host's existing version-1 database or, when none exists, the upgraded one. |
| StoreAdapter.IndexedDBAdapter.Enqueue | src/utils/Tracker/storeAdapter.ts:35-43 | Whether or not a database was cached, it goes through `initDB`. It rejects when the open fails or the opened database has no `events`. Otherwise it succeeds, the queue store becomes `Enqueued`, and the contents gain the data at the end. |
| StoreAdapter.IndexedDBAdapter.Dequeue | src/utils/Tracker/storeAdapter.ts:45-65 | Whether or not a database was cached, it goes through `initDB`. It rejects when the open fails or there is no `events`. On an empty queue it returns None and changes nothing. Otherwise it returns the first record and the contents lose exactly it. |
| StoreAdapter.IndexedDBAdapter.IsEmpty | src/utils/Tracker/storeAdapter.ts:67-74 | After `initDB` it rejects when the open fails or there is no `events`. Otherwise it answers true exactly when the queue holds no record, and changes no store. |
| Batching.AddItemEffect | src/utils/Tracker/TrackingTransmitter.ts:24-34 | `add` keeps the staging queue below 30 and every batch full with zero attempts. It loses and reorders nothing and only appends to the send queue. A batch is cut exactly when the 30th payload is staged. |
| Batching.AddItemsCounts | src/utils/Tracker/TrackingTransmitter.ts:24-34 | After n adds, all payloads are held in order, (t + n) / 30 batches have been added and (t + n) % 30 payloads are staged, where t is the number staged at the start. |
| NetworkedTransmitter.TrackingTransmitter.constructor | src/utils/Tracker/TrackingTransmitter.ts:18-22 | Queues start empty, and the transmitter's callback is subscribed to the tracker without changing its state or calling anyone. |
| NetworkedTransmitter.TrackingTransmitter.Add | src/utils/Tracker/TrackingTransmitter.ts:24-34 | The queues become `AddItem` of the old queues. The batcher invariant and no-loss hold. |
| NetworkedTransmitter.TrackingTransmitter.TryFlush | src/utils/Tracker/TrackingTransmitter.ts:36-42 | It flushes exactly when the tracker's current state is online. |
| NetworkedTransmitter.TrackingTransmitter.OnNetworkState | src/utils/Tracker/TrackingTransmitter.ts:19-21 | The subscribed callback flushes exactly on "online" with a non-empty send queue. |
| PlainTransmitter.TrackingTransmitter.constructor | src/utils/Tracker/trackingTransmitter.ts:7-12 | Both queues start empty. |
| PlainTransmitter.TrackingTransmitter.Add | src/utils/Tracker/trackingTransmitter.ts:15-25 | The queues become `AddItem` of the old queues. The batcher invariant and no-loss hold. |
| Network.EachListenerOnce | src/utils/networkTracker.ts:17-20 | The calls of a state change reach every subscribed listener exactly once, with the new state, and no one else. |
| Network.AddedMembers | src/utils/networkTracker.ts:28 | Subscribing adds exactly that listener and keeps listeners distinct. |
| Network.WithoutMembers | src/utils/networkTracker.ts:29 | Unsubscribing removes that listener only and keeps the rest distinct. |
| Network.SubscribeThenUnsubscribe | src/utils/networkTracker.ts:27-30 | Subscribing a new listener and calling the returned function restores the listeners. |
| Network.NetworkTracker.constructor | src/utils/networkTracker.ts:5-6 | The initial state follows `navigator.onLine`. There are no listeners and no calls yet. |
| Network.NetworkTracker.UpdateState | src/utils/networkTracker.ts:16-25 | Afterwards `currentState` is the new state. The same state calls no one. A new state calls every listener with it, in subscription order. |
| Network.NetworkTracker.Subscribe | src/utils/networkTracker.ts:27-30 | The listeners become `Added(listeners, l)`. The returned handle is that listener. |
| Network.NetworkTracker.Unsubscribe | src/utils/networkTracker.ts:29 | The listeners lose that listener only. It reports whether it was subscribed. |
| Network.TrackerSingleton.GetInstance | src/utils/networkTracker.ts:32-36 | The first call creates a tracker. Every later call returns that same tracker. |
| CounterSlice.IncrementDecrementInverse | src/features/counter/slice.ts:23-28 | `increment` then `decrement`, in either order, restores the state. |
| CounterSlice.ReduceFrames | src/features/counter/slice.ts:23-44 | Plain reducers change only the value, and `incrementByAmount(n)` adds n. Request sets only "loading". Success sets "succeeded" and the payload value. Failure sets only the error message. |
| CounterSlice.NeverFailed | src/features/counter/slice.ts:33-44 | No sequence of actions leads to status "failed" from a state that is not already "failed". |
| CounterSlice.InitialNeverFailed | src/features/counter/slice.ts:13-17 | The initial state is 0, "idle", null, and no sequence of actions from it reaches "failed". |
| CounterSlice.CounterDraft.constructor | src/features/counter/slice.ts:13-17 | The draft starts as the initial state. |
| CounterSlice.CounterDraft.Increment | src/features/counter/slice.ts:23-25 | The draft becomes `Reduce(old, Increment)`. |
| CounterSlice.CounterDraft.Decrement | src/features/counter/slice.ts:26-28 | The draft becomes `Reduce(old, Decrement)`. |
| CounterSlice.CounterDraft.IncrementByAmount | src/features/counter/slice.ts:29-31 | The draft becomes `Reduce(old, IncrementByAmount(n))`. |
| CounterSlice.CounterDraft.OnRequest | src/features/counter/slice.ts:35-37 | The draft becomes `Reduce(old, Request)`. |
| CounterSlice.CounterDraft.OnSuccess | src/features/counter/slice.ts:38-41 | The draft becomes `Reduce(old, Success(payload))`. |
| CounterSlice.CounterDraft.OnFailure | src/features/counter/slice.ts:42-44 | The draft becomes `Reduce(old, Failure(message))`. |
| ExampleCounterSlice.ExampleCounterDraft.constructor | examples/withRedux/slice.ts:13-17 | The draft starts as the initial state. |
| ExampleCounterSlice.ExampleCounterDraft.Increment | examples/withRedux/slice.ts:23-25 | The draft becomes `Reduce(old, Increment)`. |
| ExampleCounterSlice.ExampleCounterDraft.Decrement | examples/withRedux/slice.ts:26-28 | The draft becomes `Reduce(old, Decrement)`. |
| ExampleCounterSlice.ExampleCounterDraft.IncrementByAmount | examples/withRedux/slice.ts:29-31 | The draft becomes `Reduce(old, IncrementByAmount(n))`. |
| ExampleCounterSlice.ExampleCounterDraft.OnRequest | examples/withRedux/slice.ts:35-37 | The draft becomes `Reduce(old, Request)`. |
| ExampleCounterSlice.ExampleCounterDraft.OnSuccess | examples/withRedux/slice.ts:38-41 | The draft becomes `Reduce(old, Success(payload))`. |
| ExampleCounterSlice.ExampleCounterDraft.OnFailure | examples/withRedux/slice.ts:42-44 | The draft becomes `Reduce(old, Failure(message))`. |

## Left out

- Request and transaction callback timing, the interleaving of `oncomplete` and `onerror`, and promise plumbing are left out. Each public method is one sequential step that runs its requests in order.
- The engine aborts a transaction when a request's error event is not cancelled. That is left out. A refused `add` or `put` request is modelled as skipped and not counted. A refused cursor update in `putByCondition` leaves the record unchanged and is still counted, because the count is taken without waiting for the request. A key-changing merge in `putByCondition` throws inside the handler and is modelled as an abort.
- `console` logging is left out.
- The error object of each rejection is not modelled. Only its kind is.
- Records are flat maps of null, boolean, whole-number and string fields. Nested objects, arrays, dates, binary keys and array keys are left out, as are composite (array) key paths, whose branch in `updateByKeys` is empty.
- Multi-entry indexes are left out: an index takes one key per record. The `multiEntry` flag is recorded but not used.
- Unique indexes only refuse a conflicting write. The model does not state which conflicts arise from the records' index fields beyond that.
- String keys compare character by character. UTF-16 code units are not modelled separately.
- Numbers are unbounded integers, so floating point is not modelled. This covers the counter value, payloads, the `limit` option and generated keys, including the generator's 2^53 ceiling.
- A scan walks the records as they were when the cursor opened. `deleteByCondition` and `putByCondition` only change the record under the cursor, so the rest of the walk is the same.
- The host's answers are parameters: whether the database exists, whether the open request succeeds, `navigator.onLine`, and the `Date.now()` batch id. A database that already exists is taken as given and assumed to be valid.
- StoreAdapter.IndexedDBAdapter.InitDB: the existing queue store is assumed to have the shape this code creates (no key path, auto-increment, no index, numeric keys).
- The `window` online/offline listeners that drive `updateState` are left out. The model calls `UpdateState` directly.
- Listeners are known by identity only. A call to a listener is recorded in the tracker's `notified` log, and what the listener then does is not modelled, except for the transmitter's own callback (`OnNetworkState`).
- `flush`, `send`, `sendByImage` and `sendByBeacon` have empty bodies. The model reports whether `flush` is called. `RETRY_COUNT` is declared and never read.
- src/utils/Tracker/TrackManager.ts and src/utils/Tracker/DataBuilderStrategy.ts are empty and are not part of this model. Neither are the type-only files, the sagas, the UI, the routing or the build configuration.
- CounterSlice.CounterDraft.OnRequest, CounterSlice.CounterDraft.OnSuccess, CounterSlice.CounterDraft.OnFailure: src/features/counter/slice.ts:5 imports `fetchCounterAsync`, but src/features/counter/actions.ts:3 exports only `fetchCountAsync`, the object the saga dispatches. As written the name is `undefined`, so `fetchCounterAsync.request` at line 35 throws when the builder callback runs and the three cases are never registered. The three members model the case bodies as intended, on `fetchCountAsync`'s actions.
- src/utils/Tracker/TrackingTransmitter.ts:1 imports `networkTracker` from "./NetworkTracker", a file not among the sources; the tracker in this repository is src/utils/networkTracker.ts, one directory up and spelled in lower case. The model binds the transmitter to that singleton.
- `counterNumber` selectors and the slice's action creators are library plumbing and are left out.
- Four behaviours of the code worth noting, all modelled as the code has them:
  - `deleteByKeys` counts every key, because deleting an absent key succeeds.
  - `queryByKeys` gives an `undefined` entry for a missing key.
  - `processStore` adds no index to a store that already exists.
  - The upgrade step runs only when the database does not exist yet, because the database is opened without a version.

## Findings

| source | as written | input that shows it | evidently intended | confidence | as-written member | corrected member |
|---|---|---|---|---|---|---|
| src/utils/Tracker/IndexedDBAdapter.ts:362-378 | `await store.get(key)` awaits an `IDBRequest`, which is not a promise, so `existingData` is the request object. It is never falsy and spreads no field. Every key is therefore written with `newData` plus the key field alone, whether or not a record was stored there. | Store keyed by `id` holding `{id: "a", x: 1}`. `updateByKeys(["a"], {y: 2})` stores `{id: "a", y: 2}`, losing `x`. `updateByKeys(["b"], {y: 2})` creates record `"b"` and counts 1. | Read the stored record, skip a missing key, and store `{...existing, ...newData}` with the key field forced. | high (not executed) | AdapterSpec.UpdateAllAsWritten (shown by AdapterSpec.UpdateAsWrittenDiffers) | AdapterSpec.UpdateAll (properties: AdapterSpec.UpdateAllEffect, AdapterSpec.UpdateAllVisits, AdapterSpec.UpdateKeepsKeyField) |
