/**
 * The offline queue `IndexedDBAdapter` of src/utils/Tracker/storeAdapter.ts: records
 * are kept in the auto-increment store "events" of the database "OfflineDataQueue";
 * `enqueue` adds a record under the next generated key and `dequeue` takes the record
 * with the lowest key, so records leave in the order they arrived.
 */
module StoreAdapter {
  import opened Outcomes
  import opened Keys
  import opened ObjectStore
  import opened AdapterSpec

  const QueueDbName := "OfflineDataQueue"
  const QueueStoreName := "events"

  /** The store `createObjectStore("events", { autoIncrement: true })` makes: no key path, no index. */
  function QueueStoreCreated(): Store
  {
    EmptyStore(None, true, map[])
  }

  /** The upgrade step of `initDB`: the queue store is created only when it is absent. */
  function Upgrade(stores: map<string, Store>): map<string, Store>
  {
    if QueueStoreName in stores then stores else stores[QueueStoreName := QueueStoreCreated()]
  }

  /**
   * A store this queue can own: valid, out-of-line keys, a key generator, no index, and
   * only generated (numeric) keys.
   */
  predicate QueueShape(st: Store)
  {
    Valid(st) && st.keyPath.None? && st.autoIncrement && st.indexes == map[] &&
    forall j :: 0 <= j < |st.entries| ==> st.entries[j].key.NumKey?
  }

  /** The queued records, oldest first. */
  function Contents(st: Store): seq<Record>
  {
    Values(st.entries)
  }

  /** `store.add(data)` on the queue store. */
  function Enqueued(st: Store, data: Record): Store
  {
    AddRecord(st, data).0
  }

  /** The cursor's first record is returned and `store.delete(cursor.primaryKey)` removes it; an empty store gives None (`null`). */
  function Dequeued(st: Store): (Option<Record>, Store)
  {
    if st.entries == [] then (None, st)
    else (Some(st.entries[0].value), DeleteKey(st, st.entries[0].key))
  }

  lemma UpgradeEffect(stores: map<string, Store>)
    ensures QueueStoreName in Upgrade(stores)
    ensures QueueStoreName !in stores ==> Upgrade(stores)[QueueStoreName] == QueueStoreCreated() && QueueShape(QueueStoreCreated())
    ensures forall n :: n in stores ==> Upgrade(stores)[n] == stores[n]
    ensures Upgrade(Upgrade(stores)) == Upgrade(stores)
  {
  }

  /**
   * `enqueue` succeeds on a queue store: the record is stored under the generator's
   * number, a key larger than every key already there, and no other record changes.
   */
  lemma EnqueueAppends(st: Store, data: Record)
    requires QueueShape(st)
    ensures AddRecord(st, data).1
    ensures Enqueued(st, data) == st.(entries := st.entries + [Entry(NumKey(st.current), data)], current := st.current + 1)
    ensures QueueShape(Enqueued(st, data))
    ensures Contents(Enqueued(st, data)) == Contents(st) + [data]
  {
    var e := Entry(NumKey(st.current), data);
    var st' := st.(entries := st.entries + [e], current := st.current + 1);
    assert AssignKey(st, data) == Some(KeyAssignment(e.key, data, st.current + 1));
    assert !UniqueConflict(st, e.key, data);
    GeneratedKeyAbove(st);
    LookupBelowAll(st.entries, e.key);
    PutAbove(st.entries, e);
    assert AddRecord(st, data) == (st', true);
    AddRecordEffect(st, data);
    assert forall j :: 0 <= j < |st'.entries| ==> st'.entries[j].key.NumKey? by {
      forall j | 0 <= j < |st'.entries| ensures st'.entries[j].key.NumKey? {
        if j < |st.entries| {
          assert st'.entries[j] == st.entries[j];
        }
      }
    }
    ValuesAppend(st.entries, e);
  }

  /** The generated key sorts after every key of a queue store. */
  lemma GeneratedKeyAbove(st: Store)
    requires QueueShape(st)
    ensures forall j :: 0 <= j < |st.entries| ==> KeyLess(st.entries[j].key, NumKey(st.current))
  {
  }

  lemma {:induction false} LookupBelowAll(es: seq<Entry>, k: Key)
    requires forall j :: 0 <= j < |es| ==> KeyLess(es[j].key, k)
    ensures Lookup(es, k) == None
  {
    if es != [] {
      KeyLessIrreflexive(k);
      LookupBelowAll(es[1..], k);
    }
  }

  lemma ValuesAppend(es: seq<Entry>, e: Entry)
    ensures Values(es + [e]) == Values(es) + [e.value]
  {
  }

  /**
   * `dequeue` on a non-empty queue returns the record with the lowest key and removes
   * exactly that record; on an empty queue it returns None and changes nothing.
   */
  lemma DequeueTakesFirst(st: Store)
    requires QueueShape(st)
    ensures var (head, st') := Dequeued(st);
      QueueShape(st') &&
      (st.entries == [] ==> head == None && st' == st) &&
      (st.entries != [] ==>
        (forall j :: 0 < j < |st.entries| ==> KeyLess(st.entries[0].key, st.entries[j].key)) &&
        head == Some(Contents(st)[0]) && Contents(st') == Contents(st)[1..] &&
        KeysOf(st'.entries) == KeysOf(st.entries) - {st.entries[0].key})
  {
    if st.entries != [] {
      RemoveFirst(st.entries);
      DeleteKeyEffect(st, st.entries[0].key);
    }
  }

  /** Enqueues `ds` in order. */
  function EnqueueAll(st: Store, ds: seq<Record>): Store
    decreases ds
  {
    if ds == [] then st else EnqueueAll(Enqueued(st, ds[0]), ds[1..])
  }

  /** Dequeues until `dequeue` returns None, collecting what it returns. */
  function Drain(st: Store): seq<Record>
    decreases |st.entries|
  {
    if st.entries == [] then []
    else
      var rest := DeleteKey(st, st.entries[0].key);
      RemoveMembersCount(st.entries, st.entries[0].key);
      [st.entries[0].value] + Drain(rest)
  }

  lemma {:induction false} RemoveMembersCount(es: seq<Entry>, k: Key)
    ensures |Remove(es, k)| <= |es|
    ensures (exists i :: 0 <= i < |es| && es[i].key == k) ==> |Remove(es, k)| < |es|
  {
    if es != [] {
      RemoveMembersCount(es[1..], k);
      if es[0].key != k && (exists i :: 0 <= i < |es| && es[i].key == k) {
        var i :| 0 <= i < |es| && es[i].key == k;
        assert es[1..][i - 1].key == k;
      }
    }
  }

  lemma {:induction false} EnqueueAllContents(st: Store, ds: seq<Record>)
    requires QueueShape(st)
    ensures QueueShape(EnqueueAll(st, ds))
    ensures Contents(EnqueueAll(st, ds)) == Contents(st) + ds
    decreases ds
  {
    if ds != [] {
      EnqueueAppends(st, ds[0]);
      EnqueueAllContents(Enqueued(st, ds[0]), ds[1..]);
      assert Contents(st) + [ds[0]] + ds[1..] == Contents(st) + ds;
    }
  }

  lemma {:induction false} DrainContents(st: Store)
    requires QueueShape(st)
    ensures Drain(st) == Contents(st)
    decreases |st.entries|
  {
    if st.entries != [] {
      DequeueTakesFirst(st);
      var rest := DeleteKey(st, st.entries[0].key);
      RemoveMembersCount(st.entries, st.entries[0].key);
      DrainContents(rest);
      assert Contents(st) == [Contents(st)[0]] + Contents(st)[1..];
    }
  }

  /** FIFO: records enqueued in the order d1..dn come out of `dequeue` after the ones already queued, in the same order. */
  lemma Fifo(st: Store, ds: seq<Record>)
    requires QueueShape(st)
    ensures Drain(EnqueueAll(st, ds)) == Contents(st) + ds
    ensures st.entries == [] ==> Drain(EnqueueAll(st, ds)) == ds
  {
    EnqueueAllContents(st, ds);
    DrainContents(EnqueueAll(st, ds));
  }

  /**
   * The stores `initDB` settles on: the cached database; otherwise, when the open
   * succeeds, the host's existing version-1 database, or a new one after the upgrade
   * step; None when the open fails.
   */
  function OpenedStores(cached: Option<map<string, Store>>, existing: Option<map<string, Store>>, openSucceeds: bool): Option<map<string, Store>>
  {
    if cached.Some? then cached
    else if !openSucceeds then None
    else match existing
      case None => Some(Upgrade(map[]))
      case Some(s) => Some(s)
  }

  /** Why a queue operation rejects. */
  datatype QueueError = OpenFailed | StoreNotFound

  class IndexedDBAdapter {
    const dbName: string
    const storeName: string
    var db: Option<map<string, Store>>

    /** A queue store, when present, has the queue's shape. */
    predicate Valid()
      reads this
    {
      dbName == QueueDbName && storeName == QueueStoreName &&
      (db.Some? && storeName in db.value ==> QueueShape(db.value[storeName]))
    }

    constructor()
      ensures db == None && Valid()
    {
      dbName := QueueDbName;
      storeName := QueueStoreName;
      db := None;
    }

    /**
     * `initDB()`: a cached database is returned as it is. Otherwise version 1 of the
     * database is opened; `existing` is the database the host already holds at version 1
     * (None: none, so the upgrade step runs), `openSucceeds` whether the request succeeds.
     */
    method InitDB(existing: Option<map<string, Store>>, openSucceeds: bool) returns (r: Result<map<string, Store>, QueueError>)
      requires Valid()
      requires existing.Some? && QueueStoreName in existing.value ==> QueueShape(existing.value[QueueStoreName])
      modifies this
      ensures Valid()
      ensures db == OpenedStores(old(db), existing, openSucceeds)
      ensures r == if db.None? then Err(OpenFailed) else Ok(db.value)
    {
      if db.Some? {
        return Ok(db.value);
      }
      if !openSucceeds {
        return Err(OpenFailed);
      }
      var stores: map<string, Store>;
      match existing {
        case None =>
          stores := map[];
          if storeName !in stores {
            stores := stores[storeName := EmptyStore(None, true, map[])];
          }
        case Some(s) =>
          stores := s;
      }
      db := Some(stores);
      r := Ok(stores);
    }

    /** `enqueue(data)`: the record goes in under a fresh key larger than every queued key. */
    method Enqueue(data: Record, existing: Option<map<string, Store>>, openSucceeds: bool) returns (r: Result<(), QueueError>)
      requires Valid()
      requires existing.Some? && QueueStoreName in existing.value ==> QueueShape(existing.value[QueueStoreName])
      modifies this
      ensures Valid()
      ensures var base := OpenedStores(old(db), existing, openSucceeds);
        if base.None? then r == Err(OpenFailed) && db == None
        else if storeName !in base.value then r == Err(StoreNotFound) && db == base
        else
          var st := base.value[storeName];
          r == Ok(()) &&
          db == Some(base.value[storeName := Enqueued(st, data)]) &&
          Contents(db.value[storeName]) == Contents(st) + [data]
    {
      var handle := InitDB(existing, openSucceeds);
      if handle.Err? {
        return Err(handle.error);
      }
      var stores := handle.value;
      if storeName !in stores {
        return Err(StoreNotFound);
      }
      var st := stores[storeName];
      EnqueueAppends(st, data);
      var (st', _) := AddRecord(st, data);
      db := Some(stores[storeName := st']);
      r := Ok(());
    }

    /** `dequeue()`: the oldest record, removed from the queue; None (`null`) when the queue is empty. */
    method Dequeue(existing: Option<map<string, Store>>, openSucceeds: bool) returns (r: Result<Option<Record>, QueueError>)
      requires Valid()
      requires existing.Some? && QueueStoreName in existing.value ==> QueueShape(existing.value[QueueStoreName])
      modifies this
      ensures Valid()
      ensures var base := OpenedStores(old(db), existing, openSucceeds);
        if base.None? then r == Err(OpenFailed) && db == None
        else if storeName !in base.value then r == Err(StoreNotFound) && db == base
        else
          var st := base.value[storeName];
          (st.entries == [] ==> r == Ok(None) && db == base) &&
          (st.entries != [] ==>
             r == Ok(Some(Contents(st)[0])) &&
             db == Some(base.value[storeName := Dequeued(st).1]) &&
             Contents(db.value[storeName]) == Contents(st)[1..])
    {
      var handle := InitDB(existing, openSucceeds);
      if handle.Err? {
        return Err(handle.error);
      }
      var stores := handle.value;
      if storeName !in stores {
        return Err(StoreNotFound);
      }
      var st := stores[storeName];
      DequeueTakesFirst(st);
      if st.entries == [] {
        return Ok(None);
      }
      var data := st.entries[0].value;
      db := Some(stores[storeName := DeleteKey(st, st.entries[0].key)]);
      r := Ok(Some(data));
    }

    /** `isEmpty()`: whether the queue store counts no record. */
    method IsEmpty(existing: Option<map<string, Store>>, openSucceeds: bool) returns (r: Result<bool, QueueError>)
      requires Valid()
      requires existing.Some? && QueueStoreName in existing.value ==> QueueShape(existing.value[QueueStoreName])
      modifies this
      ensures Valid()
      ensures var base := OpenedStores(old(db), existing, openSucceeds);
        db == base &&
        if base.None? then r == Err(OpenFailed)
        else if storeName !in base.value then r == Err(StoreNotFound)
        else r.Ok? && (r.value <==> Contents(base.value[storeName]) == [])
    {
      var handle := InitDB(existing, openSucceeds);
      if handle.Err? {
        return Err(handle.error);
      }
      var stores := handle.value;
      if storeName !in stores {
        return Err(StoreNotFound);
      }
      r := Ok(|stores[storeName].entries| == 0);
    }
  }
}
