/**
 * The keyed-record store wrapper `IndexedDBAdapter` (src/utils/Tracker/IndexedDBAdapter.ts).
 * The browser's database is an abstract value: a name and a map from store names to
 * object stores. Each public method is one sequential step: it either fails before
 * touching anything, or runs its requests in order against the named store. A refused
 * `add` or `put` request is skipped and not counted; a refused cursor update is still
 * counted, since `putByCondition` counts without waiting for the request.
 */
module IndexedDB {
  import opened Outcomes
  import opened Keys
  import opened ObjectStore
  import opened Cursor
  import opened Schema
  import opened AdapterSpec

  datatype Database = Database(name: string, stores: map<string, Store>)

  predicate DatabaseValid(d: Database)
  {
    forall n :: n in d.stores ==> ObjectStore.Valid(d.stores[n])
  }

  /** Why a promise of the adapter rejects (or, for `initialize`, why no database is set). */
  datatype AdapterError =
    | NotInitialized      // "Database not initialize."
    | StoreNotFound(storeName: string)   // `db.transaction(storeName)` throws NotFoundError
    | IndexNotFound(indexName: string)   // `store.index(name)` throws NotFoundError
    | ErrorCondition      // "Error condition."
    | OpenFailed          // the open request's error event
    | Aborted             // an exception in a cursor handler aborts the transaction
    | DataError           // `store.add` throws: a record without a usable key

  /** The options of `queryByCondition` and `deleteByCondition`; None stands for an absent property. */
  datatype ScanOptions = ScanOptions(
    index: Option<string>,
    keyRange: Option<KeyRange>,
    direction: Option<Direction>,
    limit: Option<int>)

  /** `options.index ? store.index(options.index) : store`: an empty name is falsy and selects the store. */
  function ScanSource(options: ScanOptions): Option<string>
  {
    if options.index == Some("") then None else options.index
  }

  /** `const { limit = 30 } = options` */
  const DefaultLimit := 30

  function ScanLimit(options: ScanOptions): int
  {
    options.limit.GetOr(DefaultLimit)
  }

  /** The records the scan's cursor visits, in order (`openCursor(keyRange, direction)`, "next" by default). */
  function ScanWalk(st: Store, options: ScanOptions): seq<Entry>
    requires SourceExists(st, ScanSource(options))
  {
    Walk(st, ScanSource(options), options.keyRange, options.direction.GetOr(Next))
  }

  /** The database with store `name` replaced. */
  function WithStore(d: Database, name: string, st: Store): Database
  {
    d.(stores := d.stores[name := st])
  }

  class IndexedDBAdapter {
    const dbName: string
    var db: Option<Database>

    predicate Valid()
      reads this
    {
      db.Some? ==> db.value.name == dbName && DatabaseValid(db.value)
    }

    constructor(dbName: string)
      ensures this.dbName == dbName && db == None && Valid()
    {
      this.dbName := dbName;
      db := None;
    }

    /** `storeList`: the names of the stores, none before initialisation. */
    function StoreList(): (names: set<string>)
      reads this
      ensures db.None? ==> names == {}
      ensures db.Some? ==> forall n :: n in names <==> n in db.value.stores
    {
      if db.None? then {} else db.value.stores.Keys
    }

    /**
     * `initialize(options)`: a database already set is returned as it is. Otherwise the
     * database is opened; `existing` is what the host holds under `dbName` (None: no such
     * database, so the upgrade step runs `processStore`), `openSucceeds` whether the open
     * request succeeds. A failed open leaves `db` unset.
     */
    method Initialize(options: OneOrMany<StoreConfig>, existing: Option<map<string, Store>>, openSucceeds: bool)
      returns (r: Result<Database, AdapterError>)
      requires Valid()
      requires existing.Some? ==> forall n :: n in existing.value ==> ObjectStore.Valid(existing.value[n])
      modifies this
      ensures Valid()
      ensures old(db).Some? ==> db == old(db) && r == Ok(old(db).value)
      ensures old(db).None? && !openSucceeds ==> db == None && r == Err(OpenFailed)
      ensures old(db).None? && openSucceeds ==>
        r.Ok? && db == Some(r.value) && r.value.name == dbName &&
        r.value.stores == (match existing
          case None => CreateStores(map[], Normalize(options))
          case Some(s) => s)
    {
      if db.Some? {
        return Ok(db.value);
      }
      var configs := Normalize(options);
      if !openSucceeds {
        return Err(OpenFailed);
      }
      var stores: map<string, Store>;
      match existing {
        case None =>
          stores := ProcessStore(map[], configs);
          CreateStoresValid(map[], configs);
        case Some(s) =>
          stores := s;
      }
      db := Some(Database(dbName, stores));
      r := Ok(db.value);
    }

    /** `processStore(db, configs)`: each config, in order, creates its store if the name is free. */
    method ProcessStore(existing: map<string, Store>, configs: seq<StoreConfig>) returns (stores: map<string, Store>)
      ensures stores == CreateStores(existing, configs)
    {
      stores := existing;
      var i := 0;
      while i < |configs|
        invariant 0 <= i <= |configs|
        invariant CreateStores(stores, configs[i..]) == CreateStores(existing, configs)
      {
        var config := configs[i];
        assert configs[i..][1..] == configs[i + 1..];
        if config.storeName !in stores {
          var indexes := ProcessIndexes(map[], config.indexes);
          stores := stores[config.storeName := EmptyStore(config.keyPath, config.autoIncrement.GetOr(true), indexes)];
        }
        i := i + 1;
      }
      assert configs[i..] == [];
    }

    /** `processIndexes(store, indexes)`: each declaration, in order, creates its index if the name is free. */
    method ProcessIndexes(existing: map<string, IndexParams>, decls: Option<seq<IndexDecl>>)
      returns (indexes: map<string, IndexParams>)
      ensures indexes == CreateOptionalIndexes(existing, decls)
    {
      indexes := existing;
      if decls.None? {
        return;
      }
      var ds := decls.value;
      var i := 0;
      while i < |ds|
        invariant 0 <= i <= |ds|
        invariant CreateIndexes(indexes, ds[i..]) == CreateIndexes(existing, ds)
      {
        var name := ds[i].name;
        var settings := match ds[i]
          case Bare(n) => IndexParams(n, false, false)
          case Config(n, keyPath, unique, multiEntry) =>
            IndexParams(keyPath.GetOr(n), unique.GetOr(false), multiEntry.GetOr(false));
        assert ds[i..][1..] == ds[i + 1..];
        if name !in indexes {
          indexes := indexes[name := settings];
        }
        i := i + 1;
      }
      assert ds[i..] == [];
    }

    /** `queryByKeys(storeName, keys)`: one result per key, in order; a missing key gives None (`undefined`). */
    method QueryByKeys(storeName: string, keys: OneOrMany<string>) returns (r: Result<seq<Option<Record>>, AdapterError>)
      ensures db.None? ==> r == Err(NotInitialized)
      ensures db.Some? && storeName !in db.value.stores ==> r == Err(StoreNotFound(storeName))
      ensures db.Some? && storeName in db.value.stores ==>
        r.Ok? && |r.value| == |Normalize(keys)| &&
        forall i :: 0 <= i < |r.value| ==> r.value[i] == Lookup(db.value.stores[storeName].entries, StrKey(Normalize(keys)[i]))
    {
      if db.None? {
        return Err(NotInitialized);
      }
      if storeName !in db.value.stores {
        return Err(StoreNotFound(storeName));
      }
      var ks := Normalize(keys);
      var store := db.value.stores[storeName];
      var result: seq<Option<Record>> := [];
      var i := 0;
      while i < |ks|
        invariant 0 <= i <= |ks| && |result| == i
        invariant forall j :: 0 <= j < i ==> result[j] == Lookup(store.entries, StrKey(ks[j]))
      {
        result := result + [Lookup(store.entries, StrKey(ks[i]))];
        i := i + 1;
      }
      r := Ok(result);
    }

    /**
     * `queryByCondition(storeName, options)`: the values of the first `limit` records the
     * cursor visits (none when `limit` is not positive).
     */
    method QueryByCondition(storeName: string, options: ScanOptions) returns (r: Result<seq<Record>, AdapterError>)
      ensures db.None? ==> r == Err(NotInitialized)
      ensures db.Some? && storeName !in db.value.stores ==> r == Err(StoreNotFound(storeName))
      ensures db.Some? && storeName in db.value.stores && !SourceExists(db.value.stores[storeName], ScanSource(options)) ==>
        r == Err(IndexNotFound(ScanSource(options).value))
      ensures db.Some? && storeName in db.value.stores && SourceExists(db.value.stores[storeName], ScanSource(options)) ==>
        var walk := ScanWalk(db.value.stores[storeName], options);
        r.Ok? && |r.value| == Processed(|walk|, ScanLimit(options)) &&
        r.value == Values(walk)[..|r.value|]
    {
      if db.None? {
        return Err(NotInitialized);
      }
      if storeName !in db.value.stores {
        return Err(StoreNotFound(storeName));
      }
      var store := db.value.stores[storeName];
      if !SourceExists(store, ScanSource(options)) {
        return Err(IndexNotFound(ScanSource(options).value));
      }
      var limit := ScanLimit(options);
      var walk := ScanWalk(store, options);
      var queryData: seq<Record> := [];
      while |queryData| < |walk| && |queryData| < limit
        invariant |queryData| <= |walk|
        invariant limit > 0 ==> |queryData| <= limit
        invariant limit <= 0 ==> queryData == []
        invariant forall j :: 0 <= j < |queryData| ==> queryData[j] == walk[j].value
      {
        queryData := queryData + [walk[|queryData|].value];
      }
      r := Ok(queryData);
    }

    /**
     * `add(storeName, data)`: one `store.add` per item, in order; the count of successful
     * requests. An item without a usable key makes `store.add` throw: the promise
     * rejects, the later items are never requested, and the requests already made commit.
     */
    method Add(storeName: string, data: OneOrMany<Record>) returns (r: Result<nat, AdapterError>)
      requires Valid()
      modifies this
      ensures Valid()
      ensures old(db).None? ==> r == Err(NotInitialized) && db == old(db)
      ensures old(db).Some? && storeName !in old(db).value.stores ==> r == Err(StoreNotFound(storeName)) && db == old(db)
      ensures old(db).Some? && storeName in old(db).value.stores ==>
        var run := AddAll(old(db).value.stores[storeName], Normalize(data));
        db == Some(WithStore(old(db).value, storeName, run.store)) &&
        r == if run.thrown then Err(DataError) else Ok(run.count)
    {
      if db.None? {
        return Err(NotInitialized);
      }
      var d := db.value;
      if storeName !in d.stores {
        return Err(StoreNotFound(storeName));
      }
      var items := Normalize(data);
      var store, addCount, thrown := AddItems(d.stores[storeName], items);
      db := Some(WithStore(d, storeName, store));
      r := if thrown then Err(DataError) else Ok(addCount);
    }

    /** The `forEach` of `add`: one `store.add` per item, stopping at the first one that throws. */
    method AddItems(st: Store, items: seq<Record>) returns (store: Store, addCount: nat, thrown: bool)
      requires ObjectStore.Valid(st)
      ensures AddRun(store, addCount, thrown) == AddAll(st, items)
      ensures ObjectStore.Valid(store)
    {
      AddAllEffect(st, items);
      store := st;
      addCount := 0;
      var i := 0;
      while i < |items|
        invariant 0 <= i <= |items|
        invariant AddAll(store, items[i..]).store == AddAll(st, items).store
        invariant AddAll(store, items[i..]).thrown == AddAll(st, items).thrown
        invariant AddAll(store, items[i..]).count + addCount == AddAll(st, items).count
      {
        assert items[i..][1..] == items[i + 1..];
        if KeyMissing(store, items[i]) {
          return store, addCount, true;
        }
        var (next, ok) := AddRecord(store, items[i]);
        store := next;
        if ok {
          addCount := addCount + 1;
        }
        i := i + 1;
      }
      assert items[i..] == [];
      thrown := false;
    }

    /**
     * `deleteByKeys(storeName, keys)`: one `store.delete` per key, in order. Deleting an
     * absent key succeeds, so every key is counted.
     */
    method DeleteByKeys(storeName: string, keys: OneOrMany<string>) returns (r: Result<nat, AdapterError>)
      requires Valid()
      modifies this
      ensures Valid()
      ensures old(db).None? ==> r == Err(NotInitialized) && db == old(db)
      ensures old(db).Some? && storeName !in old(db).value.stores ==> r == Err(StoreNotFound(storeName)) && db == old(db)
      ensures old(db).Some? && storeName in old(db).value.stores ==>
        r == Ok(|Normalize(keys)|) &&
        db == Some(WithStore(old(db).value, storeName, DeleteAll(old(db).value.stores[storeName], Normalize(keys))))
    {
      if db.None? {
        return Err(NotInitialized);
      }
      var d := db.value;
      if storeName !in d.stores {
        return Err(StoreNotFound(storeName));
      }
      var ks := Normalize(keys);
      var store := d.stores[storeName];
      var deleteCount := 0;
      while deleteCount < |ks|
        invariant 0 <= deleteCount <= |ks|
        invariant DeleteAll(store, ks[deleteCount..]) == DeleteAll(d.stores[storeName], ks)
      {
        assert ks[deleteCount..][1..] == ks[deleteCount + 1..];
        store := DeleteKey(store, StrKey(ks[deleteCount]));
        deleteCount := deleteCount + 1;
      }
      assert ks[deleteCount..] == [];
      DeleteAllEffect(d.stores[storeName], ks);
      db := Some(WithStore(d, storeName, store));
      r := Ok(deleteCount);
    }

    /**
     * `deleteByCondition(storeName, options)`: deletes the first `limit` records the
     * cursor visits and counts them.
     */
    method DeleteByCondition(storeName: string, options: ScanOptions) returns (r: Result<nat, AdapterError>)
      requires Valid()
      modifies this
      ensures Valid()
      ensures old(db).None? ==> r == Err(NotInitialized) && db == old(db)
      ensures old(db).Some? && storeName !in old(db).value.stores ==> r == Err(StoreNotFound(storeName)) && db == old(db)
      ensures old(db).Some? && storeName in old(db).value.stores && !SourceExists(old(db).value.stores[storeName], ScanSource(options)) ==>
        r == Err(IndexNotFound(ScanSource(options).value)) && db == old(db)
      ensures old(db).Some? && storeName in old(db).value.stores && SourceExists(old(db).value.stores[storeName], ScanSource(options)) ==>
        var st := old(db).value.stores[storeName];
        var walk := ScanWalk(st, options);
        var n := Processed(|walk|, ScanLimit(options));
        r == Ok(n) && db == Some(WithStore(old(db).value, storeName, DeleteEntries(st, walk[..n])))
    {
      if db.None? {
        return Err(NotInitialized);
      }
      var d := db.value;
      if storeName !in d.stores {
        return Err(StoreNotFound(storeName));
      }
      var st := d.stores[storeName];
      if !SourceExists(st, ScanSource(options)) {
        return Err(IndexNotFound(ScanSource(options).value));
      }
      var limit := ScanLimit(options);
      var walk := ScanWalk(st, options);
      ghost var n := Processed(|walk|, limit);
      var store := st;
      var deleteCount := 0;
      while deleteCount < |walk| && deleteCount < limit
        invariant 0 <= deleteCount <= n
        invariant DeleteEntries(store, walk[deleteCount..n]) == DeleteEntries(st, walk[..n])
      {
        assert walk[deleteCount..n][1..] == walk[deleteCount + 1..n];
        store := DeleteKey(store, walk[deleteCount].key);
        deleteCount := deleteCount + 1;
      }
      assert walk[deleteCount..n] == [];
      DeleteEntriesEffect(st, walk[..n]);
      db := Some(WithStore(d, storeName, store));
      r := Ok(deleteCount);
    }

    /**
     * `updateByKeys(storeName, keys, newData)`: each key, in order, that holds a record
     * gets `{...existing, ...newData}` with the key-path field set back to the key; a key
     * without a record is skipped. The count is that of successful puts.
     */
    method UpdateByKeys(storeName: string, keys: OneOrMany<string>, newData: Record) returns (r: Result<nat, AdapterError>)
      requires Valid()
      modifies this
      ensures Valid()
      ensures old(db).None? ==> r == Err(NotInitialized) && db == old(db)
      ensures old(db).Some? && storeName !in old(db).value.stores ==> r == Err(StoreNotFound(storeName)) && db == old(db)
      ensures old(db).Some? && storeName in old(db).value.stores ==>
        var (st', n) := UpdateAll(old(db).value.stores[storeName], Normalize(keys), newData);
        r == Ok(n) && db == Some(WithStore(old(db).value, storeName, st'))
    {
      if db.None? {
        return Err(NotInitialized);
      }
      var d := db.value;
      if storeName !in d.stores {
        return Err(StoreNotFound(storeName));
      }
      var ks := Normalize(keys);
      var store, updateCount := UpdateItems(d.stores[storeName], ks, newData);
      UpdateAllEffect(d.stores[storeName], ks, newData);
      db := Some(WithStore(d, storeName, store));
      r := Ok(updateCount);
    }

    /** The `forEach` of `updateByKeys`: each key's record is read, merged and put back; a missing key is skipped. */
    method UpdateItems(st: Store, ks: seq<string>, newData: Record) returns (store: Store, updateCount: nat)
      ensures (store, updateCount) == UpdateAll(st, ks, newData)
    {
      store := st;
      updateCount := 0;
      var i := 0;
      while i < |ks|
        invariant 0 <= i <= |ks|
        invariant UpdateAll(st, ks, newData) ==
          (UpdateAll(store, ks[i..], newData).0, UpdateAll(store, ks[i..], newData).1 + updateCount)
      {
        var key := ks[i];
        assert ks[i..][1..] == ks[i + 1..];
        match Lookup(store.entries, StrKey(key)) {
          case None =>
          case Some(existing) =>
            var (next, ok) := PutAt(store, StrKey(key), Guarded(existing, newData, store.keyPath, key));
            store := next;
            if ok {
              updateCount := updateCount + 1;
            }
        }
        i := i + 1;
      }
      assert ks[i..] == [];
    }

    /**
     * `putByCondition(storeName, condition, updateCallback)`: walks the condition's records
     * and replaces each selected one by `{...value, ...updateCallback(value)}`, counting it.
     * A replacement whose in-line key differs from the cursor's key aborts the transaction:
     * every write is rolled back.
     */
    method PutByCondition(storeName: string, condition: Condition, updateCallback: Record -> Record)
      returns (r: Result<nat, AdapterError>)
      requires Valid()
      modifies this
      ensures Valid()
      ensures old(db).None? ==> r == Err(NotInitialized) && db == old(db)
      ensures old(db).Some? && storeName !in old(db).value.stores ==> r == Err(StoreNotFound(storeName)) && db == old(db)
      ensures old(db).Some? && storeName in old(db).value.stores && condition.Malformed? ==>
        r == Err(ErrorCondition) && db == old(db)
      ensures old(db).Some? && storeName in old(db).value.stores && !condition.Malformed? ==>
        var st := old(db).value.stores[storeName];
        match UpdateWalk(st, ConditionWalk(st, condition), condition, updateCallback, 0)
        case None => r == Err(Aborted) && db == old(db)
        case Some(res) =>
          r == Ok(CountSelected(ConditionWalk(st, condition), condition)) &&
          db == Some(WithStore(old(db).value, storeName, res.0)) &&
          ScopeUpdated(st, res.0, condition, updateCallback)
    {
      if db.None? {
        return Err(NotInitialized);
      }
      var d := db.value;
      if storeName !in d.stores {
        return Err(StoreNotFound(storeName));
      }
      if condition.Malformed? {
        return Err(ErrorCondition);
      }
      var st := d.stores[storeName];
      var walk := ConditionWalk(st, condition);
      var store := st;
      var updateCount := 0;
      var i := 0;
      while i < |walk|
        invariant 0 <= i <= |walk|
        invariant UpdateWalk(store, walk[i..], condition, updateCallback, updateCount) ==
          UpdateWalk(st, walk, condition, updateCallback, 0)
      {
        var e := walk[i];
        assert walk[i..][1..] == walk[i + 1..];
        if Selects(condition, e.value) {
          var updated := e.value + updateCallback(e.value);
          if KeyChanged(store.keyPath, updated, e.key) {
            return Err(Aborted);
          }
          store := PutAt(store, e.key, updated).0;
          updateCount := updateCount + 1;
        }
        i := i + 1;
      }
      assert walk[i..] == [];
      PutByConditionEffect(st, condition, updateCallback);
      db := Some(WithStore(d, storeName, store));
      r := Ok(updateCount);
    }
  }
}
