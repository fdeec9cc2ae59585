/**
 * What one call of each data operation of `IndexedDBAdapter` (src/utils/Tracker/IndexedDBAdapter.ts)
 * does to one object store, as functions of the store before the call, together with
 * the properties the adapter promises of them. The class in module IndexedDB runs the
 * same steps imperatively and is proved to agree with these functions.
 */
module AdapterSpec {
  import opened Outcomes
  import opened Keys
  import opened ObjectStore
  import opened Cursor

  /** The string keys of a key list, as keys of the store. */
  function StrKeys(keys: seq<string>): set<Key>
  {
    set i | 0 <= i < |keys| :: StrKey(keys[i])
  }

  function EntryKeys(es: seq<Entry>): set<Key>
  {
    set i | 0 <= i < |es| :: es[i].key
  }

  function Values(es: seq<Entry>): seq<Record>
  {
    seq(|es|, i requires 0 <= i < |es| => es[i].value)
  }

  /** Two stores have the same key path, generator policy and indexes. */
  predicate SameSchema(a: Store, b: Store)
  {
    a.keyPath == b.keyPath && a.autoIncrement == b.autoIncrement && a.indexes == b.indexes
  }

  lemma {:induction false} KeysOfIndex(es: seq<Entry>, k: Key)
    requires k in KeysOf(es)
    ensures exists i :: 0 <= i < |es| && es[i].key == k
  {
    if es[0].key != k {
      KeysOfIndex(es[1..], k);
      var i :| 0 <= i < |es[1..]| && es[1..][i].key == k;
      assert es[i + 1].key == k;
    }
  }

  lemma {:induction false} KeysOfHasAll(es: seq<Entry>, i: int)
    requires 0 <= i < |es|
    ensures es[i].key in KeysOf(es)
  {
    if i > 0 {
      KeysOfHasAll(es[1..], i - 1);
    }
  }

  /** A numeric key stored in an auto-incrementing store lies below the generator. */
  lemma StoredKeyBelowGenerator(st: Store, k: Key)
    requires Valid(st) && k in KeysOf(st.entries)
    ensures st.autoIncrement && k.NumKey? ==> k.n < st.current
  {
    KeysOfIndex(st.entries, k);
  }

  // ---------------------------------------------------------------------------
  // add

  /**
   * How a run of `store.add` calls ends: the store afterwards, the number of requests
   * that succeeded, and whether an `add` call threw (DataError), which rejects the
   * promise and leaves the later items unrequested.
   */
  datatype AddRun = AddRun(store: Store, count: nat, thrown: bool)

  /** `add(storeName, items)`: one `store.add` per item, in order, until one of them throws. */
  function AddAll(st: Store, items: seq<Record>): AddRun
    decreases items
  {
    if items == [] then AddRun(st, 0, false)
    else if KeyMissing(st, items[0]) then AddRun(st, 0, true)
    else
      var (next, ok) := AddRecord(st, items[0]);
      var rest := AddAll(next, items[1..]);
      rest.(count := if ok then rest.count + 1 else rest.count)
  }

  /**
   * `add` never changes a record that was already stored, stores exactly one new record
   * per request it counts, and so never counts more than the items it was given.
   */
  lemma {:induction false} AddAllEffect(st: Store, items: seq<Record>)
    requires Valid(st)
    ensures var run := AddAll(st, items);
      Valid(run.store) && SameSchema(st, run.store) && run.count <= |items| &&
      KeysOf(st.entries) <= KeysOf(run.store.entries) &&
      |KeysOf(run.store.entries)| == |KeysOf(st.entries)| + run.count &&
      forall k :: k in KeysOf(st.entries) ==> Lookup(run.store.entries, k) == Lookup(st.entries, k)
    decreases items
  {
    if items != [] && !KeyMissing(st, items[0]) {
      var (next, ok) := AddRecord(st, items[0]);
      AddRecordEffect(st, items[0]);
      AddAllEffect(next, items[1..]);
      if ok {
        var a := AssignKey(st, items[0]).value;
        assert |KeysOf(next.entries)| == |KeysOf(st.entries)| + 1;
        forall k | k in KeysOf(st.entries) ensures Lookup(next.entries, k) == Lookup(st.entries, k) {
          assert k != a.key;
        }
      }
    }
  }

  /** A run of `add` throws exactly when some item has no usable key. */
  lemma {:induction false} AddAllThrows(st: Store, items: seq<Record>)
    ensures AddAll(st, items).thrown <==> exists i :: 0 <= i < |items| && KeyMissing(st, items[i])
    decreases items
  {
    if items != [] && !KeyMissing(st, items[0]) {
      var next := AddRecord(st, items[0]).0;
      AddAllThrows(next, items[1..]);
      assert forall i :: 0 < i < |items| ==> items[i] == items[1..][i - 1];
      assert forall r :: KeyMissing(next, r) == KeyMissing(st, r);
    }
  }

  /**
   * Adding one record to a store whose in-line key path holds string `k` in the record
   * either counts 1, after which querying `k` yields exactly that record, or counts 0
   * because `k` was already taken (or a unique index conflicts) and the store is unchanged.
   */
  lemma AddThenQuery(st: Store, rec: Record, k: string)
    requires Valid(st) && st.keyPath.Some? && st.keyPath.value in rec && rec[st.keyPath.value] == Str(k)
    ensures var run := AddAll(st, [rec]);
      !run.thrown &&
      ((run.count == 1 && Lookup(run.store.entries, StrKey(k)) == Some(rec)) ||
       (run.count == 0 && run.store == st && (Lookup(st.entries, StrKey(k)).Some? || UniqueConflict(st, StrKey(k), rec))))
  {
    AddRecordEffect(st, rec);
    assert AddAll(st, [rec]) == AddRun(AddRecord(st, rec).0, if AddRecord(st, rec).1 then 1 else 0, false);
  }

  /**
   * A record stored under a generated (numeric) key is out of reach of every string key:
   * no string-keyed lookup sees it.
   */
  lemma GeneratedKeyUnreachable(st: Store, rec: Record, s: string)
    requires Valid(st) && AssignKey(st, rec).Some? && AssignKey(st, rec).value.key.NumKey?
    ensures Lookup(AddRecord(st, rec).0.entries, StrKey(s)) == Lookup(st.entries, StrKey(s))
  {
    AddRecordEffect(st, rec);
  }

  // ---------------------------------------------------------------------------
  // deleteByKeys

  /** `deleteByKeys(storeName, keys)`: one `store.delete` per key, in order. */
  function DeleteAll(st: Store, keys: seq<string>): Store
    decreases keys
  {
    if keys == [] then st else DeleteAll(DeleteKey(st, StrKey(keys[0])), keys[1..])
  }

  lemma StrKeysCons(keys: seq<string>)
    requires keys != []
    ensures StrKeys(keys) == {StrKey(keys[0])} + StrKeys(keys[1..])
  {
    forall k | k in StrKeys(keys) ensures k in {StrKey(keys[0])} + StrKeys(keys[1..]) {
      var i :| 0 <= i < |keys| && StrKey(keys[i]) == k;
      if i > 0 {
        assert StrKey(keys[1..][i - 1]) == k;
      }
    }
    forall k | k in StrKeys(keys[1..]) ensures k in StrKeys(keys) {
      var i :| 0 <= i < |keys[1..]| && StrKey(keys[1..][i]) == k;
      assert StrKey(keys[i + 1]) == k;
    }
  }

  /** After `deleteByKeys` none of the listed keys holds a record, and every other key is as before. */
  lemma {:induction false} DeleteAllEffect(st: Store, keys: seq<string>)
    requires Valid(st)
    ensures var st' := DeleteAll(st, keys);
      Valid(st') && SameSchema(st, st') &&
      KeysOf(st'.entries) == KeysOf(st.entries) - StrKeys(keys) &&
      forall j :: Lookup(st'.entries, j) == if j in StrKeys(keys) then None else Lookup(st.entries, j)
    decreases keys
  {
    if keys != [] {
      StrKeysCons(keys);
      DeleteKeyEffect(st, StrKey(keys[0]));
      DeleteAllEffect(DeleteKey(st, StrKey(keys[0])), keys[1..]);
    }
  }

  // ---------------------------------------------------------------------------
  // updateByKeys

  /**
   * The record `updateByKeys` writes: `{...existing, ...newData}`, with the single
   * key-path field (if the store has one) set back to the key that was asked for.
   */
  function Guarded(existing: Record, newData: Record, keyPath: Option<string>, key: string): Record
  {
    var merged := existing + newData;
    match keyPath
    case Some(p) => merged[p := Str(key)]
    case None => merged
  }

  /** The guard forces the key field and otherwise lets the payload win over the stored fields. */
  lemma GuardedFields(existing: Record, newData: Record, keyPath: Option<string>, key: string)
    ensures var r := Guarded(existing, newData, keyPath, key);
      (keyPath.Some? ==> keyPath.value in r && r[keyPath.value] == Str(key) &&
                         FieldKey(r, keyPath.value) == Some(StrKey(key))) &&
      (forall f :: f in r <==> f in existing || f in newData || keyPath == Some(f)) &&
      (forall f :: f in r && keyPath != Some(f) ==> r[f] == if f in newData then newData[f] else existing[f])
  {
  }

  /** One key of `updateByKeys`: a missing record is skipped, an existing one is replaced by its guarded merge. */
  function UpdateOne(st: Store, key: string, newData: Record): (Store, bool)
  {
    match Lookup(st.entries, StrKey(key))
    case None => (st, false)
    case Some(existing) => PutAt(st, StrKey(key), Guarded(existing, newData, st.keyPath, key))
  }

  /** `updateByKeys(storeName, keys, newData)`: the keys in order, and the count of successful puts. */
  function UpdateAll(st: Store, keys: seq<string>, newData: Record): (Store, nat)
    decreases keys
  {
    if keys == [] then (st, 0)
    else
      var (next, ok) := UpdateOne(st, keys[0], newData);
      var (last, n) := UpdateAll(next, keys[1..], newData);
      (last, if ok then n + 1 else n)
  }

  /**
   * Updating one key writes the guarded merge when a record exists under it, and writes
   * nothing when none does; only a unique index can refuse the write, and a refused
   * write changes nothing. The set of keys never changes.
   */
  lemma UpdateOneEffect(st: Store, key: string, newData: Record)
    requires Valid(st)
    ensures var (st', ok) := UpdateOne(st, key, newData);
      Valid(st') && SameSchema(st, st') && KeysOf(st'.entries) == KeysOf(st.entries) &&
      (Lookup(st.entries, StrKey(key)).None? ==> !ok && st' == st) &&
      (Lookup(st.entries, StrKey(key)).Some? && !ok ==> HasUniqueIndex(st) && st' == st) &&
      (ok ==> Lookup(st'.entries, StrKey(key)) ==
                Some(Guarded(Lookup(st.entries, StrKey(key)).value, newData, st.keyPath, key))) &&
      (forall j :: j != StrKey(key) ==> Lookup(st'.entries, j) == Lookup(st.entries, j))
  {
    match Lookup(st.entries, StrKey(key))
    case None =>
    case Some(existing) =>
      LookupKeys(st.entries, StrKey(key));
      var rec := Guarded(existing, newData, st.keyPath, key);
      PutAtEffect(st, StrKey(key), rec);
      if UniqueConflict(st, StrKey(key), rec) {
        var name, j :| name in st.indexes && 0 <= j < |st.entries| && st.indexes[name].unique &&
          st.entries[j].key != StrKey(key) &&
          FieldKey(rec, st.indexes[name].keyPath).Some? &&
          FieldKey(st.entries[j].value, st.indexes[name].keyPath) == FieldKey(rec, st.indexes[name].keyPath);
        assert HasUniqueIndex(st);
      }
  }

  /**
   * What `updateByKeys` leaves under listed key `key`: a missing record stays missing; a
   * stored record `v` holds its guarded merge, or stays `v` only when a unique index
   * could have refused the write.
   */
  predicate KeyUpdated(st: Store, st': Store, key: string, newData: Record)
  {
    match Lookup(st.entries, StrKey(key))
    case None => Lookup(st'.entries, StrKey(key)).None?
    case Some(v) =>
      Lookup(st'.entries, StrKey(key)) == Some(Guarded(v, newData, st.keyPath, key)) ||
      (HasUniqueIndex(st) && Lookup(st'.entries, StrKey(key)) == Some(v))
  }

  /** The number of listed keys (repeats included) that are among `stored`. */
  function CountListed(stored: set<Key>, keys: seq<string>): (n: nat)
    ensures n <= |keys|
    decreases keys
  {
    if keys == [] then 0
    else (if StrKey(keys[0]) in stored then 1 else 0) + CountListed(stored, keys[1..])
  }

  /** Merging the same payload twice gives the same record as merging it once. */
  lemma GuardedIdempotent(existing: Record, newData: Record, keyPath: Option<string>, key: string)
    ensures var r := Guarded(existing, newData, keyPath, key);
      Guarded(r, newData, keyPath, key) == r
  {
  }

  /** Two updates of the same key in a row leave what one leaves, because the merge is idempotent. */
  lemma KeyUpdatedTwice(st: Store, mid: Store, st': Store, key: string, newData: Record)
    requires SameSchema(st, mid)
    requires KeyUpdated(st, mid, key, newData) && KeyUpdated(mid, st', key, newData)
    ensures KeyUpdated(st, st', key, newData)
  {
    match Lookup(st.entries, StrKey(key))
    case None =>
    case Some(v) =>
      GuardedIdempotent(v, newData, st.keyPath, key);
  }

  /**
   * Every listed key ends as `KeyUpdated` says, repeated keys included. Without a unique
   * index every write succeeds and the count is the number of listed keys that hold a
   * record; with one it is at most that.
   */
  lemma {:induction false} UpdateAllVisits(st: Store, keys: seq<string>, newData: Record)
    requires Valid(st)
    ensures var (st', n) := UpdateAll(st, keys, newData);
      (forall i :: 0 <= i < |keys| ==> KeyUpdated(st, st', keys[i], newData)) &&
      n <= CountListed(KeysOf(st.entries), keys) &&
      (!HasUniqueIndex(st) ==> n == CountListed(KeysOf(st.entries), keys))
    decreases keys
  {
    if keys != [] {
      var k0 := keys[0];
      var (next, ok) := UpdateOne(st, k0, newData);
      var (st', n) := UpdateAll(st, keys, newData);
      UpdateOneEffect(st, k0, newData);
      LookupKeys(st.entries, StrKey(k0));
      UpdateAllEffect(next, keys[1..], newData);
      UpdateAllVisits(next, keys[1..], newData);
      StrKeysCons(keys);
      assert st' == UpdateAll(next, keys[1..], newData).0;
      assert HasUniqueIndex(next) == HasUniqueIndex(st);
      assert KeyUpdated(st, next, k0, newData);
      forall i | 0 <= i < |keys| ensures KeyUpdated(st, st', keys[i], newData) {
        if keys[i] == k0 {
          if StrKey(k0) in StrKeys(keys[1..]) {
            var m :| 0 <= m < |keys[1..]| && StrKey(keys[1..][m]) == StrKey(k0);
            assert keys[1..][m] == k0;
            KeyUpdatedTwice(st, next, st', k0, newData);
          } else {
            assert Lookup(st'.entries, StrKey(k0)) == Lookup(next.entries, StrKey(k0));
          }
        } else {
          assert keys[1..][i - 1] == keys[i];
          assert KeyUpdated(next, st', keys[i], newData);
          assert StrKey(keys[i]) != StrKey(k0);
          assert Lookup(next.entries, StrKey(keys[i])) == Lookup(st.entries, StrKey(keys[i]));
        }
      }
    }
  }

  /**
   * `updateByKeys` never adds or removes a record, keeps every record's key field equal
   * to its key (a payload cannot move a record), touches only the listed keys, and
   * counts at most one success per key.
   */
  lemma {:induction false} UpdateAllEffect(st: Store, keys: seq<string>, newData: Record)
    requires Valid(st)
    ensures var (st', n) := UpdateAll(st, keys, newData);
      Valid(st') && SameSchema(st, st') && n <= |keys| &&
      KeysOf(st'.entries) == KeysOf(st.entries) &&
      (forall j :: j !in StrKeys(keys) ==> Lookup(st'.entries, j) == Lookup(st.entries, j))
    decreases keys
  {
    if keys != [] {
      StrKeysCons(keys);
      UpdateOneEffect(st, keys[0], newData);
      UpdateAllEffect(UpdateOne(st, keys[0], newData).0, keys[1..], newData);
    }
  }

  /** The value of a key field determines its key and back: a key field holding key `k` has one possible value. */
  lemma KeyFieldDetermined(a: Record, b: Record, p: string, k: Key)
    requires FieldKey(a, p) == Some(k) && FieldKey(b, p) == Some(k)
    ensures p in a && p in b && a[p] == b[p]
  {
  }

  /** With an in-line key path, the key field of every record reads the same after `updateByKeys` as before. */
  lemma UpdateKeepsKeyField(st: Store, keys: seq<string>, newData: Record, k: Key)
    requires Valid(st) && st.keyPath.Some? && Lookup(st.entries, k).Some?
    ensures var st' := UpdateAll(st, keys, newData).0;
      var p := st.keyPath.value;
      Lookup(st'.entries, k).Some? &&
      p in Lookup(st.entries, k).value && p in Lookup(st'.entries, k).value &&
      Lookup(st'.entries, k).value[p] == Lookup(st.entries, k).value[p]
  {
    var st' := UpdateAll(st, keys, newData).0;
    UpdateAllEffect(st, keys, newData);
    LookupKeys(st.entries, k);
    LookupKeys(st'.entries, k);
    KeysOfIndex(st.entries, k);
    KeysOfIndex(st'.entries, k);
    var i :| 0 <= i < |st.entries| && st.entries[i].key == k;
    var i' :| 0 <= i' < |st'.entries| && st'.entries[i'].key == k;
    LookupAt(st.entries, i);
    LookupAt(st'.entries, i');
    KeyFieldDetermined(st.entries[i].value, st'.entries[i'].value, st.keyPath.value, k);
  }

  // ---------------------------------------------------------------------------
  // queryByCondition, deleteByCondition

  /** How many records a limited cursor walk processes: it stops at `limit` (none if `limit` is not positive). */
  function Processed(walkLength: nat, limit: int): (n: nat)
    ensures n <= walkLength && (limit >= 0 ==> n <= limit)
    ensures limit > 0 ==> n == walkLength || n == limit
    ensures limit <= 0 ==> n == 0
  {
    if limit <= 0 then 0 else if limit < walkLength then limit else walkLength
  }

  /** `cursor.delete()` on each of the given records, in order. */
  function DeleteEntries(st: Store, es: seq<Entry>): Store
    decreases es
  {
    if es == [] then st else DeleteEntries(DeleteKey(st, es[0].key), es[1..])
  }

  lemma EntryKeysCons(es: seq<Entry>)
    requires es != []
    ensures EntryKeys(es) == {es[0].key} + EntryKeys(es[1..])
  {
    forall k | k in EntryKeys(es) ensures k in {es[0].key} + EntryKeys(es[1..]) {
      var i :| 0 <= i < |es| && es[i].key == k;
      if i > 0 {
        assert es[1..][i - 1].key == k;
      }
    }
    forall k | k in EntryKeys(es[1..]) ensures k in EntryKeys(es) {
      var i :| 0 <= i < |es[1..]| && es[1..][i].key == k;
      assert es[i + 1].key == k;
    }
  }

  /** Deleting the visited records removes exactly their keys and leaves every other record as it was. */
  lemma {:induction false} DeleteEntriesEffect(st: Store, es: seq<Entry>)
    requires Valid(st)
    ensures var st' := DeleteEntries(st, es);
      Valid(st') && SameSchema(st, st') &&
      KeysOf(st'.entries) == KeysOf(st.entries) - EntryKeys(es) &&
      forall j :: Lookup(st'.entries, j) == if j in EntryKeys(es) then None else Lookup(st.entries, j)
    decreases es
  {
    if es != [] {
      EntryKeysCons(es);
      DeleteKeyEffect(st, es[0].key);
      DeleteEntriesEffect(DeleteKey(st, es[0].key), es[1..]);
    }
  }

  // ---------------------------------------------------------------------------
  // putByCondition

  /** The condition of `putByCondition`: an `IDBKeyRange`, a predicate on records, or anything else. */
  datatype Condition = RangeCondition(range: KeyRange) | Predicate(test: Record -> bool) | Malformed

  /** Whether the walk processes a record: a predicate may reject it, a range condition takes every record it visits. */
  predicate Selects(cond: Condition, rec: Record)
  {
    !cond.Predicate? || cond.test(rec)
  }

  /** `cursor.update(v)` with an in-line key path throws DataError when `v`'s key field no longer gives the cursor's key. */
  predicate KeyChanged(keyPath: Option<string>, v: Record, k: Key)
  {
    keyPath.Some? && FieldKey(v, keyPath.value) != Some(k)
  }

  function CountSelected(walk: seq<Entry>, cond: Condition): nat
  {
    if walk == [] then 0 else (if Selects(cond, walk[0].value) then 1 else 0) + CountSelected(walk[1..], cond)
  }

  /**
   * The rest of a `putByCondition` walk from store `st` with `count` records already
   * counted: each selected record is replaced by `{...value, ...callback(value)}` and
   * counted (the count is taken before the write's outcome is known); a write that would
   * change the key aborts the transaction (None: every write is rolled back).
   */
  function UpdateWalk(st: Store, walk: seq<Entry>, cond: Condition, callback: Record -> Record, count: nat): Option<(Store, nat)>
    decreases walk
  {
    if walk == [] then Some((st, count))
    else
      var e := walk[0];
      if !Selects(cond, e.value) then UpdateWalk(st, walk[1..], cond, callback, count)
      else
        var v := e.value + callback(e.value);
        if KeyChanged(st.keyPath, v, e.key) then None
        else UpdateWalk(PutAt(st, e.key, v).0, walk[1..], cond, callback, count + 1)
  }

  /** Some index of the store is unique: the only way the engine can refuse a cursor update. */
  predicate HasUniqueIndex(st: Store)
  {
    exists name :: name in st.indexes && st.indexes[name].unique
  }

  /** No key occurs twice along the walk. */
  predicate DistinctKeys(walk: seq<Entry>)
  {
    forall i, j :: 0 <= i < j < |walk| ==> walk[i].key != walk[j].key
  }

  /** Some record the walk selects would get a different in-line key from its merge. */
  predicate Aborts(keyPath: Option<string>, walk: seq<Entry>, cond: Condition, callback: Record -> Record)
  {
    exists i :: 0 <= i < |walk| && Selects(cond, walk[i].value) &&
      KeyChanged(keyPath, walk[i].value + callback(walk[i].value), walk[i].key)
  }

  /**
   * What a completed walk leaves under the key of visited record `e`: a record the
   * condition rejects is as it was; a selected one holds `{...value, ...callback(value)}`,
   * unless a unique index refused the update and left it as it was.
   */
  predicate Visited(st: Store, st': Store, e: Entry, cond: Condition, callback: Record -> Record)
  {
    if !Selects(cond, e.value) then Lookup(st'.entries, e.key) == Lookup(st.entries, e.key)
    else (Lookup(st'.entries, e.key) == Some(e.value + callback(e.value)) ||
          (HasUniqueIndex(st) && Lookup(st'.entries, e.key) == Lookup(st.entries, e.key)))
  }

  /** A walk aborts exactly when some selected record's merge would change its key. */
  lemma {:induction false} UpdateWalkAborts(st: Store, walk: seq<Entry>, cond: Condition, callback: Record -> Record, count: nat)
    ensures UpdateWalk(st, walk, cond, callback, count).None? <==> Aborts(st.keyPath, walk, cond, callback)
    decreases walk
  {
    if walk != [] {
      var e := walk[0];
      assert forall i :: 0 < i < |walk| ==> walk[i] == walk[1..][i - 1];
      if !Selects(cond, e.value) {
        UpdateWalkAborts(st, walk[1..], cond, callback, count);
      } else if !KeyChanged(st.keyPath, e.value + callback(e.value), e.key) {
        UpdateWalkAborts(PutAt(st, e.key, e.value + callback(e.value)).0, walk[1..], cond, callback, count + 1);
      }
    }
  }

  /**
   * A `putByCondition` walk over records of the store that completes counts exactly the
   * records the condition selects, keeps every key and the store's validity, and leaves
   * every record it did not visit as it was.
   */
  lemma {:induction false} UpdateWalkEffect(st: Store, walk: seq<Entry>, cond: Condition, callback: Record -> Record, count: nat)
    requires Valid(st) && EntryKeys(walk) <= KeysOf(st.entries)
    ensures match UpdateWalk(st, walk, cond, callback, count)
      case None => true
      case Some((st', n)) =>
        Valid(st') && SameSchema(st, st') && n == count + CountSelected(walk, cond) &&
        KeysOf(st'.entries) == KeysOf(st.entries) &&
        forall j :: j !in EntryKeys(walk) ==> Lookup(st'.entries, j) == Lookup(st.entries, j)
    decreases walk
  {
    if walk != [] {
      var e := walk[0];
      EntryKeysCons(walk);
      if !Selects(cond, e.value) {
        UpdateWalkEffect(st, walk[1..], cond, callback, count);
      } else {
        var v := e.value + callback(e.value);
        if !KeyChanged(st.keyPath, v, e.key) {
          StoredKeyBelowGenerator(st, e.key);
          PutAtEffect(st, e.key, v);
          UpdateWalkEffect(PutAt(st, e.key, v).0, walk[1..], cond, callback, count + 1);
        }
      }
    }
  }

  /** The first key of a walk without repeated keys is not among the keys of the rest. */
  lemma DistinctKeysTail(walk: seq<Entry>)
    requires walk != [] && DistinctKeys(walk)
    ensures DistinctKeys(walk[1..]) && walk[0].key !in EntryKeys(walk[1..])
  {
    forall m | 0 <= m < |walk[1..]| ensures walk[1..][m].key != walk[0].key {
      assert walk[1..][m] == walk[m + 1];
    }
  }

  /**
   * When the walk visits no key twice, a completed walk leaves each visited record as
   * `Visited` says: a rejected record as it was, a selected one merged with the
   * callback's fields (or as it was, when a unique index refuses the update).
   */
  lemma {:induction false} UpdateWalkVisits(st: Store, walk: seq<Entry>, cond: Condition, callback: Record -> Record, count: nat)
    requires Valid(st) && EntryKeys(walk) <= KeysOf(st.entries) && DistinctKeys(walk)
    ensures var res := UpdateWalk(st, walk, cond, callback, count);
      res.Some? ==> forall i :: 0 <= i < |walk| ==> Visited(st, res.value.0, walk[i], cond, callback)
    decreases walk
  {
    var res := UpdateWalk(st, walk, cond, callback, count);
    if walk != [] && res.Some? {
      var e := walk[0];
      EntryKeysCons(walk);
      DistinctKeysTail(walk);
      var next := st;
      var n := count;
      if Selects(cond, e.value) {
        var v := e.value + callback(e.value);
        StoredKeyBelowGenerator(st, e.key);
        PutAtEffect(st, e.key, v);
        next := PutAt(st, e.key, v).0;
        n := count + 1;
        if !PutAt(st, e.key, v).1 {
          assert HasUniqueIndex(st);
        }
      }
      assert res == UpdateWalk(next, walk[1..], cond, callback, n);
      UpdateWalkEffect(next, walk[1..], cond, callback, n);
      UpdateWalkVisits(next, walk[1..], cond, callback, n);
      var st' := res.value.0;
      assert forall j :: j != e.key ==> Lookup(next.entries, j) == Lookup(st.entries, j);
      assert Lookup(st'.entries, e.key) == Lookup(next.entries, e.key);
      assert Visited(st, st', e, cond, callback);
      forall i | 0 < i < |walk| ensures Visited(st, st', walk[i], cond, callback) {
        assert walk[1..][i - 1] == walk[i];
        assert Visited(next, st', walk[i], cond, callback);
        assert HasUniqueIndex(next) == HasUniqueIndex(st);
      }
    }
  }

  /** The records a `putByCondition` cursor visits: the range, or the whole store for a predicate, in direction "next". */
  function ConditionWalk(st: Store, cond: Condition): seq<Entry>
  {
    match cond
    case RangeCondition(range) => Walk(st, None, Some(range), Next)
    case Predicate(_) => Walk(st, None, None, Next)
    case Malformed => []
  }

  /** Every key a cursor visits is a key of the store. */
  lemma WalkKeysStored(st: Store, index: Option<string>, range: Option<KeyRange>, dir: Direction)
    requires SourceExists(st, index)
    ensures EntryKeys(Walk(st, index, range, dir)) <= KeysOf(st.entries)
  {
    var walk := Walk(st, index, range, dir);
    WalkFromStore(st, index, range, dir);
    forall k | k in EntryKeys(walk) ensures k in KeysOf(st.entries) {
      var i :| 0 <= i < |walk| && walk[i].key == k;
      assert walk[i] in walk;
      var m :| 0 <= m < |st.entries| && st.entries[m] == walk[i];
      KeysOfHasAll(st.entries, m);
    }
  }

  /** Whether the condition's cursor visits the record under `k`: the range, or every record for a predicate. */
  predicate InScope(cond: Condition, k: Key)
  {
    match cond
    case RangeCondition(range) => InRange(Some(range), k)
    case Predicate(_) => true
    case Malformed => false
  }

  /** Every record in scope is as `Visited` says; every record out of scope is as it was. */
  predicate ScopeUpdated(st: Store, st': Store, cond: Condition, callback: Record -> Record)
  {
    forall e :: e in st.entries ==>
      if InScope(cond, e.key) then Visited(st, st', e, cond, callback)
      else Lookup(st'.entries, e.key) == Lookup(st.entries, e.key)
  }

  /** The records a range or predicate cursor visits are exactly the stored records in scope, in key order. */
  lemma ConditionWalkScope(st: Store, cond: Condition)
    requires Valid(st) && !cond.Malformed?
    ensures forall e :: e in ConditionWalk(st, cond) <==> e in st.entries && InScope(cond, e.key)
    ensures DistinctKeys(ConditionWalk(st, cond)) && EntryKeys(ConditionWalk(st, cond)) <= KeysOf(st.entries)
  {
    var range := if cond.RangeCondition? then Some(cond.range) else None;
    assert ConditionWalk(st, cond) == Walk(st, None, range, Next);
    WalkKeysStored(st, None, range, Next);
    PrimaryWalkOrder(st, range);
    SortedDistinct(ConditionWalk(st, cond));
  }

  /**
   * A `putByCondition` call aborts exactly when some record in scope that the condition
   * selects would get a different in-line key from its merge.
   */
  lemma PutByConditionAborts(st: Store, cond: Condition, callback: Record -> Record)
    requires Valid(st)
    ensures UpdateWalk(st, ConditionWalk(st, cond), cond, callback, 0).None? <==>
      exists e :: e in st.entries && InScope(cond, e.key) && Selects(cond, e.value) &&
                  KeyChanged(st.keyPath, e.value + callback(e.value), e.key)
  {
    var walk := ConditionWalk(st, cond);
    UpdateWalkAborts(st, walk, cond, callback, 0);
    if !cond.Malformed? {
      ConditionWalkScope(st, cond);
      if Aborts(st.keyPath, walk, cond, callback) {
        var i :| 0 <= i < |walk| && Selects(cond, walk[i].value) &&
          KeyChanged(st.keyPath, walk[i].value + callback(walk[i].value), walk[i].key);
        assert walk[i] in walk;
      }
    }
  }

  /**
   * A `putByCondition` call that completes counts exactly the records its condition
   * selects, keeps every key and the store's validity, leaves every record out of scope
   * as it was, and leaves each record in scope as `Visited` says: rejected by the
   * predicate, as it was; selected, `{...value, ...callback(value)}` (or as it was,
   * when a unique index refuses it).
   */
  lemma PutByConditionEffect(st: Store, cond: Condition, callback: Record -> Record)
    requires Valid(st)
    ensures var res := UpdateWalk(st, ConditionWalk(st, cond), cond, callback, 0);
      res.Some? ==> var (st', n) := res.value;
        Valid(st') && SameSchema(st, st') && n == CountSelected(ConditionWalk(st, cond), cond) &&
        KeysOf(st'.entries) == KeysOf(st.entries) && ScopeUpdated(st, st', cond, callback)
  {
    var walk := ConditionWalk(st, cond);
    if cond.Malformed? {
      UpdateWalkEffect(st, walk, cond, callback, 0);
    } else {
      ConditionWalkScope(st, cond);
      UpdateWalkEffect(st, walk, cond, callback, 0);
      UpdateWalkVisits(st, walk, cond, callback, 0);
      var res := UpdateWalk(st, walk, cond, callback, 0);
      if res.Some? {
        var st' := res.value.0;
        forall e | e in st.entries
          ensures if InScope(cond, e.key) then Visited(st, st', e, cond, callback)
                  else Lookup(st'.entries, e.key) == Lookup(st.entries, e.key)
        {
          if InScope(cond, e.key) {
            var i :| 0 <= i < |walk| && walk[i] == e;
          } else {
            forall i | 0 <= i < |walk| ensures walk[i].key != e.key {
              assert walk[i] in walk;
            }
          }
        }
      }
    }
  }

  /** A walk in strict key order visits no key twice. */
  lemma SortedDistinct(walk: seq<Entry>)
    requires Sorted(walk)
    ensures DistinctKeys(walk)
  {
    forall i, j | 0 <= i < j < |walk| ensures walk[i].key != walk[j].key {
      KeyLessIrreflexive(walk[i].key);
    }
  }

  // ---------------------------------------------------------------------------
  // updateByKeys as written

  /**
   * `updateByKeys` as the code runs: `await store.get(key)` yields the request object
   * itself (an `IDBRequest` is not a promise), which is never falsy and whose spread
   * contributes no field. So every key, present or not, is written with `newData` and
   * the key field alone.
   */
  function UpdateAllAsWritten(st: Store, keys: seq<string>, newData: Record): (Store, nat)
    decreases keys
  {
    if keys == [] then (st, 0)
    else
      var (next, ok) := PutAt(st, StrKey(keys[0]), Guarded(map[], newData, st.keyPath, keys[0]));
      var (last, n) := UpdateAllAsWritten(next, keys[1..], newData);
      (last, if ok then n + 1 else n)
  }

  /**
   * On a store keyed by `id` holding `{id: "a", x: 1}`, updating `"a"` with `{y: 2}` as
   * written drops `x`, where the intended merge keeps it; and updating the absent key
   * `"b"` as written creates a record and counts it, where it should be skipped.
   */
  lemma UpdateAsWrittenDiffers()
    ensures var st := Store(Some("id"), false, map[], [Entry(StrKey("a"), map["id" := Str("a"), "x" := Num(1)])], 1);
      var newData := map["y" := Num(2)];
      Lookup(UpdateAllAsWritten(st, ["a"], newData).0.entries, StrKey("a")) == Some(map["id" := Str("a"), "y" := Num(2)]) &&
      Lookup(UpdateAll(st, ["a"], newData).0.entries, StrKey("a")) == Some(map["id" := Str("a"), "x" := Num(1), "y" := Num(2)]) &&
      UpdateAllAsWritten(st, ["b"], newData).1 == 1 && Lookup(UpdateAllAsWritten(st, ["b"], newData).0.entries, StrKey("b")).Some? &&
      UpdateAll(st, ["b"], newData) == (st, 0)
  {
    var st := Store(Some("id"), false, map[], [Entry(StrKey("a"), map["id" := Str("a"), "x" := Num(1)])], 1);
    var newData := map["y" := Num(2)];
    assert Lookup(st.entries, StrKey("a")) == Some(map["id" := Str("a"), "x" := Num(1)]);
    assert Lookup(st.entries, StrKey("b")) == None;
    assert Guarded(map["id" := Str("a"), "x" := Num(1)], newData, st.keyPath, "a") == map["id" := Str("a"), "x" := Num(1), "y" := Num(2)];
    assert Guarded(map[], newData, st.keyPath, "a") == map["id" := Str("a"), "y" := Num(2)];
    assert !UniqueConflict(st, StrKey("a"), Guarded(map[], newData, st.keyPath, "a"));
    assert !UniqueConflict(st, StrKey("b"), Guarded(map[], newData, st.keyPath, "b"));
    LookupPut(st.entries, Entry(StrKey("b"), Guarded(map[], newData, st.keyPath, "b")), StrKey("b"));
    assert !UniqueConflict(st, StrKey("a"), Guarded(map["id" := Str("a"), "x" := Num(1)], newData, st.keyPath, "a"));
  }
}
