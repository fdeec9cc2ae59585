/**
 * An abstract object store of the browser's Indexed Database engine: a finite,
 * key-ordered map from keys to records, with an optional in-line key path, an optional
 * key generator (auto-increment) and a set of named indexes. This module holds the
 * engine primitives the adapters call (get, add, put, delete, cursor walks); the
 * adapters themselves live in other modules.
 */
module ObjectStore {
  import opened Outcomes
  import opened Keys

  /** A field value of a record. Objects, arrays and dates are not modelled. */
  datatype Value = Null | Bool(b: bool) | Num(n: int) | Str(s: string)

  /** A record is an open mapping from field names to values. */
  type Record = map<string, Value>

  /** The key a value denotes; only numbers and strings are valid keys here. */
  function KeyOfValue(v: Value): Option<Key>
  {
    match v
    case Num(n) => Some(NumKey(n))
    case Str(s) => Some(StrKey(s))
    case _ => None
  }

  /** The key found at key path `path` of record `r` (absent field or invalid key: None). */
  function FieldKey(r: Record, path: string): Option<Key>
  {
    if path in r then KeyOfValue(r[path]) else None
  }

  datatype Entry = Entry(key: Key, value: Record)

  /** The settings of an index (`createIndex(name, keyPath, {unique, multiEntry})`). */
  datatype IndexParams = IndexParams(keyPath: string, unique: bool, multiEntry: bool)

  /**
   * An object store. `entries` is the key-ordered contents; `current` is the key
   * generator's current number (the next key `add` assigns when the store auto-increments).
   */
  datatype Store = Store(
    keyPath: Option<string>,
    autoIncrement: bool,
    indexes: map<string, IndexParams>,
    entries: seq<Entry>,
    current: int)

  /** An empty store as `createObjectStore` makes it. */
  function EmptyStore(keyPath: Option<string>, autoIncrement: bool, indexes: map<string, IndexParams>): Store
  {
    Store(keyPath, autoIncrement, indexes, [], 1)
  }

  // ---------------------------------------------------------------------------
  // The key-ordered record sequence

  /** Keys strictly increase along the sequence, so every key occurs once. */
  predicate Sorted(es: seq<Entry>)
  {
    forall i, j :: 0 <= i < j < |es| ==> KeyLess(es[i].key, es[j].key)
  }

  /** Every key of `es` sorts after `k`. */
  predicate AllAbove(k: Key, es: seq<Entry>)
  {
    forall j :: 0 <= j < |es| ==> KeyLess(k, es[j].key)
  }

  function KeysOf(es: seq<Entry>): set<Key>
  {
    if es == [] then {} else {es[0].key} + KeysOf(es[1..])
  }

  /** `store.get(key)`: the record stored under `k`, or None (`undefined`). */
  function Lookup(es: seq<Entry>, k: Key): Option<Record>
  {
    if es == [] then None
    else if es[0].key == k then Some(es[0].value)
    else Lookup(es[1..], k)
  }

  /** Stores `e` at its key: inserted in key order, or replacing the record already there. */
  function Put(es: seq<Entry>, e: Entry): seq<Entry>
  {
    if es == [] then [e]
    else if KeyLess(e.key, es[0].key) then [e] + es
    else if e.key == es[0].key then [e] + es[1..]
    else [es[0]] + Put(es[1..], e)
  }

  /** Removes the record stored under `k`, if any. */
  function Remove(es: seq<Entry>, k: Key): seq<Entry>
  {
    if es == [] then []
    else if es[0].key == k then Remove(es[1..], k)
    else [es[0]] + Remove(es[1..], k)
  }

  lemma {:induction false} LookupKeys(es: seq<Entry>, k: Key)
    ensures Lookup(es, k).Some? <==> k in KeysOf(es)
  {
    if es != [] {
      LookupKeys(es[1..], k);
    }
  }

  /** After a put, the key holds the new record and every other key is as before. */
  lemma {:induction false} LookupPut(es: seq<Entry>, e: Entry, k: Key)
    ensures Lookup(Put(es, e), k) == if k == e.key then Some(e.value) else Lookup(es, k)
  {
    if es != [] && !KeyLess(e.key, es[0].key) && e.key != es[0].key {
      LookupPut(es[1..], e, k);
    }
  }

  lemma {:induction false} KeysOfPut(es: seq<Entry>, e: Entry)
    ensures KeysOf(Put(es, e)) == KeysOf(es) + {e.key}
  {
    if es != [] && !KeyLess(e.key, es[0].key) && e.key != es[0].key {
      KeysOfPut(es[1..], e);
    }
  }

  /** After a delete, the key is gone and every other key is as before. */
  lemma {:induction false} LookupRemove(es: seq<Entry>, k: Key, j: Key)
    ensures Lookup(Remove(es, k), j) == if j == k then None else Lookup(es, j)
  {
    if es != [] {
      LookupRemove(es[1..], k, j);
    }
  }

  lemma {:induction false} KeysOfRemove(es: seq<Entry>, k: Key)
    ensures KeysOf(Remove(es, k)) == KeysOf(es) - {k}
  {
    if es != [] {
      KeysOfRemove(es[1..], k);
    }
  }

  lemma SortedTail(es: seq<Entry>)
    requires Sorted(es) && es != []
    ensures Sorted(es[1..]) && AllAbove(es[0].key, es[1..])
  {
  }

  lemma SortedCons(e: Entry, es: seq<Entry>)
    requires Sorted(es) && AllAbove(e.key, es)
    ensures Sorted([e] + es)
  {
  }

  lemma {:induction false} AllAboveLower(k: Key, k': Key, es: seq<Entry>)
    requires KeyLess(k, k') && AllAbove(k', es)
    ensures AllAbove(k, es)
  {
    forall j | 0 <= j < |es|
      ensures KeyLess(k, es[j].key)
    {
      KeyLessTransitive(k, k', es[j].key);
    }
  }

  lemma {:induction false} AllAbovePut(k: Key, es: seq<Entry>, e: Entry)
    requires AllAbove(k, es) && KeyLess(k, e.key)
    ensures AllAbove(k, Put(es, e))
  {
    if es != [] && !KeyLess(e.key, es[0].key) && e.key != es[0].key {
      AllAbovePut(k, es[1..], e);
    }
  }

  /** Putting a record keeps the sequence in strict key order. */
  lemma {:induction false} PutSorted(es: seq<Entry>, e: Entry)
    requires Sorted(es)
    ensures Sorted(Put(es, e))
  {
    if es == [] {
    } else if KeyLess(e.key, es[0].key) {
      SortedTail(es);
      AllAboveLower(e.key, es[0].key, es[1..]);
      SortedCons(e, es);
    } else if e.key == es[0].key {
      SortedTail(es);
      SortedCons(e, es[1..]);
    } else {
      KeyLessTotal(e.key, es[0].key);
      SortedTail(es);
      PutSorted(es[1..], e);
      AllAbovePut(es[0].key, es[1..], e);
      SortedCons(es[0], Put(es[1..], e));
    }
  }

  lemma {:induction false} AllAboveRemove(k: Key, es: seq<Entry>, j: Key)
    requires AllAbove(k, es)
    ensures AllAbove(k, Remove(es, j))
  {
    if es != [] {
      AllAboveRemove(k, es[1..], j);
    }
  }

  lemma {:induction false} RemoveSorted(es: seq<Entry>, k: Key)
    requires Sorted(es)
    ensures Sorted(Remove(es, k))
  {
    if es != [] {
      SortedTail(es);
      RemoveSorted(es[1..], k);
      if es[0].key != k {
        AllAboveRemove(es[0].key, es[1..], k);
        SortedCons(es[0], Remove(es[1..], k));
      }
    }
  }

  /** In a sorted sequence, removing the first key drops exactly the first entry. */
  lemma RemoveFirst(es: seq<Entry>)
    requires Sorted(es) && es != []
    ensures Remove(es, es[0].key) == es[1..]
  {
    SortedTail(es);
    RemoveAbsent(es[1..], es[0].key);
  }

  lemma {:induction false} RemoveAbsent(es: seq<Entry>, k: Key)
    requires AllAbove(k, es)
    ensures Remove(es, k) == es
  {
    if es != [] {
      KeyLessIrreflexive(k);
      RemoveAbsent(es[1..], k);
    }
  }

  /** Putting a key above every key of the sequence appends the entry. */
  lemma {:induction false} PutAbove(es: seq<Entry>, e: Entry)
    requires forall j :: 0 <= j < |es| ==> KeyLess(es[j].key, e.key)
    ensures Put(es, e) == es + [e]
  {
    if es != [] {
      KeyLessAsymmetric(es[0].key, e.key);
      PutAbove(es[1..], e);
    }
  }

  lemma {:induction false} LookupAt(es: seq<Entry>, i: nat)
    requires Sorted(es) && i < |es|
    ensures Lookup(es, es[i].key) == Some(es[i].value)
  {
    if i > 0 {
      KeyLessAsymmetric(es[0].key, es[i].key);
      LookupAt(es[1..], i - 1);
    }
  }

  // ---------------------------------------------------------------------------
  // Store invariant and the engine's write primitives

  /** For an in-line key path, the record's field at the path holds the record's key. */
  predicate InlineKeysAgree(keyPath: Option<string>, es: seq<Entry>)
  {
    keyPath.Some? ==> forall j :: 0 <= j < |es| ==> FieldKey(es[j].value, keyPath.value) == Some(es[j].key)
  }

  /** The key generator is ahead of every numeric key in the store. */
  predicate GeneratorAhead(st: Store)
  {
    st.current >= 1 &&
    (st.autoIncrement ==> forall j :: 0 <= j < |st.entries| && st.entries[j].key.NumKey? ==> st.entries[j].key.n < st.current)
  }

  predicate Valid(st: Store)
  {
    Sorted(st.entries) && InlineKeysAgree(st.keyPath, st.entries) && GeneratorAhead(st)
  }

  /** Where `store.add(value)` puts a value: its key, the value as stored, and the new generator number. */
  datatype KeyAssignment = KeyAssignment(key: Key, value: Record, current: int)

  /** The generator after a record is stored under key `k` (a number at or above it moves it on). */
  function Bumped(st: Store, k: Key): int
  {
    if st.autoIncrement && k.NumKey? && k.n >= st.current then k.n + 1 else st.current
  }

  /**
   * The key `store.add(rec)` uses. With an in-line key path the key is read from the
   * record, or generated and written into the record when the field is absent and the
   * store auto-increments. Without one, the store must auto-increment. None stands for
   * the engine's DataError.
   */
  function AssignKey(st: Store, rec: Record): Option<KeyAssignment>
  {
    match st.keyPath
    case Some(p) =>
      if p in rec then
        match KeyOfValue(rec[p])
        case Some(k) => Some(KeyAssignment(k, rec, Bumped(st, k)))
        case None => None
      else if st.autoIncrement then
        Some(KeyAssignment(NumKey(st.current), rec[p := Num(st.current)], st.current + 1))
      else None
    case None =>
      if st.autoIncrement then Some(KeyAssignment(NumKey(st.current), rec, st.current + 1)) else None
  }

  /** Storing `rec` under `k` would give a unique index a second record with the same index key. */
  predicate UniqueConflict(st: Store, k: Key, rec: Record)
  {
    exists name, j :: name in st.indexes && 0 <= j < |st.entries| &&
      st.indexes[name].unique && st.entries[j].key != k &&
      FieldKey(rec, st.indexes[name].keyPath).Some? &&
      FieldKey(st.entries[j].value, st.indexes[name].keyPath) == FieldKey(rec, st.indexes[name].keyPath)
  }

  /**
   * `store.add(rec)` throws DataError itself, before any request is made: the in-line
   * key field holds no valid key, or there is no key and no key generator.
   */
  predicate KeyMissing(st: Store, rec: Record)
  {
    match st.keyPath
    case Some(p) => if p in rec then KeyOfValue(rec[p]).None? else !st.autoIncrement
    case None => !st.autoIncrement
  }

  /**
   * The request of `store.add(rec)`: fails (the request's error event) when a record is
   * already stored under the key or a unique index conflicts; a failed request leaves
   * the store as it was. A missing key (`KeyMissing`) never reaches a request; it is
   * reported here as a failure that changes nothing.
   */
  function AddRecord(st: Store, rec: Record): (Store, bool)
  {
    match AssignKey(st, rec)
    case None => (st, false)
    case Some(a) =>
      if Lookup(st.entries, a.key).Some? || UniqueConflict(st, a.key, a.value) then (st, false)
      else (st.(entries := Put(st.entries, Entry(a.key, a.value)), current := a.current), true)
  }

  /** `store.put(rec)` / `cursor.update(rec)` for a known key: overwrite or insert, unless a unique index conflicts. */
  function PutAt(st: Store, k: Key, rec: Record): (Store, bool)
  {
    if UniqueConflict(st, k, rec) then (st, false)
    else (st.(entries := Put(st.entries, Entry(k, rec))), true)
  }

  /** `store.delete(key)` / `cursor.delete()`: succeeds whether or not a record is stored under the key. */
  function DeleteKey(st: Store, k: Key): Store
  {
    st.(entries := Remove(st.entries, k))
  }

  lemma {:induction false} AssignKeyFits(st: Store, rec: Record)
    requires Valid(st) && AssignKey(st, rec).Some?
    ensures var a := AssignKey(st, rec).value;
      (st.keyPath.Some? ==> FieldKey(a.value, st.keyPath.value) == Some(a.key)) &&
      a.current >= st.current &&
      (st.autoIncrement && a.key.NumKey? ==> a.key.n < a.current)
  {
  }

  /**
   * A successful add stores the record under a key that was free, leaves every other
   * key as it was, and keeps the store valid; a failed add changes nothing.
   */
  lemma AddRecordEffect(st: Store, rec: Record)
    requires Valid(st)
    ensures var (st', ok) := AddRecord(st, rec);
      Valid(st') &&
      st'.keyPath == st.keyPath && st'.autoIncrement == st.autoIncrement && st'.indexes == st.indexes &&
      (!ok ==> st' == st) &&
      (ok ==> var a := AssignKey(st, rec).value;
         a.key !in KeysOf(st.entries) &&
         KeysOf(st'.entries) == KeysOf(st.entries) + {a.key} &&
         (forall k :: Lookup(st'.entries, k) == if k == a.key then Some(a.value) else Lookup(st.entries, k)))
  {
    var (st', ok) := AddRecord(st, rec);
    if ok {
      var a := AssignKey(st, rec).value;
      LookupKeys(st.entries, a.key);
      KeysOfPut(st.entries, Entry(a.key, a.value));
      forall k ensures Lookup(st'.entries, k) == if k == a.key then Some(a.value) else Lookup(st.entries, k) {
        LookupPut(st.entries, Entry(a.key, a.value), k);
      }
      PutSorted(st.entries, Entry(a.key, a.value));
      AssignKeyFits(st, rec);
      PutPreserves(st, a.key, a.value, a.current);
    }
  }

  /** Storing a record whose in-line key agrees with its key keeps the store valid. */
  lemma {:induction false} PutPreserves(st: Store, k: Key, rec: Record, current: int)
    requires Valid(st) && current >= st.current
    requires st.keyPath.Some? ==> FieldKey(rec, st.keyPath.value) == Some(k)
    requires st.autoIncrement && k.NumKey? ==> k.n < current
    ensures Valid(st.(entries := Put(st.entries, Entry(k, rec)), current := current))
  {
    var es' := Put(st.entries, Entry(k, rec));
    PutSorted(st.entries, Entry(k, rec));
    PutMembers(st.entries, Entry(k, rec));
    forall j | 0 <= j < |es'|
      ensures (st.keyPath.Some? ==> FieldKey(es'[j].value, st.keyPath.value) == Some(es'[j].key))
      ensures (st.autoIncrement && es'[j].key.NumKey? ==> es'[j].key.n < current)
    {
      assert es'[j] in es';
      if es'[j] != Entry(k, rec) {
        var i :| 0 <= i < |st.entries| && st.entries[i] == es'[j];
      }
    }
  }

  lemma {:induction false} PutMembers(es: seq<Entry>, e: Entry)
    ensures forall x :: x in Put(es, e) ==> x == e || x in es
  {
    if es != [] && !KeyLess(e.key, es[0].key) && e.key != es[0].key {
      PutMembers(es[1..], e);
    }
  }

  lemma {:induction false} RemoveMembers(es: seq<Entry>, k: Key)
    ensures forall x :: x in Remove(es, k) ==> x in es && x.key != k
  {
    if es != [] {
      RemoveMembers(es[1..], k);
    }
  }

  /**
   * A put at a known key is refused exactly when a unique index conflicts, and then
   * changes nothing; otherwise it stores the record there and no other key changes.
   */
  lemma PutAtEffect(st: Store, k: Key, rec: Record)
    requires Valid(st)
    requires st.keyPath.Some? ==> FieldKey(rec, st.keyPath.value) == Some(k)
    requires st.autoIncrement && k.NumKey? ==> k.n < st.current
    ensures var (st', ok) := PutAt(st, k, rec);
      Valid(st') &&
      st'.keyPath == st.keyPath && st'.autoIncrement == st.autoIncrement && st'.indexes == st.indexes &&
      (ok <==> !UniqueConflict(st, k, rec)) &&
      (!ok ==> st' == st) &&
      (ok ==> KeysOf(st'.entries) == KeysOf(st.entries) + {k} &&
              forall j :: Lookup(st'.entries, j) == if j == k then Some(rec) else Lookup(st.entries, j))
  {
    var (st', ok) := PutAt(st, k, rec);
    if ok {
      PutPreserves(st, k, rec, st.current);
      KeysOfPut(st.entries, Entry(k, rec));
      forall j ensures Lookup(st'.entries, j) == if j == k then Some(rec) else Lookup(st.entries, j) {
        LookupPut(st.entries, Entry(k, rec), j);
      }
    }
  }

  /** A delete removes exactly the key and keeps the store valid. */
  lemma DeleteKeyEffect(st: Store, k: Key)
    requires Valid(st)
    ensures var st' := DeleteKey(st, k);
      Valid(st') &&
      st'.keyPath == st.keyPath && st'.autoIncrement == st.autoIncrement && st'.indexes == st.indexes &&
      KeysOf(st'.entries) == KeysOf(st.entries) - {k} &&
      forall j :: Lookup(st'.entries, j) == if j == k then None else Lookup(st.entries, j)
  {
    RemoveSorted(st.entries, k);
    RemoveMembers(st.entries, k);
    KeysOfRemove(st.entries, k);
    forall j ensures Lookup(DeleteKey(st, k).entries, j) == if j == k then None else Lookup(st.entries, j) {
      LookupRemove(st.entries, k, j);
    }
  }
}
