/**
 * Cursor walks over an object store or one of its indexes, following the "Key Range"
 * and "Cursor" sections of the W3C Indexed Database API: a cursor visits the records
 * whose cursor key lies in the range, in ascending order of (cursor key, primary key)
 * for "next", in the reverse order for "prev", and only the first record of each run
 * of equal cursor keys for the "unique" directions.
 */
module Cursor {
  import opened Outcomes
  import opened Keys
  import opened ObjectStore

  /** One position of a cursor: its cursor key (index key or primary key) and the record there. */
  datatype CursorItem = CursorItem(position: Key, entry: Entry)

  /** The positions of a cursor opened on the store itself: the cursor key is the primary key. */
  function PrimaryItems(es: seq<Entry>): seq<CursorItem>
  {
    if es == [] then [] else [CursorItem(es[0].key, es[0])] + PrimaryItems(es[1..])
  }

  /** Index order: by index key, then by primary key. */
  predicate ItemBefore(a: CursorItem, b: CursorItem)
  {
    KeyLess(a.position, b.position) || (a.position == b.position && KeyLess(a.entry.key, b.entry.key))
  }

  function InsertItem(x: CursorItem, s: seq<CursorItem>): seq<CursorItem>
  {
    if s == [] then [x]
    else if ItemBefore(x, s[0]) then [x] + s
    else [s[0]] + InsertItem(x, s[1..])
  }

  /**
   * The positions of a cursor opened on an index with key path `path`: every record with
   * a valid key at that path, in index order. Records without one are not in the index.
   */
  function IndexItems(es: seq<Entry>, path: string): seq<CursorItem>
  {
    if es == [] then []
    else
      var rest := IndexItems(es[1..], path);
      match FieldKey(es[0].value, path)
      case Some(ik) => InsertItem(CursorItem(ik, es[0]), rest)
      case None => rest
  }

  function InRangeItems(s: seq<CursorItem>, range: Option<KeyRange>): seq<CursorItem>
  {
    if s == [] then []
    else if InRange(range, s[0].position) then [s[0]] + InRangeItems(s[1..], range)
    else InRangeItems(s[1..], range)
  }

  /** Keeps the first item of every run of equal cursor keys; `prev` is the key of the last item kept. */
  function FirstOfEachKey(prev: Option<Key>, s: seq<CursorItem>): seq<CursorItem>
    decreases s
  {
    if s == [] then []
    else if prev == Some(s[0].position) then FirstOfEachKey(prev, s[1..])
    else [s[0]] + FirstOfEachKey(Some(s[0].position), s[1..])
  }

  function Reverse<T>(s: seq<T>): seq<T>
  {
    if s == [] then [] else Reverse(s[1..]) + [s[0]]
  }

  /** "prevunique" visits, for each cursor key, the record with the lowest primary key. */
  function Directed(s: seq<CursorItem>, dir: Direction): seq<CursorItem>
  {
    match dir
    case Next => s
    case NextUnique => FirstOfEachKey(None, s)
    case Prev => Reverse(s)
    case PrevUnique => Reverse(FirstOfEachKey(None, s))
  }

  function EntriesOf(s: seq<CursorItem>): seq<Entry>
  {
    if s == [] then [] else [s[0].entry] + EntriesOf(s[1..])
  }

  /** Whether `source.openCursor` can be called: the named index, if one is named, exists. */
  predicate SourceExists(st: Store, index: Option<string>)
  {
    index.Some? ==> index.value in st.indexes
  }

  /**
   * The records that `openCursor(range, dir)` visits, in order, on the store (`index`
   * None) or on the named index.
   */
  function Walk(st: Store, index: Option<string>, range: Option<KeyRange>, dir: Direction): seq<Entry>
    requires SourceExists(st, index)
  {
    var items := match index
      case None => PrimaryItems(st.entries)
      case Some(name) => IndexItems(st.entries, st.indexes[name].keyPath);
    EntriesOf(Directed(InRangeItems(items, range), dir))
  }

  // ---------------------------------------------------------------------------
  // Every record a cursor visits is a record of the store

  predicate ItemsFrom(s: seq<CursorItem>, es: seq<Entry>)
  {
    forall j :: 0 <= j < |s| ==> s[j].entry in es
  }

  lemma {:induction false} PrimaryItemsFrom(es: seq<Entry>)
    ensures ItemsFrom(PrimaryItems(es), es)
    ensures forall j :: 0 <= j < |PrimaryItems(es)| ==> PrimaryItems(es)[j].position == PrimaryItems(es)[j].entry.key
    ensures EntriesOf(PrimaryItems(es)) == es
  {
    if es != [] {
      PrimaryItemsFrom(es[1..]);
      var items := PrimaryItems(es);
      var rest := PrimaryItems(es[1..]);
      assert items == [CursorItem(es[0].key, es[0])] + rest;
      forall j | 0 < j < |items|
        ensures items[j].entry in es && items[j].position == items[j].entry.key
      {
        assert items[j] == rest[j - 1];
        assert rest[j - 1].entry in es[1..];
      }
      assert EntriesOf(items) == [es[0]] + EntriesOf(rest);
      assert es == [es[0]] + es[1..];
    }
  }

  lemma {:induction false} InsertItemMembers(x: CursorItem, s: seq<CursorItem>)
    ensures multiset(InsertItem(x, s)) == multiset(s) + multiset{x}
  {
    if s != [] && !ItemBefore(x, s[0]) {
      InsertItemMembers(x, s[1..]);
      assert s == [s[0]] + s[1..];
    }
  }

  lemma {:induction false} IndexItemsFrom(es: seq<Entry>, path: string)
    ensures ItemsFrom(IndexItems(es, path), es)
  {
    if es != [] {
      var rest := IndexItems(es[1..], path);
      IndexItemsFrom(es[1..], path);
      match FieldKey(es[0].value, path)
      case Some(ik) =>
        InsertItemMembers(CursorItem(ik, es[0]), rest);
        forall j | 0 <= j < |InsertItem(CursorItem(ik, es[0]), rest)|
          ensures InsertItem(CursorItem(ik, es[0]), rest)[j].entry in es
        {
          var y := InsertItem(CursorItem(ik, es[0]), rest)[j];
          assert y in multiset(InsertItem(CursorItem(ik, es[0]), rest));
          if y != CursorItem(ik, es[0]) {
            assert y in multiset(rest);
            assert y in rest;
            var m :| 0 <= m < |rest| && rest[m] == y;
            assert y.entry in es[1..];
          }
        }
      case None =>
        forall j | 0 <= j < |rest| ensures rest[j].entry in es {
          assert rest[j].entry in es[1..];
        }
    }
  }

  lemma {:induction false} InRangeItemsSub(s: seq<CursorItem>, range: Option<KeyRange>)
    ensures forall x :: x in InRangeItems(s, range) <==> x in s && InRange(range, x.position)
  {
    if s != [] {
      InRangeItemsSub(s[1..], range);
    }
  }

  lemma {:induction false} FirstOfEachKeySub(prev: Option<Key>, s: seq<CursorItem>)
    ensures forall x :: x in FirstOfEachKey(prev, s) ==> x in s
    decreases s
  {
    if s != [] {
      if prev == Some(s[0].position) {
        FirstOfEachKeySub(prev, s[1..]);
      } else {
        FirstOfEachKeySub(Some(s[0].position), s[1..]);
      }
    }
  }

  lemma {:induction false} ReverseMembers<T>(s: seq<T>)
    ensures |Reverse(s)| == |s|
    ensures forall x :: x in Reverse(s) <==> x in s
  {
    if s != [] {
      ReverseMembers(s[1..]);
    }
  }

  lemma {:induction false} EntriesOfMembers(s: seq<CursorItem>)
    ensures |EntriesOf(s)| == |s|
    ensures forall j :: 0 <= j < |s| ==> EntriesOf(s)[j] == s[j].entry
  {
    if s != [] {
      EntriesOfMembers(s[1..]);
    }
  }

  lemma DirectedSub(s: seq<CursorItem>, dir: Direction)
    ensures forall x :: x in Directed(s, dir) ==> x in s
  {
    FirstOfEachKeySub(None, s);
    ReverseMembers(s);
    ReverseMembers(FirstOfEachKey(None, s));
  }

  /**
   * Every record a cursor visits is a record of the store, and a cursor on the store
   * itself visits only records whose key lies in the range.
   */
  lemma WalkFromStore(st: Store, index: Option<string>, range: Option<KeyRange>, dir: Direction)
    requires SourceExists(st, index)
    ensures forall e :: e in Walk(st, index, range, dir) ==> e in st.entries
    ensures index.None? ==> forall e :: e in Walk(st, index, range, dir) ==> InRange(range, e.key)
  {
    var items := match index
      case None => PrimaryItems(st.entries)
      case Some(name) => IndexItems(st.entries, st.indexes[name].keyPath);
    if index.None? {
      PrimaryItemsFrom(st.entries);
    } else {
      IndexItemsFrom(st.entries, st.indexes[index.value].keyPath);
    }
    var filtered := InRangeItems(items, range);
    var directed := Directed(filtered, dir);
    InRangeItemsSub(items, range);
    DirectedSub(filtered, dir);
    EntriesOfMembers(directed);
    forall e | e in Walk(st, index, range, dir)
      ensures e in st.entries
      ensures index.None? ==> InRange(range, e.key)
    {
      var j :| 0 <= j < |directed| && EntriesOf(directed)[j] == e;
      assert directed[j] in directed;
      assert directed[j] in filtered;
      assert directed[j] in items;
      var m :| 0 <= m < |items| && items[m] == directed[j];
    }
  }

  // ---------------------------------------------------------------------------
  // A cursor on the store itself in direction "next" walks the range in key order

  lemma {:induction false} InRangeEntriesSorted(es: seq<Entry>, range: Option<KeyRange>)
    requires Sorted(es)
    ensures Sorted(EntriesOf(InRangeItems(PrimaryItems(es), range)))
    ensures forall e :: e in EntriesOf(InRangeItems(PrimaryItems(es), range)) <==> e in es && InRange(range, e.key)
  {
    if es != [] {
      SortedTail(es);
      InRangeEntriesSorted(es[1..], range);
      var rest := EntriesOf(InRangeItems(PrimaryItems(es[1..]), range));
      if InRange(range, es[0].key) {
        assert EntriesOf(InRangeItems(PrimaryItems(es), range)) == [es[0]] + rest;
        forall j | 0 <= j < |rest| ensures KeyLess(es[0].key, rest[j].key) {
          assert rest[j] in rest;
          var m :| 0 <= m < |es[1..]| && es[1..][m] == rest[j];
        }
        SortedCons(es[0], rest);
      }
      assert forall e :: e in es <==> e == es[0] || e in es[1..];
    }
  }

  /**
   * On the store itself, direction "next" visits exactly the records in the range, in
   * ascending key order; "prev" visits the same records in the reverse order.
   */
  lemma PrimaryWalkOrder(st: Store, range: Option<KeyRange>)
    requires Sorted(st.entries)
    ensures Sorted(Walk(st, None, range, Next))
    ensures forall e :: e in Walk(st, None, range, Next) <==> e in st.entries && InRange(range, e.key)
    ensures Walk(st, None, range, Prev) == Reverse(Walk(st, None, range, Next))
  {
    InRangeEntriesSorted(st.entries, range);
    EntriesOfReverse(InRangeItems(PrimaryItems(st.entries), range));
  }

  lemma {:induction false} EntriesOfReverse(s: seq<CursorItem>)
    ensures EntriesOf(Reverse(s)) == Reverse(EntriesOf(s))
  {
    if s != [] {
      EntriesOfReverse(s[1..]);
      EntriesOfAppend(Reverse(s[1..]), [s[0]]);
    }
  }

  lemma {:induction false} EntriesOfAppend(a: seq<CursorItem>, b: seq<CursorItem>)
    ensures EntriesOf(a + b) == EntriesOf(a) + EntriesOf(b)
  {
    if a == [] {
      assert a + b == b;
    } else {
      EntriesOfAppend(a[1..], b);
      assert (a + b)[1..] == a[1..] + b;
    }
  }
}
