/**
 * Keys of an object store and their order, as the Indexed Database API defines them
 * (section "Keys" of the W3C Indexed Database API): every number sorts before every
 * string, numbers compare numerically and strings compare element by element, a
 * proper prefix sorting first. Dates, binary keys and array keys are not modelled.
 */
module Keys {
  import opened Outcomes

  datatype Key = NumKey(n: int) | StrKey(s: string)

  /** Lexicographic order on strings. */
  predicate StrLess(a: string, b: string)
  {
    |b| > 0 && (|a| == 0 || a[0] < b[0] || (a[0] == b[0] && StrLess(a[1..], b[1..])))
  }

  /** The strict order of keys used by cursors and by the sorted record sequence of a store. */
  predicate KeyLess(a: Key, b: Key)
  {
    match (a, b)
    case (NumKey(x), NumKey(y)) => x < y
    case (NumKey(_), StrKey(_)) => true
    case (StrKey(_), NumKey(_)) => false
    case (StrKey(x), StrKey(y)) => StrLess(x, y)
  }

  lemma {:induction false} StrLessIrreflexive(a: string)
    ensures !StrLess(a, a)
  {
    if |a| > 0 {
      StrLessIrreflexive(a[1..]);
    }
  }

  lemma {:induction false} StrLessTransitive(a: string, b: string, c: string)
    requires StrLess(a, b) && StrLess(b, c)
    ensures StrLess(a, c)
  {
    if |a| > 0 && a[0] == b[0] && b[0] == c[0] {
      StrLessTransitive(a[1..], b[1..], c[1..]);
    }
  }

  lemma {:induction false} StrLessTotal(a: string, b: string)
    ensures a == b || StrLess(a, b) || StrLess(b, a)
  {
    if |a| > 0 && |b| > 0 && a[0] == b[0] {
      StrLessTotal(a[1..], b[1..]);
      if a[1..] == b[1..] {
        assert a == [a[0]] + a[1..] && b == [b[0]] + b[1..];
      }
    }
  }

  lemma KeyLessIrreflexive(a: Key)
    ensures !KeyLess(a, a)
  {
    if a.StrKey? {
      StrLessIrreflexive(a.s);
    }
  }

  lemma KeyLessTransitive(a: Key, b: Key, c: Key)
    requires KeyLess(a, b) && KeyLess(b, c)
    ensures KeyLess(a, c)
  {
    if a.StrKey? && b.StrKey? && c.StrKey? {
      StrLessTransitive(a.s, b.s, c.s);
    }
  }

  /** The key order is total: two keys are equal or one sorts before the other. */
  lemma KeyLessTotal(a: Key, b: Key)
    ensures a == b || KeyLess(a, b) || KeyLess(b, a)
  {
    if a.StrKey? && b.StrKey? {
      StrLessTotal(a.s, b.s);
    }
  }

  lemma KeyLessAsymmetric(a: Key, b: Key)
    requires KeyLess(a, b)
    ensures !KeyLess(b, a) && a != b
  {
    KeyLessIrreflexive(a);
    if KeyLess(b, a) {
      KeyLessTransitive(a, b, a);
    }
  }

  /** One end of a key range (`IDBKeyRange.lower`/`lowerOpen`, `upper`/`upperOpen`). */
  datatype Bound = Bound(key: Key, open: bool)

  /** An `IDBKeyRange`; an absent end is unbounded. */
  datatype KeyRange = KeyRange(lower: Option<Bound>, upper: Option<Bound>)

  /** `IDBKeyRange.only(k)` */
  function Only(k: Key): KeyRange
  {
    KeyRange(Some(Bound(k, false)), Some(Bound(k, false)))
  }

  predicate AboveLower(lower: Option<Bound>, k: Key)
  {
    match lower
    case None => true
    case Some(b) => KeyLess(b.key, k) || (!b.open && b.key == k)
  }

  predicate BelowUpper(upper: Option<Bound>, k: Key)
  {
    match upper
    case None => true
    case Some(b) => KeyLess(k, b.key) || (!b.open && b.key == k)
  }

  /** Whether key `k` lies in the range; an absent range (an `undefined` argument) holds every key. */
  predicate InRange(range: Option<KeyRange>, k: Key)
  {
    match range
    case None => true
    case Some(r) => AboveLower(r.lower, k) && BelowUpper(r.upper, k)
  }

  lemma OnlyHoldsExactly(k: Key, j: Key)
    ensures InRange(Some(Only(k)), j) <==> j == k
  {
    if KeyLess(k, j) && KeyLess(j, k) {
      KeyLessAsymmetric(k, j);
    }
  }

  /** `IDBCursorDirection` */
  datatype Direction = Next | NextUnique | Prev | PrevUnique
}
