/**
 * The connectivity state machine of src/utils/networkTracker.ts. A listener is known by
 * its identity only; calling it is recorded in the tracker's `notified` log, in call
 * order, so what the listeners receive can be stated.
 */
module Network {
  import opened Outcomes

  datatype NetworkState = Online | Offline

  /** The identity of a subscribed callback (JavaScript compares functions by identity). */
  type Listener = nat

  /** The calls `listeners.forEach((fn) => fn(s))` makes, in the set's insertion order. */
  function Calls(listeners: seq<Listener>, s: NetworkState): (calls: seq<(Listener, NetworkState)>)
  {
    seq(|listeners|, i requires 0 <= i < |listeners| => (listeners[i], s))
  }

  predicate NoDuplicates(ls: seq<Listener>)
  {
    forall i, j :: 0 <= i < j < |ls| ==> ls[i] != ls[j]
  }

  /** `Set.add`: a listener already present keeps its place. */
  function Added(ls: seq<Listener>, l: Listener): seq<Listener>
  {
    if l in ls then ls else ls + [l]
  }

  /** `Set.delete`: the listener is removed, the others keep their order. */
  function Without(ls: seq<Listener>, l: Listener): seq<Listener>
  {
    if ls == [] then []
    else if ls[0] == l then Without(ls[1..], l)
    else [ls[0]] + Without(ls[1..], l)
  }

  /**
   * A change of state calls every subscribed listener exactly once, with the new state,
   * and calls nothing else.
   */
  lemma {:induction false} EachListenerOnce(ls: seq<Listener>, s: NetworkState, l: Listener, t: NetworkState)
    requires NoDuplicates(ls)
    ensures multiset(Calls(ls, s))[(l, t)] == if l in ls && t == s then 1 else 0
  {
    if ls != [] {
      EachListenerOnce(ls[1..], s, l, t);
      assert Calls(ls, s) == [(ls[0], s)] + Calls(ls[1..], s);
      assert ls == [ls[0]] + ls[1..];
    }
  }

  /** Subscribing keeps the listeners distinct and adds exactly `l`. */
  lemma AddedMembers(ls: seq<Listener>, l: Listener)
    requires NoDuplicates(ls)
    ensures NoDuplicates(Added(ls, l))
    ensures forall x :: x in Added(ls, l) <==> x in ls || x == l
  {
  }

  /** Unsubscribing removes that listener only and keeps the others in order. */
  lemma {:induction false} WithoutMembers(ls: seq<Listener>, l: Listener)
    requires NoDuplicates(ls)
    ensures NoDuplicates(Without(ls, l))
    ensures forall x :: x in Without(ls, l) <==> x in ls && x != l
    ensures l !in ls ==> Without(ls, l) == ls
  {
    if ls != [] {
      WithoutMembers(ls[1..], l);
      if ls[0] != l {
        assert ls[0] !in ls[1..];
        NoDuplicatesCons(ls[0], Without(ls[1..], l));
      }
      if l !in ls {
        assert ls == [ls[0]] + ls[1..];
      }
    }
  }

  lemma NoDuplicatesCons(x: Listener, s: seq<Listener>)
    requires NoDuplicates(s) && x !in s
    ensures NoDuplicates([x] + s)
  {
    forall i, j | 0 <= i < j < |[x] + s| ensures ([x] + s)[i] != ([x] + s)[j] {
      if i == 0 {
        assert ([x] + s)[j] == s[j - 1];
      }
    }
  }

  /** Subscribing a new listener and calling the returned function gives back the listeners as they were. */
  lemma SubscribeThenUnsubscribe(ls: seq<Listener>, l: Listener)
    requires NoDuplicates(ls) && l !in ls
    ensures Without(Added(ls, l), l) == ls
  {
    WithoutAppend(ls, [l], l);
    WithoutMembers(ls, l);
  }

  lemma {:induction false} WithoutAppend(a: seq<Listener>, b: seq<Listener>, l: Listener)
    ensures Without(a + b, l) == Without(a, l) + Without(b, l)
  {
    if a == [] {
      assert a + b == b;
    } else {
      WithoutAppend(a[1..], b, l);
      assert (a + b)[1..] == a[1..] + b;
    }
  }

  class NetworkTracker {
    var state: NetworkState
    var listeners: seq<Listener>
    /** Every listener call made so far, with its argument. */
    var notified: seq<(Listener, NetworkState)>

    predicate Valid()
      reads this
    {
      NoDuplicates(listeners)
    }

    /** The initial state is `navigator.onLine`, supplied by the host. */
    constructor(onLine: bool)
      ensures state == (if onLine then Online else Offline)
      ensures listeners == [] && notified == [] && Valid()
    {
      state := if onLine then Online else Offline;
      listeners := [];
      notified := [];
    }

    /** `currentState` */
    function CurrentState(): NetworkState
      reads this
    {
      state
    }

    /**
     * `updateState(newState)`: the same state does nothing; a new state is stored and
     * every listener is called with it, in subscription order.
     */
    method UpdateState(newState: NetworkState)
      requires Valid()
      modifies this
      ensures Valid() && listeners == old(listeners)
      ensures CurrentState() == newState
      ensures old(state) == newState ==> notified == old(notified)
      ensures old(state) != newState ==> notified == old(notified) + Calls(listeners, newState)
    {
      if state != newState {
        state := newState;
        var i := 0;
        while i < |listeners|
          invariant 0 <= i <= |listeners|
          invariant state == newState && listeners == old(listeners)
          invariant notified == old(notified) + Calls(listeners[..i], newState)
        {
          assert Calls(listeners[..i + 1], newState) == Calls(listeners[..i], newState) + [(listeners[i], newState)];
          notified := notified + [(listeners[i], newState)];
          i := i + 1;
        }
        assert listeners[..i] == listeners;
      }
    }

    /** `subscribe(listener)`: adds the listener; the handle it returns unsubscribes that listener. */
    method Subscribe(l: Listener) returns (handle: Listener)
      requires Valid()
      modifies this
      ensures Valid() && state == old(state) && notified == old(notified)
      ensures listeners == Added(old(listeners), l) && handle == l
    {
      AddedMembers(listeners, l);
      listeners := Added(listeners, l);
      handle := l;
    }

    /** Calling the function `subscribe` returned: `listeners.delete(listener)`, true when it was there. */
    method Unsubscribe(handle: Listener) returns (removed: bool)
      requires Valid()
      modifies this
      ensures Valid() && state == old(state) && notified == old(notified)
      ensures listeners == Without(old(listeners), handle)
      ensures removed <==> handle in old(listeners)
    {
      WithoutMembers(listeners, handle);
      removed := handle in listeners;
      listeners := Without(listeners, handle);
    }
  }

  /** The static `instance` slot of `NetworkTracker`. */
  class TrackerSingleton {
    var instance: Option<NetworkTracker>

    constructor()
      ensures instance == None
    {
      instance := None;
    }

    /** `getInstance()`: the first call creates the tracker, every later call returns that same one. */
    method GetInstance(onLine: bool) returns (t: NetworkTracker)
      modifies this
      ensures instance == Some(t)
      ensures old(instance).Some? ==> t == old(instance).value
      ensures old(instance).None? ==> fresh(t) && t.Valid() && t.listeners == [] && t.notified == []
    {
      if instance.None? {
        t := new NetworkTracker(onLine);
        instance := Some(t);
      } else {
        t := instance.value;
      }
    }
  }
}
