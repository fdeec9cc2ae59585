/**
 * The counter slice of src/features/counter/slice.ts: a value, a request status and an
 * error message, changed in place by the reducers and by the three cases of
 * `fetchCounterAsync`. Values are whole numbers here. The file imports
 * `fetchCounterAsync`, a name its actions module does not export, so as written the
 * three fetch cases cannot be registered; their bodies are modelled as intended, on the
 * actions the saga dispatches.
 */
module CounterSlice {
  import opened Outcomes

  datatype Status = Idle | Loading | Succeeded | Failed

  /** `CounterState`; `error` None is `null`. */
  datatype CounterState = CounterState(value: int, state: Status, error: Option<string>)

  /** The actions the slice handles: its own reducers, then the request/success/failure cases. */
  datatype Action =
    | Increment
    | Decrement
    | IncrementByAmount(amount: int)
    | Request
    | Success(payload: int)
    | Failure(message: string)

  const InitialState := CounterState(0, Idle, None)

  /** The slice's reducer, as a function of the state before the action. */
  function Reduce(s: CounterState, a: Action): CounterState
  {
    match a
    case Increment => s.(value := s.value + 1)
    case Decrement => s.(value := s.value - 1)
    case IncrementByAmount(n) => s.(value := s.value + n)
    case Request => s.(state := Loading)
    case Success(v) => s.(state := Succeeded, value := v)
    case Failure(m) => s.(error := Some(m))
  }

  function ReduceAll(s: CounterState, actions: seq<Action>): CounterState
    decreases actions
  {
    if actions == [] then s else ReduceAll(Reduce(s, actions[0]), actions[1..])
  }

  /** Incrementing then decrementing, or the other way round, restores the state. */
  lemma IncrementDecrementInverse(s: CounterState)
    ensures Reduce(Reduce(s, Increment), Decrement) == s
    ensures Reduce(Reduce(s, Decrement), Increment) == s
  {
  }

  /** The plain reducers move the value only; the fetch cases each touch what they name and nothing else. */
  lemma ReduceFrames(s: CounterState, a: Action)
    ensures a.Increment? || a.Decrement? || a.IncrementByAmount? ==>
      Reduce(s, a).state == s.state && Reduce(s, a).error == s.error
    ensures a.IncrementByAmount? ==> Reduce(s, a).value == s.value + a.amount
    ensures a.Request? ==> Reduce(s, a) == CounterState(s.value, Loading, s.error)
    ensures a.Success? ==> Reduce(s, a) == CounterState(a.payload, Succeeded, s.error)
    ensures a.Failure? ==> Reduce(s, a) == CounterState(s.value, s.state, Some(a.message))
  {
  }

  /** No action sets "failed": from the initial state, no sequence of actions reaches it. */
  lemma {:induction false} NeverFailed(s: CounterState, actions: seq<Action>)
    requires s.state != Failed
    ensures ReduceAll(s, actions).state != Failed
    decreases actions
  {
    if actions != [] {
      NeverFailed(Reduce(s, actions[0]), actions[1..]);
    }
  }

  lemma InitialNeverFailed(actions: seq<Action>)
    ensures InitialState.value == 0 && InitialState.state == Idle && InitialState.error == None
    ensures ReduceAll(InitialState, actions).state != Failed
  {
    NeverFailed(InitialState, actions);
  }

  /** The draft state a reducer of `counterSlice` mutates. */
  class CounterDraft {
    var value: int
    var state: Status
    var error: Option<string>

    function Snapshot(): CounterState
      reads this
    {
      CounterState(value, state, error)
    }

    /** `initialState` */
    constructor()
      ensures Snapshot() == InitialState
    {
      value := 0;
      state := Idle;
      error := None;
    }

    method Increment()
      modifies this
      ensures Snapshot() == Reduce(old(Snapshot()), Action.Increment)
    {
      value := value + 1;
    }

    method Decrement()
      modifies this
      ensures Snapshot() == Reduce(old(Snapshot()), Action.Decrement)
    {
      value := value - 1;
    }

    method IncrementByAmount(amount: int)
      modifies this
      ensures Snapshot() == Reduce(old(Snapshot()), Action.IncrementByAmount(amount))
    {
      value := value + amount;
    }

    /** `fetchCounterAsync.request` */
    method OnRequest()
      modifies this
      ensures Snapshot() == Reduce(old(Snapshot()), Request)
    {
      state := Loading;
    }

    /** `fetchCounterAsync.success` */
    method OnSuccess(payload: int)
      modifies this
      ensures Snapshot() == Reduce(old(Snapshot()), Success(payload))
    {
      state := Succeeded;
      value := payload;
    }

    /** `fetchCounterAsync.failure`: the payload is an error, whose message is stored. */
    method OnFailure(message: string)
      modifies this
      ensures Snapshot() == Reduce(old(Snapshot()), Failure(message))
    {
      error := Some(message);
    }
  }
}

/**
 * The counter slice of examples/withRedux/slice.ts: the same state, reducers and cases,
 * written against `fetchCountAsync`.
 */
module ExampleCounterSlice {
  import opened Outcomes
  import opened CounterSlice

  /** The draft state a reducer of the example's `counterSlice` mutates. */
  class ExampleCounterDraft {
    var value: int
    var state: Status
    var error: Option<string>

    function Snapshot(): CounterState
      reads this
    {
      CounterState(value, state, error)
    }

    /** `initialState` */
    constructor()
      ensures Snapshot() == InitialState
    {
      value := 0;
      state := Idle;
      error := None;
    }

    method Increment()
      modifies this
      ensures Snapshot() == Reduce(old(Snapshot()), Action.Increment)
    {
      value := value + 1;
    }

    method Decrement()
      modifies this
      ensures Snapshot() == Reduce(old(Snapshot()), Action.Decrement)
    {
      value := value - 1;
    }

    method IncrementByAmount(amount: int)
      modifies this
      ensures Snapshot() == Reduce(old(Snapshot()), Action.IncrementByAmount(amount))
    {
      value := value + amount;
    }

    /** `fetchCountAsync.request` */
    method OnRequest()
      modifies this
      ensures Snapshot() == Reduce(old(Snapshot()), Request)
    {
      state := Loading;
    }

    /** `fetchCountAsync.success` */
    method OnSuccess(payload: int)
      modifies this
      ensures Snapshot() == Reduce(old(Snapshot()), Success(payload))
    {
      state := Succeeded;
      value := payload;
    }

    /** `fetchCountAsync.failure`: the payload is an error, whose message is stored. */
    method OnFailure(message: string)
      modifies this
      ensures Snapshot() == Reduce(old(Snapshot()), Failure(message))
    {
      error := Some(message);
    }
  }
}
