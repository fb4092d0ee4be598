/** `Promise<T>` and `Promise<void>`: the continuation link `mPrevious`, the
    captured exception `mException`, and the result cell `mResult`. The later
    promise keeps the result in an `Uninitialized<T>`; the earlier one keeps
    it in an in-struct union and also accepts `co_yield`. Both store into the
    same one-slot cell, so one model serves both. */
module Promises {
  import opened Base
  import opened Cell
  import opened Awaiters

  datatype Promise<T> = Promise(previous: Option<Handle>, exception: Option<Exc>, result: Slot<T>)

  /** What `ReturnResult` (the `await_resume` of a task) produces: the stored
      value, the rethrown exception, or `Undefined` when it would move a value
      out of an unconstructed slot. One outcome is never both. */
  datatype Outcome<T> = Value(value: T) | Thrown(exc: Exc) | Undefined

  /** A freshly constructed promise: null continuation, no exception, no value. */
  function NewPromise<T>(): Promise<T>
  {
    Promise(None, None, Empty)
  }

  /** `initial_suspend()`: a `suspend_always`, so a freshly created task does
      not start its body until it is first resumed: it is not ready, its
      suspension transfers nowhere, and it registers no timer. */
  function InitialSuspend(): (a: Awaiter)
    ensures !AwaitReady(a) && !a.Sleep?
    ensures forall h: Handle, hDone: bool :: AwaitSuspend(a, h, hDone) == Noop
  {
    SuspendAlways
  }

  /** `final_suspend()`: a `PreviousAwaiter` built from `mPrevious`. */
  function FinalSuspend<T>(p: Promise<T>): (a: Awaiter)
    ensures !AwaitReady(a) && a.Previous? && a.previous == p.previous
    ensures forall h: Handle, hDone: bool :: AwaitSuspend(a, h, hDone) == PreviousSuspend(p.previous)
  {
    Previous(p.previous)
  }

  /** `unhandled_exception()`: captures the exception; the result slot and
      the continuation are left alone. */
  function UnhandledException<T>(p: Promise<T>, e: Exc): (r: Promise<T>)
    ensures r.exception == Some(e)
    ensures r.previous == p.previous && r.result == p.result
  {
    p.(exception := Some(e))
  }

  /** `return_value(ret)`: constructs `ret` in the result slot. */
  function ReturnValue<T>(p: Promise<T>, v: T): (r: Promise<T>)
    ensures r.result == Full(v)
    ensures r.previous == p.previous && r.exception == p.exception
  {
    p.(result := PutValue(p.result, v))
  }

  /** `yield_value(ret)` of the earlier promise: constructs `ret` in the slot
      (without destroying an earlier value) and always suspends. */
  function YieldValue<T>(p: Promise<T>, v: T): (r: (Promise<T>, Awaiter))
    ensures r.0.result == Full(v)
    ensures r.0.previous == p.previous && r.0.exception == p.exception
    ensures r.1 == SuspendAlways && !AwaitReady(r.1)
  {
    (p.(result := PutValue(p.result, v)), SuspendAlways)
  }

  /** `ReturnResult()` of `Promise<T>`: rethrows a captured exception without
      touching the slot; otherwise moves the value out and destroys it. */
  function ReturnResult<T>(p: Promise<T>): (r: (Outcome<T>, Promise<T>))
    ensures p.exception.Some? ==> r.0 == Thrown(p.exception.value) && r.1 == p
    ensures p.exception.None? && p.result.Full? ==>
              r.0 == Value(p.result.value) && r.1 == p.(result := Empty)
    ensures r.0.Undefined? <==> p.exception.None? && p.result.Empty?
    ensures r.1.previous == p.previous && r.1.exception == p.exception
  {
    if p.exception.Some? then (Thrown(p.exception.value), p)
    else
      match MoveValue(p.result)
      case Moved(v, rest) => (Value(v), p.(result := rest))
      case Unconstructed => (Undefined, p)
  }

  /** `ReturnResult()` of `Promise<void>`: rethrows a captured exception,
      otherwise returns normally; it never reads a value slot. */
  function ReturnResultVoid<T>(p: Promise<T>): (r: Outcome<Unit>)
    ensures r.Thrown? <==> p.exception.Some?
    ensures r.Thrown? ==> r.exc == p.exception.value
    ensures !r.Undefined?
  {
    if p.exception.Some? then Thrown(p.exception.value) else Value(Unit)
  }

  /** Returning a value and then taking the result hands back exactly that
      value and leaves the slot unconstructed; a second take is undefined. */
  lemma ReturnThenTake<T>(p: Promise<T>, v: T)
    requires p.exception.None?
    ensures ReturnResult(ReturnValue(p, v)).0 == Value(v)
    ensures ReturnResult(ReturnValue(p, v)).1.result == Empty
    ensures ReturnResult(ReturnResult(ReturnValue(p, v)).1).0 == Undefined
  {
  }

  /** A captured exception wins over any stored value, and since it is never
      cleared, every later take rethrows it again. */
  lemma ThrowThenTake<T>(p: Promise<T>, e: Exc)
    ensures ReturnResult(UnhandledException(p, e)).0 == Thrown(e)
    ensures ReturnResult(ReturnResult(UnhandledException(p, e)).1).0 == Thrown(e)
    ensures ReturnResult(UnhandledException(p, e)).1.result == p.result
  {
  }
}
