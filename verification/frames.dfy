/** The frame store: every live coroutine frame with its status and promise,
    and the control transfers between frames — creation (initial suspend),
    `Task::Awaiter`, completion (final suspend through `PreviousAwaiter`) and
    `RepeatAwaiter`. The bodies of the coroutines are not modelled: a body
    runs between a resumption and its next suspension or its completion. */
module Frames {
  import opened Base
  import opened Cell
  import opened Awaiters
  import opened Promises

  /** Where a frame is: suspended at its initial suspend point, running,
      suspended at some `co_await`, or suspended at its final suspend point
      (`done()`). */
  datatype Status = NotStarted | Running | Suspended | Done

  datatype Frame<T> = Frame(status: Status, promise: Promise<T>)

  type Store<T> = map<Handle, Frame<T>>

  /** How a coroutine body left: `co_return v`, `co_return;`, or an uncaught exception. */
  datatype Ending<T> = Returned(value: T) | ReturnedVoid | Threw(exc: Exc)

  /** A frame that `resume()` may be called on: live and suspended somewhere
      other than its final suspend point. */
  predicate Resumable<T>(s: Store<T>, h: Handle)
  {
    h in s && (s[h].status == NotStarted || s[h].status == Suspended)
  }

  /** Single-threaded execution: at most one frame runs at a time. */
  predicate OneRunning<T>(s: Store<T>)
  {
    forall a, b :: a in s && b in s && s[a].status == Running && s[b].status == Running ==> a == b
  }

  predicate NoneRunning<T>(s: Store<T>)
  {
    forall k :: k in s ==> s[k].status != Running
  }

  /** Calling a task-producing coroutine: the frame and its promise are
      created at the initial suspend point, then `co_await initial_suspend()`
      decides whether the body starts; since that awaiter is not ready and
      its suspension transfers nowhere, none of the body runs and the caller
      gets the task back. */
  function Create<T>(s: Store<T>, h: Handle): (r: Store<T>)
    requires h !in s
    ensures r.Keys == s.Keys + {h}
    ensures r[h].status == NotStarted
    ensures r[h].promise == NewPromise()
    ensures forall k :: k in s ==> r[k] == s[k]
  {
    var a := InitialSuspend();
    var s1 := s[h := Frame(NotStarted, NewPromise())];
    Transfer(s1, AwaitSuspend(a, h, false))
  }

  /** `h.resume()`: the frame runs from where it was suspended. */
  function Resume<T>(s: Store<T>, h: Handle): (r: Store<T>)
    requires Resumable(s, h)
    ensures r.Keys == s.Keys
    ensures r[h].status == Running && r[h].promise == s[h].promise
    ensures NoneRunning(s) ==> OneRunning(r)
    ensures forall k :: k in s && k != h ==> r[k] == s[k]
  {
    s[h := s[h].(status := Running)]
  }

  /** A running frame reaching a `co_await` whose awaiter is not ready. */
  function Suspend<T>(s: Store<T>, h: Handle): (r: Store<T>)
    requires h in s && s[h].status == Running
    ensures r.Keys == s.Keys
    ensures r[h].status == Suspended && r[h].promise == s[h].promise
    ensures forall k :: k in s && k != h ==> r[k] == s[k]
  {
    s[h := s[h].(status := Suspended)]
  }

  /** Carries out the decision of an `await_suspend`. */
  function Transfer<T>(s: Store<T>, n: Next): (r: Store<T>)
    requires n.Run? ==> Resumable(s, n.h)
    ensures r.Keys == s.Keys
    ensures n.Noop? ==> r == s
    ensures n.Run? ==> r == Resume(s, n.h)
  {
    match n
    case Noop => s
    case Run(h) => Resume(s, h)
  }

  /** `Task::Awaiter::await_suspend(h)`: records `h` as the awaited promise's
      `mPrevious` and transfers control into the awaited frame. */
  function AwaitTask<T>(s: Store<T>, callee: Handle, h: Handle): (r: (Store<T>, Next))
    requires callee in s
    ensures r.1 == Run(callee)
    ensures r.0.Keys == s.Keys
    ensures r.0[callee].promise.previous == Some(h)
    ensures r.0[callee].status == s[callee].status
    ensures r.0[callee].promise.exception == s[callee].promise.exception
    ensures r.0[callee].promise.result == s[callee].promise.result
    ensures forall k :: k in s && k != callee ==> r.0[k] == s[k]
  {
    var f := s[callee];
    var n := AwaitSuspend(OnTask(callee), h, false);
    (s[callee := f.(promise := f.promise.(previous := Some(h)))], n)
  }

  /** `Task::Awaiter::await_resume()`: the awaited promise's `ReturnResult`. */
  function AwaitResume<T>(s: Store<T>, callee: Handle): (r: (Outcome<T>, Store<T>))
    requires callee in s
    ensures r.1.Keys == s.Keys
    ensures forall k :: k in s && k != callee ==> r.1[k] == s[k]
    ensures r.1[callee].status == s[callee].status
    ensures OneRunning(s) ==> OneRunning(r.1)
    ensures r.0 == ReturnResult(s[callee].promise).0
    ensures r.1[callee].promise == ReturnResult(s[callee].promise).1
  {
    var (o, p) := ReturnResult(s[callee].promise);
    (o, s[callee := s[callee].(promise := p)])
  }

  /** A running body ends: `return_value` / `return_void` /
      `unhandled_exception` records how, the frame reaches its final suspend
      point, and the `PreviousAwaiter` decides where control goes. */
  function Finish<T>(s: Store<T>, h: Handle, e: Ending<T>): (r: (Store<T>, Next))
    requires h in s && s[h].status == Running
    ensures r.0.Keys == s.Keys
    ensures forall k :: k in s && k != h ==> r.0[k] == s[k]
    ensures r.0[h].status == Done
    ensures r.0[h].promise.previous == s[h].promise.previous
    ensures s[h].promise.previous.Some? ==> r.1 == Run(s[h].promise.previous.value)
    ensures s[h].promise.previous.None? ==> r.1 == Noop
    ensures e.Returned? ==> r.0[h].promise.result == Full(e.value)
                            && r.0[h].promise.exception == s[h].promise.exception
    ensures e.ReturnedVoid? ==> r.0[h].promise == s[h].promise
    ensures e.Threw? ==> r.0[h].promise.exception == Some(e.exc)
                         && r.0[h].promise.result == s[h].promise.result
  {
    var p := s[h].promise;
    var p' := match e
      case Returned(v) => ReturnValue(p, v)
      case ReturnedVoid => p
      case Threw(x) => UnhandledException(p, x);
    (s[h := Frame(Done, p')], AwaitSuspend(FinalSuspend(p'), h, true))
  }

  /** `RepeatAwaiter::await_suspend(h)`: `noop` when `h` is done, else `h`. */
  function RepeatSuspend<T>(s: Store<T>, h: Handle): (r: Next)
    requires h in s
    ensures r.Noop? <==> s[h].status == Done
    ensures r.Run? ==> r.h == h
  {
    AwaitSuspend(Repeat, h, s[h].status == Done)
  }

  /** `RepeatAwaiter` on a frame that has just suspended re-enters it, and
      carrying that out gives back the store as it was before the suspension;
      on a finished frame it hands control back. */
  lemma RepeatResumesSuspended<T>(s: Store<T>, h: Handle, e: Ending<T>)
    requires h in s && s[h].status == Running
    ensures RepeatSuspend(Suspend(s, h), h) == Run(h)
    ensures Transfer(Suspend(s, h), RepeatSuspend(Suspend(s, h), h)) == s
    ensures RepeatSuspend(Finish(s, h, e).0, h) == Noop
  {
    assert Transfer(Suspend(s, h), Run(h)) == Resume(Suspend(s, h), h);
  }

  /** The outcome the awaiter of a `Task<T>` must observe for a body that
      ended with `e`. (`Promise<T>` has no `return_void`.) */
  function Expected<T>(e: Ending<T>): Outcome<T>
    requires !e.ReturnedVoid?
  {
    match e
    case Returned(v) => Value(v)
    case Threw(x) => Thrown(x)
  }

  /** The same for a `Task<void>`. (`Promise<void>` has no `return_value`.) */
  function ExpectedVoid<T>(e: Ending<T>): Outcome<Unit>
    requires !e.Returned?
  {
    match e
    case ReturnedVoid => Value(Unit)
    case Threw(x) => Thrown(x)
  }

  /** `Task<void>::Awaiter::await_resume()`: `Promise<void>::ReturnResult`. */
  function AwaitResumeVoid<T>(s: Store<T>, callee: Handle): (r: Outcome<Unit>)
    requires callee in s
    ensures r.Thrown? <==> s[callee].promise.exception.Some?
    ensures r.Thrown? ==> r.exc == s[callee].promise.exception.value
    ensures !r.Undefined?
  {
    ReturnResultVoid(s[callee].promise)
  }

  /** `co_await task` from running frame `h`: `h` suspends, records itself in
      the task's promise and control moves into the task. Exactly one frame
      still runs, and it is the task. */
  function CoAwait<T>(s: Store<T>, h: Handle, callee: Handle): (r: Store<T>)
    requires h in s && s[h].status == Running
    requires Resumable(s, callee) && callee != h
    ensures r.Keys == s.Keys
    ensures OneRunning(s) ==> OneRunning(r)
    ensures r[callee].status == Running && r[h].status == Suspended
    ensures r[callee].promise.previous == Some(h)
    ensures r[callee].promise.exception == s[callee].promise.exception
    ensures r[callee].promise.result == s[callee].promise.result
    ensures forall k :: k in s && k != h && k != callee ==> r[k] == s[k]
  {
    var s1 := Suspend(s, h);
    var (s2, n) := AwaitTask(s1, callee, h);
    Transfer(s2, n)
  }

  /** Running frame `h` ends: it becomes done and control moves to its
      continuation, or back to the resumer when it has none. Exactly one
      frame still runs if there is a continuation, else none. */
  function Complete<T>(s: Store<T>, h: Handle, e: Ending<T>): (r: Store<T>)
    requires h in s && s[h].status == Running
    requires s[h].promise.previous.Some? ==>
               Resumable(s, s[h].promise.previous.value) && s[h].promise.previous.value != h
    ensures r.Keys == s.Keys
    ensures r[h].status == Done
    ensures e.Returned? ==> r[h].promise.result == Full(e.value)
                            && r[h].promise.exception == s[h].promise.exception
    ensures e.ReturnedVoid? ==> r[h].promise == s[h].promise
    ensures e.Threw? ==> r[h].promise.exception == Some(e.exc)
                         && r[h].promise.result == s[h].promise.result
    ensures forall k :: k in s && k != h && Some(k) != s[h].promise.previous ==> r[k] == s[k]
    ensures OneRunning(s) && s[h].promise.previous.Some? ==>
              OneRunning(r) && r[s[h].promise.previous.value].status == Running
    ensures OneRunning(s) && s[h].promise.previous.None? ==> NoneRunning(r)
  {
    var (s1, n) := Finish(s, h, e);
    Transfer(s1, n)
  }

  /** The whole `co_await task` protocol: running frame `h` awaits a freshly
      created task `callee`; the task runs and ends with `e`; control comes
      back to `h`, whose `await_resume` observes exactly the task's value or
      exception. A returned value has been moved out of the task's slot. */
  function AwaitToCompletion<T>(s: Store<T>, h: Handle, callee: Handle, e: Ending<T>): (r: (Outcome<T>, Store<T>))
    requires h in s && s[h].status == Running && OneRunning(s)
    requires callee in s && callee != h
    requires s[callee].status == NotStarted && s[callee].promise == NewPromise()
    requires !e.ReturnedVoid?
    ensures r.0 == Expected(e)
    ensures r.1.Keys == s.Keys
    ensures r.1[h].status == Running && r.1[callee].status == Done
    ensures OneRunning(r.1)
    ensures e.Returned? ==> r.1[callee].promise.result == Empty
    ensures forall k :: k in s && k != h && k != callee ==> r.1[k] == s[k]
  {
    var s1 := CoAwait(s, h, callee);
    var s2 := Complete(s1, callee, e);
    AwaitResume(s2, callee)
  }

  /** The `co_await` protocol for a `Task<void>`: the awaiter returns
      normally exactly when the task's body did, and otherwise rethrows the
      task's exception. */
  function AwaitVoidToCompletion<T>(s: Store<T>, h: Handle, callee: Handle, e: Ending<T>): (r: (Outcome<Unit>, Store<T>))
    requires h in s && s[h].status == Running && OneRunning(s)
    requires callee in s && callee != h
    requires s[callee].status == NotStarted && s[callee].promise == NewPromise()
    requires !e.Returned?
    ensures r.0 == ExpectedVoid(e)
    ensures r.1.Keys == s.Keys
    ensures r.1[h].status == Running && r.1[callee].status == Done
    ensures OneRunning(r.1)
    ensures forall k :: k in s && k != h && k != callee ==> r.1[k] == s[k]
  {
    var s1 := CoAwait(s, h, callee);
    var s2 := Complete(s1, callee, e);
    (AwaitResumeVoid(s2, callee), s2)
  }
}
