/** The awaiter objects of the runtime and the control-transfer decision each
    one makes in `await_suspend`. The awaiters that need the frame store
    (`Task::Awaiter`, `RepeatAwaiter`) are in `Frames`; the one that needs
    the scheduler (`SleepAwaiter`) is in `Scheduler`. */
module Awaiters {
  import opened Base

  /** What runs after a suspension: `std::noop_coroutine()`, meaning control
      returns to whoever resumed the suspending frame, or a symmetric transfer
      into frame `h`. A `void` `await_suspend` also returns control to the
      resumer, so it is `Noop` here too. */
  datatype Next = Noop | Run(h: Handle)

  /** The awaiters the runtime uses. */
  datatype Awaiter =
    | SuspendAlways                          // std::suspend_always
    | Repeat                                 // RepeatAwaiter
    | Previous(previous: Option<Handle>)     // PreviousAwaiter{mPrevious}
    | OnTask(callee: Handle)                 // Task::Awaiter{mCoroutine}
    | Sleep(expireTime: int)                 // SleepAwaiter{expireTime}

  /** `await_ready()`: every awaiter of the runtime answers false, so every
      `co_await` suspends and then consults `await_suspend`. */
  function AwaitReady(a: Awaiter): (r: bool)
    ensures !r
  {
    match a
    case SuspendAlways => false
    case Repeat => false
    case Previous(_) => false
    case OnTask(_) => false
    case Sleep(_) => false
  }

  /** Where control goes after `co_await a` suspends frame `h` (`hDone` is
      `h.done()`): `suspend_always` and the `void` `SleepAwaiter::await_suspend`
      hand control back to the resumer; `RepeatAwaiter` re-enters `h` unless
      it is done; `PreviousAwaiter` goes to `mPrevious`; `Task::Awaiter` enters
      the awaited frame. */
  function AwaitSuspend(a: Awaiter, h: Handle, hDone: bool): (r: Next)
    ensures r.Noop? <==> a.SuspendAlways? || a.Sleep? || (a.Repeat? && hDone)
                         || (a.Previous? && a.previous.None?)
    ensures r.Run? && a.Repeat? ==> r.h == h
    ensures r.Run? && a.Previous? ==> a.previous == Some(r.h)
    ensures r.Run? && a.OnTask? ==> r.h == a.callee
  {
    match a
    case SuspendAlways => Noop
    case Repeat => if hDone then Noop else Run(h)
    case Previous(p) => PreviousSuspend(p)
    case OnTask(c) => Run(c)
    case Sleep(_) => Noop
  }

  /** `PreviousAwaiter::await_suspend`: transfer to the recorded continuation
      when there is one, else to `noop`. */
  function PreviousSuspend(previous: Option<Handle>): (r: Next)
    ensures r.Run? <==> previous.Some?
    ensures r.Run? ==> r.h == previous.value
  {
    match previous
    case Some(p) => Run(p)
    case None => Noop
  }
}
