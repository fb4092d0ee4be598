# A verified model of a single-threaded C++20 coroutine runtime

The runtime has three parts. Each is a small sequential state machine:

- **Result cell and promise.** `Uninitialized<T>` is a one-slot cell: `putValue` constructs the value and `moveValue` moves it out and destroys it. `Promise<T>` / `Promise<void>` keep the task's continuation (`mPrevious`), its captured exception (`mException`) and its result cell. `ReturnResult` rethrows the exception if there is one; otherwise it hands back the value.
- **Control transfer.** Every awaiter's `await_ready` is false. `initial_suspend` always suspends. `Task::Awaiter::await_suspend` records the awaiting frame as the awaited promise's `mPrevious` and jumps into the awaited frame. `final_suspend` (a `PreviousAwaiter`) jumps back to `mPrevious`, or to `noop` if it is null. `RepeatAwaiter` returns `noop` for a finished frame and the frame itself otherwise.
- **Scheduler.** `Loop` has a ready deque and a timer `priority_queue` whose `operator<` is inverted. `addTask` pushes to the front of the deque and `runAll` pops from the front. `runAll` drains the deque, then looks at the heap's top. It resumes that entry only if its expiry is strictly before `now`; otherwise it sleeps until the expiry. It stops when both structures are empty. `SleepAwaiter` always suspends and registers one timer entry.

Both `src/main.cpp` and its earlier copy `src/oldmain.cpp` are modelled. The two share one model. The earlier promise keeps its result in an in-struct union and also has `yield_value`. Both store into the same one-slot cell.

Modules, one per concept:

- `Base`: handles, `Option`, the unit placeholder, captured exceptions.
- `Cell`: `Uninitialized<T>` / `Uninitialized<void>`, and the put/take protocol.
- `Awaiters`: the awaiter kinds, `await_ready`, and where each `await_suspend` sends control.
- `Promises`: `Promise<T>` and `Promise<void>`.
- `Frames`: the frame store. It covers creation, `Task::Awaiter`, completion through `final_suspend`, `RepeatAwaiter`, and the whole `co_await` round trip.
- `Timers`: `TimerEntry`, its inverted `operator<`, and the heap's `top`, `push` and `pop`.
- `Scheduler`: `Loop`, `addTask`, `addTimer`, `runAll`, `SleepAwaiter`, `sleep_until` and `sleep_for`.

Modelling choices:

- **Reading an empty result slot is an explicit outcome, not a precondition.** The C++ code does not guard against a `moveValue` on an unconstructed slot. The same goes for a `ReturnResult` before completion or a second `ReturnResult` after a value was taken. In each case it would read raw storage. The model returns `Unconstructed` / `Undefined` there, so the contracts can say exactly when that happens. Resuming a frame that is running or done is also undefined in C++, but there the model requires a resumable frame instead (see "## Left out").
- **The clock and the coroutine bodies are inputs to `runAll`.** The environment supplies two lists:
  - `clock`: the successive readings of `system_clock::now()` taken by the loop itself (`src/main.cpp:300`). The reading a `sleep_for` body takes (`src/main.cpp:347`) is not in this list; it is folded into the expiry of the timer entry that body registers.
  - `effects`: for each successive `resume()`, the tasks and timers the resumed code registered before control came back to the loop.

  Once `effects` is used up, resumed code registers nothing. `this_thread::sleep_until(t)` returns only once the clock has reached `t`, so a sleep lets the leading readings before `t` go by (`Scheduler.WakeAt`). The model stops, unfinished, when no clock readings are left, which makes `RunAll` total.
- **The heap is a sequence in insertion order.** `Timers.Top` is guaranteed only what `priority_queue::top()` promises: an element no other element exceeds under `operator<` (`Timers.IsTop`). Its body breaks ties by taking the entry pushed first, and `Examine` and `TimerTurn` use that concrete choice, but no proved property depends on the tie-break.

Facts about the code that the model keeps:

- `mException` is never cleared (`src/main.cpp:166-169`), so every `ReturnResult` rethrows it again (`Promises.ThrowThenTake`).
- A second `ReturnResult` after a value was taken reads a destroyed slot (`src/main.cpp:41-45`); the model gives `Undefined` (`Promises.ReturnThenTake`).
- `runAll` returns only when both the deque and the heap are empty (`src/main.cpp:290`), whatever happened to any particular task (`Scheduler.RunAll`).
- `addTask` is `push_front` and `runAll` takes the front (`src/main.cpp:283`, `src/main.cpp:293-294`), so the ready deque is last-in, first-out (`Scheduler.LifoOrder`).
- The comment at `src/main.cpp:298` calls the heap's top the entry with the latest time. Because `operator<` compares with `>`, the top is in fact an entry with the earliest expiry (`Timers.TopIsEarliest`).

## Model

| member | source | states |
|---|---|---|
| `Cell.PutValue` | src/main.cpp:47-56 | `putValue(v)` leaves the slot constructed and holding `v`, whatever it held before |
| `Cell.MoveValue` | src/main.cpp:41-45 | a value comes out exactly when the slot was constructed. It is the stored value, and the slot is left unconstructed |
| `Cell.PutThenMove` | src/main.cpp:41-56 | `putValue(v)` then `moveValue()` returns `v` and leaves the slot unconstructed again |
| `Cell.TakesBounded` | src/main.cpp:28-38 | the one-slot union never yields more values than were put into it, plus the one it started with |
| `Cell.AlternatingReturnsAll` | src/main.cpp:41-56 | if puts and takes alternate from an empty slot, every value put comes back, in order, and the slot ends empty |
| `Cell.ReturnsAllAlternates` | src/oldmain.cpp:65-86 | if every value put comes back in order from an empty slot, puts and takes alternated: a second store before a take loses a value, and a take before a store is undefined |
| `Cell.RoundTripIffAlternates` | src/oldmain.cpp:65-76 | the cell returns everything stored, in order, exactly when at most one store precedes each take (both directions) |
| `Cell.RunVoidOps` | src/main.cpp:59-66 | the `void` cell ignores puts, and every take yields the unit placeholder, whatever the order of uses |
| `Awaiters.AwaitReady` | src/main.cpp:102-135 | no awaiter of the runtime is ever ready, so every `co_await` suspends |
| `Awaiters.AwaitSuspend` | src/main.cpp:102-135 | where each awaiter sends control after suspending frame `h`: back to the resumer for `suspend_always`, for the `void` `SleepAwaiter::await_suspend` and for a finished frame under `RepeatAwaiter`; into `h` for `RepeatAwaiter` otherwise; to `mPrevious` (or the resumer when it is null) for `PreviousAwaiter`; into the awaited frame for `Task::Awaiter` |
| `Awaiters.PreviousSuspend` | src/main.cpp:125-132 | `PreviousAwaiter` transfers to `mPrevious` exactly when it is set, and to `noop` otherwise |
| `Promises.InitialSuspend` | src/main.cpp:142-144 | the initial awaiter is never ready, registers no timer, and its suspension hands control back to the caller for every frame, so the body does not start |
| `Promises.FinalSuspend` | src/main.cpp:146-148 | the final awaiter is a `PreviousAwaiter` carrying the promise's `mPrevious`, so it transfers to the continuation when there is one and to `noop` otherwise |
| `Promises.UnhandledException` | src/main.cpp:153-155 | the captured exception is recorded; the continuation and the result slot are left alone |
| `Promises.ReturnValue` | src/main.cpp:157-164 | `return_value(v)` constructs `v` in the result slot; the continuation and any captured exception are left alone |
| `Promises.YieldValue` | src/oldmain.cpp:65-72 | `yield_value` constructs the value in the slot and always suspends |
| `Promises.ReturnResult` | src/main.cpp:166-171 | a captured exception is rethrown and the promise is left as it was. Otherwise the stored value is returned and the slot is emptied. It is undefined exactly when there is neither |
| `Promises.ReturnResultVoid` | src/main.cpp:205-209 | the `void` result rethrows exactly the captured exception, otherwise returns normally, and is never undefined |
| `Promises.ReturnThenTake` | src/oldmain.cpp:74-86 | returning `v` and then taking gives back exactly `v` and destroys the slot, so a second take is undefined |
| `Promises.ThrowThenTake` | src/main.cpp:198-209 | a captured exception wins over any stored value, is rethrown again on a second take, and the value slot is not touched |
| `Frames.Create` | src/main.cpp:142-144 | a new frame is left suspended at its initial point, because the initial awaiter's decision is to hand control back; it has a fresh promise, and no other frame changes |
| `Frames.AwaitTask` | src/main.cpp:242-245 | `await_suspend(h)` sets the awaited promise's `mPrevious` to `h`, returns the awaited handle, and changes nothing else |
| `Frames.AwaitResume` | src/main.cpp:247-249 | `await_resume` is the awaited promise's `ReturnResult`. It changes no frame's status and no other frame |
| `Frames.AwaitResumeVoid` | src/oldmain.cpp:124-128 | awaiting a `void` task rethrows exactly its captured exception, otherwise returns normally |
| `Frames.Finish` | src/main.cpp:120-148 | on completion the frame is done and records its value or exception. Control goes to `mPrevious` when it is set, else to `noop` |
| `Frames.RepeatSuspend` | src/main.cpp:108-113 | `RepeatAwaiter` returns `noop` exactly when the frame is done, and otherwise the frame itself |
| `Frames.RepeatResumesSuspended` | src/main.cpp:108-113 | on a frame that has just suspended, `RepeatAwaiter` re-enters it and the store is back to what it was before the suspension; on a frame that has just finished it hands control back |
| `Frames.CoAwait` | src/oldmain.cpp:159-165 | awaiting a task suspends the awaiter, records it as the task's continuation, and runs the task. At most one frame still runs |
| `Frames.Complete` | src/oldmain.cpp:28-56 | a finishing frame hands control to its continuation, which then is the only running frame, or to nobody |
| `Frames.AwaitToCompletion` | src/main.cpp:239-252 | awaiting a fresh task that ends with `co_return v` or an exception gives the awaiter exactly `v` or that exception. The task's slot is emptied and control is back with the awaiter |
| `Frames.AwaitVoidToCompletion` | src/oldmain.cpp:159-172 | awaiting a fresh `void` task returns normally exactly when the task did, and otherwise rethrows its exception |
| `Timers.TopIsEarliest` | src/main.cpp:275-280 | because `operator<` compares with `>`, the max-heap's top is exactly an entry with the earliest expiry |
| `Timers.Top` | src/oldmain.cpp:195-200 | the chosen entry is a top in the sense `priority_queue` promises |
| `Timers.Push` | src/main.cpp:286-288 | `push` adds exactly one entry to the heap and removes none |
| `Timers.Pop` | src/main.cpp:301-303 | popping removes the top entry and nothing else |
| `Timers.PopAllSortedPermutation` | src/oldmain.cpp:189-200 | popping the heap until it is empty yields every entry exactly once, earliest expiry first |
| `Scheduler.AddTask` | src/main.cpp:282-284 | `addTask(h)` puts `h` at the front of the deque, keeps the rest in order behind it, and leaves the heap alone |
| `Scheduler.AddTimer` | src/oldmain.cpp:206-208 | `addTimer` adds exactly one entry to the heap and leaves the deque alone |
| `Scheduler.AddTasks` | src/oldmain.cpp:202-204 | successive `addTask` calls leave the deque holding the handles in reverse order of addition, in front of what was there |
| `Scheduler.DrainReady` | src/main.cpp:291-296 | the inner loop leaves the deque empty and reads no clock. If resumed code adds no timers, the heap is untouched. It ends only because the model's resumed code stops registering tasks (see "## Left out") |
| `Scheduler.Examine` | src/main.cpp:299-308 | the top entry is popped exactly when its expiry is strictly before `now`. Otherwise nothing is removed and the loop sleeps until that expiry, so an expiry equal to `now` waits |
| `Scheduler.WakeAt` | src/main.cpp:306 | after `this_thread::sleep_until(t)` the next reading is at least `t`; only readings before `t` go by, and they are a prefix |
| `Scheduler.TimerTurn` | src/oldmain.cpp:219-228 | a turn is taken only on a drained loop. It reads the clock once and either resumes the top entry, or sleeps until the top's expiry with the loop unchanged |
| `Scheduler.RunAll` | src/main.cpp:289-310 | the run ends exactly when both the deque and the heap are empty. A timer runs only after the clock has passed its expiry, and a sleep happens only before it |
| `Scheduler.SleepSuspend` | src/main.cpp:328-330 | `SleepAwaiter::await_suspend` registers exactly one timer entry for the suspended frame and returns control to the resumer |
| `Scheduler.SleepUntil` | src/main.cpp:339-342 | `sleep_until(t)` awaits a `SleepAwaiter` whose expiry is exactly `t`, and it is never ready |
| `Scheduler.SleepFor` | src/main.cpp:345-349 | `sleep_for(d)` awaits a `SleepAwaiter` whose expiry is the clock reading taken when the `sleep_for` task first runs, plus `d`, fixed once. The call itself runs none of the body, because the initial suspend holds it back |
| `Scheduler.SleepTaskSuspend` | src/main.cpp:323-336 | a sleeping frame always suspends and adds exactly one timer entry. The deque is untouched and no frame runs afterwards |
| `Scheduler.AwaitSleeper` | src/main.cpp:323-349 | `co_await sleep_for(d)` / `sleep_until(t)` from a running frame: the sleeper task suspends with exactly one timer entry registered and the deque untouched. Once the loop resumes it and it ends, the awaiter runs again, alone, and observes exactly how the sleeper ended |
| `Scheduler.DrainInOrder` | src/oldmain.cpp:209-216 | when resumed code adds no tasks (it may register timers, as a sleeping task does), the deque is resumed from front to back |
| `Scheduler.LifoOrder` | src/main.cpp:282-296 | tasks added in order `hs` are resumed in the reverse of that order, whatever timers they register |
| `Scheduler.LastAddedRunsFirst` | src/oldmain.cpp:286-290 | adding `t1` then `t2` resumes `t2` before `t1`, whatever timers the two register |
| `Scheduler.RunAfterDrain` | src/main.cpp:290-299 | a run is its first drain followed by a run from the drained loop, with the same verdict, so the timer lemmas apply to timers registered during that drain |
| `Scheduler.MainRun` | src/oldmain.cpp:246-290 | the earlier `main`: `hello2` is resumed before `hello1`, each registers its `sleep_for` timer, and once the clock gets past both expiries the run finishes after resuming each sleeper exactly once, the earlier expiry first |
| `Scheduler.FiredInExpiryOrder` | src/main.cpp:297-308 | if resumed code adds no timers, timers are resumed earliest expiry first, each at most as often as it was queued |
| `Scheduler.DrainBeforeTimers` | src/main.cpp:290-299 | when resumed code adds no tasks, every task queued at the start is resumed, front to back, before the heap is first examined |
| `Scheduler.SleepsHonoured` | src/main.cpp:297-308 | in every run, a sleep until `t` is followed directly by another clock reading, and that reading is at least `t` |
| `Scheduler.QuietRunFiresAll` | src/oldmain.cpp:209-230 | if resumed code registers nothing, every expiry is at or before `b`, and the clock gets past `b` at least once per timer, the run finishes and resumes every queued timer exactly once. Readings up to `b` may make it sleep, including a reading equal to an expiry |
| `Scheduler.QuietAfterDrain` | src/main.cpp:290-308 | if resumed code registers nothing once the first drain is over, the drained heap's expiries are at or before `b`, and the clock gets past `b` once per timer, the run finishes, resumes exactly the timers in the drained heap, and resumes them earliest expiry first |

## Left out

- Real time: `system_clock::now()` and `this_thread::sleep_until` are replaced by the environment's clock readings. A sleep skips readings before its target; how long it takes is not modelled.
- Coroutine bodies: what a body does between a resumption and its next suspension is an input. `runAll` takes it as the effects list; `Frames` leaves the body out.
- `when_all` / `when_any`: `src/main.cpp` has only the fields of `WhenAllCtlBlock`. It calls a `when_any` that is never defined and a `promise().result()` that does not exist, so there is no behaviour to model.
- The `Awaiter` / `Awaitable` concepts, `AwaitableTraits` and the const/reference specialisations of `Uninitialized` are compile-time type machinery with no runtime behaviour.
- Frame allocation and destruction (`Task::~Task`, `destroy()`) are not modelled. Neither are the internals of `std::exception_ptr`, which is an opaque identity here.
- `getLoop()`: the loop state is passed explicitly instead of being a process-wide singleton.
- `hello*`, `main` and `debug()` printing are demo code. The earlier `main`'s run is kept as `Scheduler.MainRun`: its environment (`Scheduler.MainEnv`) records the timer each `hello` registers through `sleep_for`. The values the tasks return and print are not modelled.
- Timers.Top: breaks ties between equal expiries by taking the entry pushed first. `priority_queue` fixes no tie-break. `Examine` and `TimerTurn` use this concrete choice, but no proved property depends on the tie-break.
- Frames.Resume: resuming a frame that is running or done is undefined behaviour in C++. The model requires a resumable frame instead of giving that case an outcome.
- Frames.Transfer: requires the target of a transfer to be resumable, for the same reason.
- Frames.CoAwait: requires the awaited frame to be resumable, for the same reason.
- Frames.Complete: requires the continuation to be resumable, for the same reason.
- Frames.Create: one store holds frames of a single result type `T`. A `Task<void>` awaited by a `Task<int>` is a frame whose slot stays unused, and a `Task<int>` awaiting a `Task<string>` cannot be represented.
- Scheduler.DrainReady: the real inner loop ends only if resumed code eventually stops calling `addTask`; a task that re-queues itself forever starves the heap. The model's effects list is finite and resumed code registers nothing once it is used up, so the model's drain always ends.
- Scheduler.RunAll: stops unfinished when the clock readings run out. The real loop would keep sleeping and reading the clock; the model does not follow it past the last reading.
- Scheduler.FiredInExpiryOrder: states the ordering only for runs in which resumed code registers no new timers. A timer registered during the run with an expiry in the past would be resumed out of order. Through `Scheduler.RunAfterDrain` it also covers timers registered during the first drain, as in `Scheduler.MainRun`.
- Scheduler.QuietRunFiresAll: states progress only for runs in which resumed code registers nothing after the first drain (through `Scheduler.RunAfterDrain`). Because the clock is a finite list, it also needs one reading past `b` for each timer; the real clock never runs out of readings.
- Scheduler.DrainBeforeTimers: states the drain order only for runs in which resumed code adds no tasks; registering timers is allowed. `TimerTurn` requires an empty deque, so every run drains before it examines the heap.
