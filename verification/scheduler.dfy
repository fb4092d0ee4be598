/** `Loop`: a ready deque of handles and a timer heap, driven by `runAll`;
    and `SleepAwaiter`, which parks a frame in the heap.

    The clock and the coroutines' bodies are outside the model. `runAll`
    reads them through an environment: `clock` lists the successive values
    `system_clock::now()` can return when the loop asks, and `effects` lists,
    for the successive `resume()` calls, the tasks and timers the resumed
    code registered before control came back to the loop (once the list is
    used up, resumed code registers nothing). `this_thread::sleep_until(t)`
    returns only once the clock has reached `t`, so the readings before `t`
    go by while the loop sleeps. */
module Scheduler {
  import opened Base
  import opened Awaiters
  import opened Promises
  import opened Frames
  import opened Timers

  datatype Loop = Loop(ready: seq<Handle>, timers: seq<TimerEntry>)

  function Reverse<X>(s: seq<X>): (r: seq<X>)
    ensures |r| == |s|
    decreases |s|
  {
    if |s| == 0 then [] else Reverse(s[1..]) + [s[0]]
  }

  /** `addTask`: `push_front` onto the ready deque. */
  function AddTask(l: Loop, h: Handle): (r: Loop)
    ensures r.ready == [h] + l.ready
    ensures r.timers == l.timers
  {
    l.(ready := [h] + l.ready)
  }

  /** `addTimer`: pushes exactly one entry onto the heap. */
  function AddTimer(l: Loop, expireTime: int, h: Handle): (r: Loop)
    ensures r.ready == l.ready
    ensures multiset(r.timers) == multiset(l.timers) + multiset{TimerEntry(expireTime, h)}
  {
    l.(timers := Push(l.timers, TimerEntry(expireTime, h)))
  }

  /** `addTask` for each of `hs` in turn: the last one added is at the front. */
  function AddTasks(l: Loop, hs: seq<Handle>): (r: Loop)
    ensures r.ready == Reverse(hs) + l.ready
    ensures r.timers == l.timers
    decreases |hs|
  {
    if |hs| == 0 then l
    else
      var r := AddTasks(AddTask(l, hs[0]), hs[1..]);
      assert Reverse(hs) + l.ready == Reverse(hs[1..]) + ([hs[0]] + l.ready);
      r
  }

  /** `addTimer` for each of `ts` in turn. */
  function AddTimers(l: Loop, ts: seq<TimerEntry>): (r: Loop)
    ensures r.ready == l.ready
    ensures r.timers == l.timers + ts
    decreases |ts|
  {
    if |ts| == 0 then l
    else
      var r := AddTimers(AddTimer(l, ts[0].expireTime, ts[0].coroutine), ts[1..]);
      assert l.timers + [ts[0]] + ts[1..] == l.timers + ts;
      r
  }

  /** What one resumed coroutine registered with the loop. */
  datatype Effect = Effect(tasks: seq<Handle>, timers: seq<TimerEntry>)

  const Quiet: Effect := Effect([], [])

  function Register(l: Loop, e: Effect): (r: Loop)
    ensures r.ready == Reverse(e.tasks) + l.ready
    ensures r.timers == l.timers + e.timers
  {
    AddTimers(AddTasks(l, e.tasks), e.timers)
  }

  datatype Env = Env(effects: seq<Effect>, clock: seq<int>)

  /** The effect of the next `resume()`. */
  function NextEffect(env: Env): (r: (Effect, Env))
    ensures r.1.clock == env.clock
    ensures |env.effects| == 0 ==> r.0 == Quiet && r.1 == env
    ensures |env.effects| > 0 ==> r.0 == env.effects[0] && r.1.effects == env.effects[1..]
  {
    if |env.effects| == 0 then (Quiet, env)
    else (env.effects[0], env.(effects := env.effects[1..]))
  }

  predicate NoNewTasks(effects: seq<Effect>)
  {
    forall i :: 0 <= i < |effects| ==> effects[i].tasks == []
  }

  predicate NoNewTimers(effects: seq<Effect>)
  {
    forall i :: 0 <= i < |effects| ==> effects[i].timers == []
  }

  /** What `runAll` did, in order. */
  datatype Event =
    | RanReady(h: Handle)                   // popped from the ready deque and resumed
    | RanTimer(entry: TimerEntry, now: int) // popped from the heap (clock read `now`) and resumed
    | Slept(now: int, until: int)           // clock read `now`; slept until the top's expiry

  predicate AllReady(trace: seq<Event>)
  {
    forall i :: 0 <= i < |trace| ==> trace[i].RanReady?
  }

  datatype Progress = Progress(loop: Loop, env: Env, trace: seq<Event>)

  /** The inner `while (!mReadyQueue.empty())`: pop the front, resume it,
      apply what it registered; until the deque is empty. */
  function DrainReady(l: Loop, env: Env): (r: Progress)
    ensures r.loop.ready == []
    ensures r.env.clock == env.clock
    ensures AllReady(r.trace)
    ensures NoNewTimers(env.effects) ==> r.loop.timers == l.timers && NoNewTimers(r.env.effects)
    ensures env.effects == [] ==> r.env == env
    decreases |env.effects|, |l.ready|
  {
    if |l.ready| == 0 then Progress(l, env, [])
    else
      var h := l.ready[0];
      var (e, env1) := NextEffect(env);
      var l1 := Register(l.(ready := l.ready[1..]), e);
      var rest := DrainReady(l1, env1);
      Progress(rest.loop, rest.env, [RanReady(h)] + rest.trace)
  }

  /** The clock readings left once `this_thread::sleep_until(t)` returns: the leading
      readings before `t` pass while the loop sleeps. */
  function WakeAt(clock: seq<int>, t: int): (r: seq<int>)
    ensures |r| <= |clock| && r == clock[|clock| - |r|..]
    ensures |r| > 0 ==> t <= r[0]
    ensures forall i :: 0 <= i < |clock| - |r| ==> clock[i] < t
    decreases |clock|
  {
    if |clock| == 0 || t <= clock[0] then clock else WakeAt(clock[1..], t)
  }

  /** What the loop does with a non-empty heap after reading the clock. */
  datatype TimerStep = Fire(entry: TimerEntry) | Wait(until: int)

  /** The `if (!mTimerHeap.empty())` block after reading `now`: the top entry
      is popped for resumption only if it expired strictly before `now`;
      otherwise nothing is removed and the loop sleeps until its expiry. */
  function Examine(l: Loop, now: int): (r: (Loop, TimerStep))
    requires |l.timers| > 0
    ensures r.1.Fire? <==> Top(l.timers).expireTime < now
    ensures r.1.Fire? ==> r.1.entry == Top(l.timers) && Earliest(r.1.entry, l.timers)
    ensures r.1.Fire? ==> r.0.ready == l.ready && r.0.timers == Pop(l.timers)
    ensures r.1.Fire? ==> multiset(r.0.timers) == multiset(l.timers) - multiset{r.1.entry}
    ensures r.1.Wait? ==> r.0 == l && r.1.until == Top(l.timers).expireTime && now <= r.1.until
  {
    var timer := Top(l.timers);
    if timer.expireTime < now then (l.(timers := Pop(l.timers)), Fire(timer))
    else (l, Wait(timer.expireTime))
  }

  /** The loop honoured the strict comparison: a timer ran only once the
      clock had passed its expiry, and it slept only when it had not. */
  predicate Due(ev: Event)
  {
    match ev
    case RanReady(_) => true
    case RanTimer(e, now) => e.expireTime < now
    case Slept(now, until) => now <= until
  }

  predicate AllDue(trace: seq<Event>)
  {
    forall i :: 0 <= i < |trace| ==> Due(trace[i])
  }

  /** The timer half of one iteration of `runAll`'s outer loop, on a
      drained loop with a non-empty heap: read the clock once, then resume
      the top entry (applying what it registered) or sleep until its expiry. */
  function TimerTurn(p: Progress): (r: Progress)
    requires p.loop.ready == [] && |p.loop.timers| > 0 && |p.env.clock| > 0
    ensures |r.trace| == 1 && Due(r.trace[0]) && !r.trace[0].RanReady?
    ensures |r.env.clock| < |p.env.clock|
    ensures r.trace[0].now == p.env.clock[0]
    ensures r.trace[0].RanTimer? ==> r.trace[0].entry == Top(p.loop.timers)
    ensures r.trace[0].RanTimer? ==> r.env.clock == p.env.clock[1..]
    ensures r.trace[0].Slept? ==> r.loop == p.loop && r.env.effects == p.env.effects
    ensures r.trace[0].Slept? ==> r.env.clock == WakeAt(p.env.clock[1..], r.trace[0].until)
    ensures NoNewTimers(p.env.effects) ==> NoNewTimers(r.env.effects)
    ensures NoNewTimers(p.env.effects) && r.trace[0].RanTimer? ==> r.loop.timers == Pop(p.loop.timers)
    ensures p.env.effects == [] ==> r.env.effects == []
  {
    var now := p.env.clock[0];
    var env1 := p.env.(clock := p.env.clock[1..]);
    var (l1, step) := Examine(p.loop, now);
    match step
    case Fire(t) =>
      var (e, env2) := NextEffect(env1);
      Progress(Register(l1, e), env2, [RanTimer(t, now)])
    case Wait(until) =>
      Progress(l1, env1.(clock := WakeAt(env1.clock, until)), [Slept(now, until)])
  }

  datatype RunResult = RunResult(loop: Loop, env: Env, trace: seq<Event>, finished: bool)

  /** `runAll`: while the heap or the deque is non-empty, drain the deque,
      then examine the heap's top. The model stops early, unfinished, only
      when the environment has no more clock readings. */
  function RunAll(l: Loop, env: Env): (r: RunResult)
    ensures r.finished <==> r.loop.ready == [] && r.loop.timers == []
    ensures !r.finished ==> r.env.clock == []
    ensures AllDue(r.trace)
    decreases |env.clock|
  {
    if |l.ready| == 0 && |l.timers| == 0 then RunResult(l, env, [], true)
    else
      var d := DrainReady(l, env);
      AllDueJoin(d.trace, [], []);
      assert d.trace + [] + [] == d.trace;
      if |d.loop.timers| == 0 then RunResult(d.loop, d.env, d.trace, true)
      else if |d.env.clock| == 0 then RunResult(d.loop, d.env, d.trace, false)
      else
        var t := TimerTurn(d);
        var rest := RunAll(t.loop, t.env);
        AllDueJoin(d.trace, t.trace, rest.trace);
        RunResult(rest.loop, rest.env, d.trace + t.trace + rest.trace, rest.finished)
  }

  /** A drain followed by one timer turn and the rest of a run keeps every
      event due. */
  lemma AllDueJoin(d: seq<Event>, ev: seq<Event>, rest: seq<Event>)
    requires AllReady(d) && AllDue(ev) && AllDue(rest)
    ensures AllDue(d + ev + rest)
  {
    var s := d + ev + rest;
    forall i | 0 <= i < |s|
      ensures Due(s[i])
    {
      if i < |d| {
        assert s[i] == d[i];
      } else if i < |d| + |ev| {
        assert s[i] == ev[i - |d|];
      } else {
        assert s[i] == rest[i - |d| - |ev|];
      }
    }
  }

  /** One iteration of `runAll`'s outer loop that reaches the heap: the
      drain, one timer turn, then the rest of the run. */
  lemma RunAllStep(l: Loop, env: Env)
    requires |l.ready| > 0 || |l.timers| > 0
    requires |DrainReady(l, env).loop.timers| > 0 && |DrainReady(l, env).env.clock| > 0
    ensures var d := DrainReady(l, env);
            var t := TimerTurn(d);
            var rest := RunAll(t.loop, t.env);
            RunAll(l, env) == RunResult(rest.loop, rest.env, d.trace + t.trace + rest.trace, rest.finished)
  {
  }

  /** An iteration of `runAll`'s outer loop that stops after the drain. */
  lemma RunAllStop(l: Loop, env: Env)
    requires |l.ready| > 0 || |l.timers| > 0
    requires |DrainReady(l, env).loop.timers| == 0 || |DrainReady(l, env).env.clock| == 0
    ensures RunAll(l, env).trace == DrainReady(l, env).trace
    ensures RunAll(l, env).finished <==> |DrainReady(l, env).loop.timers| == 0
  {
  }

  /** `SleepAwaiter::await_suspend(h)`: registers exactly one timer entry for
      `h`; returning `void`, it hands control back to the resumer. */
  function SleepSuspend(l: Loop, expireTime: int, h: Handle): (r: (Loop, Next))
    ensures r.0.ready == l.ready
    ensures multiset(r.0.timers) == multiset(l.timers) + multiset{TimerEntry(expireTime, h)}
    ensures r.1 == Noop
  {
    (AddTimer(l, expireTime, h), Noop)
  }

  /** The awaiter of `sleep_until(t)`. */
  function SleepUntil(t: int): (a: Awaiter)
    ensures a.Sleep? && a.expireTime == t && !AwaitReady(a)
  {
    Sleep(t)
  }

  /** The awaiter of `sleep_for(d)`, where `now` is the clock reading its
      body takes when the task first runs (not when it is called: the
      initial suspend holds the body back). The expiry is fixed once, from
      that reading. */
  function SleepFor(now: int, d: int): (a: Awaiter)
    ensures a.Sleep? && a.expireTime == now + d && !AwaitReady(a)
  {
    SleepUntil(now + d)
  }

  /** The running `sleep_until` / `sleep_for` frame `h` reaches
      `co_await SleepAwaiter`: it always suspends, exactly one timer entry is
      registered for it, the deque is untouched, and control returns to the
      loop with no frame running. */
  function SleepTaskSuspend<T>(s: Store<T>, l: Loop, h: Handle, a: Awaiter): (r: (Store<T>, Loop))
    requires h in s && s[h].status == Running && a.Sleep?
    ensures r.0.Keys == s.Keys && r.0[h].status == Suspended
    ensures forall k :: k in s && k != h ==> r.0[k] == s[k]
    ensures r.1.ready == l.ready
    ensures multiset(r.1.timers) == multiset(l.timers) + multiset{TimerEntry(a.expireTime, h)}
    ensures OneRunning(s) ==> NoneRunning(r.0)
  {
    var s1 := if AwaitReady(a) then s else Suspend(s, h);
    var (l1, n) := SleepSuspend(l, a.expireTime, h);
    (Transfer(s1, n), l1)
  }

  /** `co_await sleep_for(d)` / `co_await sleep_until(t)` from running frame
      `h`, as the runtime performs it: `h` enters the fresh sleeper task
      `callee`, which suspends at its `SleepAwaiter` with one timer entry
      registered and control back at the loop; later the loop resumes
      `callee`, whose body ends with `e`; its final suspend transfers back to
      `h`, whose `await_resume` observes exactly that ending. */
  function AwaitSleeper<T>(s: Store<T>, l: Loop, h: Handle, callee: Handle, a: Awaiter, e: Ending<T>): (r: (Outcome<Unit>, Store<T>, Loop))
    requires h in s && s[h].status == Running && OneRunning(s)
    requires callee in s && callee != h
    requires s[callee].status == NotStarted && s[callee].promise == NewPromise()
    requires a.Sleep? && !e.Returned?
    ensures r.0 == ExpectedVoid(e)
    ensures r.1.Keys == s.Keys
    ensures r.1[h].status == Running && r.1[callee].status == Done && OneRunning(r.1)
    ensures forall k :: k in s && k != h && k != callee ==> r.1[k] == s[k]
    ensures r.2.ready == l.ready
    ensures multiset(r.2.timers) == multiset(l.timers) + multiset{TimerEntry(a.expireTime, callee)}
  {
    var s1 := CoAwait(s, h, callee);
    var (s2, l2) := SleepTaskSuspend(s1, l, callee, a);
    assert s2[callee].promise.previous == Some(h) && s2[h].status == Suspended;
    var s3 := Resume(s2, callee);
    assert OneRunning(s3);
    var s4 := Complete(s3, callee, e);
    (AwaitResumeVoid(s4, callee), s4, l2)
  }

  function Ran(hs: seq<Handle>): (r: seq<Event>)
    ensures |r| == |hs|
    ensures forall i :: 0 <= i < |hs| ==> r[i] == RanReady(hs[i])
    decreases |hs|
  {
    if |hs| == 0 then [] else [RanReady(hs[0])] + Ran(hs[1..])
  }

  /** When resumed code adds no tasks (it may still register timers, as a
      sleeping task does), the deque is resumed front to back. */
  lemma {:induction false} DrainInOrder(l: Loop, env: Env)
    requires NoNewTasks(env.effects)
    ensures DrainReady(l, env).trace == Ran(l.ready)
    decreases |env.effects|, |l.ready|
  {
    if |l.ready| > 0 {
      var (e, env1) := NextEffect(env);
      assert e.tasks == [];
      var l1 := Register(l.(ready := l.ready[1..]), e);
      assert l1.ready == l.ready[1..];
      assert NoNewTasks(env1.effects) by {
        forall i | 0 <= i < |env1.effects|
          ensures env1.effects[i].tasks == []
        {
          assert env1.effects[i] == env.effects[i + 1];
        }
      }
      DrainInOrder(l1, env1);
    }
  }

  /** `addTask` is `push_front` and `runAll` pops from the front, so tasks
      added in order `hs` are resumed in reverse order. */
  lemma LifoOrder(hs: seq<Handle>, timers: seq<TimerEntry>, env: Env)
    requires NoNewTasks(env.effects)
    ensures DrainReady(AddTasks(Loop([], timers), hs), env).trace == Ran(Reverse(hs))
  {
    DrainInOrder(AddTasks(Loop([], timers), hs), env);
  }

  /** Adding `t1` then `t2` runs `t2` first, whatever timers the two
      register when they are resumed. */
  lemma LastAddedRunsFirst(t1: Handle, t2: Handle, env: Env)
    requires NoNewTasks(env.effects)
    ensures DrainReady(AddTask(AddTask(Loop([], []), t1), t2), env).trace
            == [RanReady(t2), RanReady(t1)]
  {
    DrainInOrder(AddTask(AddTask(Loop([], []), t1), t2), env);
  }

  /** The timer entries `runAll` popped and resumed, in order. */
  function Fired(trace: seq<Event>): seq<TimerEntry>
    decreases |trace|
  {
    if |trace| == 0 then []
    else (if trace[0].RanTimer? then [trace[0].entry] else []) + Fired(trace[1..])
  }

  lemma {:induction false} FiredAppend(a: seq<Event>, b: seq<Event>)
    ensures Fired(a + b) == Fired(a) + Fired(b)
    decreases |a|
  {
    if |a| == 0 {
      assert a + b == b;
    } else {
      assert (a + b)[0] == a[0];
      assert (a + b)[1..] == a[1..] + b;
      FiredAppend(a[1..], b);
      var h := if a[0].RanTimer? then [a[0].entry] else [];
      assert Fired(a + b) == h + (Fired(a[1..]) + Fired(b));
      assert Fired(a) == h + Fired(a[1..]);
    }
  }

  lemma {:induction false} FiredReadyOnly(trace: seq<Event>)
    requires AllReady(trace)
    ensures Fired(trace) == []
    decreases |trace|
  {
    if |trace| > 0 {
      FiredReadyOnly(trace[1..]);
    }
  }

  lemma FiredSingle(ev: seq<Event>)
    requires |ev| == 1
    ensures ev[0].RanTimer? ==> Fired(ev) == [ev[0].entry]
    ensures !ev[0].RanTimer? ==> Fired(ev) == []
  {
    assert ev[1..] == [];
  }

  lemma FiredOfStep(d: seq<Event>, ev: seq<Event>, rest: seq<Event>)
    requires AllReady(d)
    ensures Fired(d + ev + rest) == Fired(ev) + Fired(rest)
  {
    FiredAppend(d + ev, rest);
    FiredAppend(d, ev);
    FiredReadyOnly(d);
  }

  lemma TopBelowPopped(heap: seq<TimerEntry>, x: TimerEntry)
    requires |heap| > 0 && x in multiset(Pop(heap))
    ensures Top(heap).expireTime <= x.expireTime
  {
    assert x in multiset(heap);
    assert x in heap;
  }

  /** Prefixing the heap's top to entries taken from the rest of the heap
      keeps them sorted and within the heap. */
  lemma PrependTop(heap: seq<TimerEntry>, fr: seq<TimerEntry>)
    requires |heap| > 0
    requires SortedByExpiry(fr) && multiset(fr) <= multiset(Pop(heap))
    ensures SortedByExpiry([Top(heap)] + fr)
    ensures multiset([Top(heap)] + fr) <= multiset(heap)
  {
    var top := Top(heap);
    forall x | x in fr
      ensures top.expireTime <= x.expireTime
    {
      assert x in multiset(fr);
      TopBelowPopped(heap, x);
    }
    SortedCons(top, fr);
    assert top in heap;
    assert multiset([top] + fr) == multiset{top} + multiset(fr);
  }

  /** One timer turn without new timers puts the entry it fires, if any,
      in front of a sorted run of entries taken from what it leaves. */
  lemma OrderedTurn(p: Progress, fr: seq<TimerEntry>)
    requires p.loop.ready == [] && |p.loop.timers| > 0 && |p.env.clock| > 0
    requires NoNewTimers(p.env.effects)
    requires SortedByExpiry(fr) && multiset(fr) <= multiset(TimerTurn(p).loop.timers)
    ensures SortedByExpiry(Fired(TimerTurn(p).trace) + fr)
    ensures multiset(Fired(TimerTurn(p).trace) + fr) <= multiset(p.loop.timers)
  {
    var t := TimerTurn(p);
    FiredSingle(t.trace);
    if t.trace[0].RanTimer? {
      assert t.loop.timers == Pop(p.loop.timers);
      PrependTop(p.loop.timers, fr);
    } else {
      assert Fired(t.trace) + fr == fr;
    }
  }

  /** When resumed code registers no new timers, `runAll` resumes timers in
      order of expiry, each at most as often as it was in the heap. */
  lemma {:induction false} FiredInExpiryOrder(l: Loop, env: Env)
    requires NoNewTimers(env.effects)
    ensures SortedByExpiry(Fired(RunAll(l, env).trace))
    ensures multiset(Fired(RunAll(l, env).trace)) <= multiset(l.timers)
    decreases |env.clock|
  {
    if |l.ready| == 0 && |l.timers| == 0 {
    } else {
      var d := DrainReady(l, env);
      if |d.loop.timers| == 0 || |d.env.clock| == 0 {
        RunAllStop(l, env);
        FiredReadyOnly(d.trace);
      } else {
        var t := TimerTurn(d);
        var rest := RunAll(t.loop, t.env);
        RunAllStep(l, env);
        FiredInExpiryOrder(t.loop, t.env);
        FiredOfStep(d.trace, t.trace, rest.trace);
        OrderedTurn(d, Fired(rest.trace));
      }
    }
  }

  /** `sleep_until` keeps its promise: after sleeping until `t`, the next
      thing the loop does is read the clock again, and that reading is at
      least `t`. */
  predicate WokeAfter(trace: seq<Event>)
  {
    forall i :: 0 <= i < |trace| - 1 && trace[i].Slept? ==>
      !trace[i + 1].RanReady? && trace[i].until <= trace[i + 1].now
  }

  /** On a drained loop the first thing `runAll` does is read the clock. */
  lemma FirstReading(l: Loop, env: Env)
    requires l.ready == []
    ensures |RunAll(l, env).trace| > 0 ==>
              !RunAll(l, env).trace[0].RanReady? && RunAll(l, env).trace[0].now == env.clock[0]
  {
    if |l.timers| > 0 && |env.clock| > 0 {
      var d := DrainReady(l, env);
      assert d == Progress(l, env, []);
      var t := TimerTurn(d);
      assert RunAll(l, env).trace == [] + t.trace + RunAll(t.loop, t.env).trace;
    }
  }

  lemma WokeAfterStep(d: seq<Event>, ev: seq<Event>, rest: seq<Event>)
    requires AllReady(d) && |ev| == 1 && !ev[0].RanReady? && WokeAfter(rest)
    requires ev[0].Slept? && |rest| > 0 ==> !rest[0].RanReady? && ev[0].until <= rest[0].now
    ensures WokeAfter(d + ev + rest)
  {
    var s := d + ev + rest;
    forall i | 0 <= i < |s| - 1 && s[i].Slept?
      ensures !s[i + 1].RanReady? && s[i].until <= s[i + 1].now
    {
      if i < |d| {
        assert false;
      } else if i == |d| {
        assert s[i] == ev[0] && s[i + 1] == rest[0];
      } else {
        assert s[i] == rest[i - |d| - 1] && s[i + 1] == rest[i - |d|];
      }
    }
  }

  /** A trace of resumed queue tasks makes no sleep. */
  lemma ReadyOnlyWoke(trace: seq<Event>)
    requires AllReady(trace)
    ensures WokeAfter(trace)
  {
    forall i | 0 <= i < |trace| - 1 && trace[i].Slept?
      ensures false
    {
    }
  }

  /** Every run honours the sleeps it makes. */
  lemma {:induction false} SleepsHonoured(l: Loop, env: Env)
    ensures WokeAfter(RunAll(l, env).trace)
    decreases |env.clock|
  {
    if |l.ready| == 0 && |l.timers| == 0 {
    } else {
      var d := DrainReady(l, env);
      if |d.loop.timers| > 0 && |d.env.clock| > 0 {
        var t := TimerTurn(d);
        var rest := RunAll(t.loop, t.env);
        RunAllStep(l, env);
        SleepsHonoured(t.loop, t.env);
        if t.trace[0].Slept? {
          FirstReading(t.loop, t.env);
        }
        WokeAfterStep(d.trace, t.trace, rest.trace);
      } else {
        RunAllStop(l, env);
        ReadyOnlyWoke(d.trace);
      }
    }
  }

  /** `runAll` begins with the inner loop's drain. */
  lemma DrainComesFirst(l: Loop, env: Env)
    requires |l.ready| > 0
    ensures |RunAll(l, env).trace| >= |DrainReady(l, env).trace|
    ensures RunAll(l, env).trace[..|DrainReady(l, env).trace|] == DrainReady(l, env).trace
  {
    var d := DrainReady(l, env);
    var rest := RunAll(d.loop, d.env).trace;
    RunAfterDrain(l, env);
    assert (d.trace + rest)[..|d.trace|] == d.trace;
  }

  /** When resumed code adds no tasks, every task queued when `runAll`
      starts is resumed, front to back, before the heap is examined at all. */
  lemma DrainBeforeTimers(l: Loop, env: Env)
    requires NoNewTasks(env.effects)
    ensures |RunAll(l, env).trace| >= |l.ready|
    ensures RunAll(l, env).trace[..|l.ready|] == Ran(l.ready)
  {
    if |l.ready| > 0 {
      DrainInOrder(l, env);
      DrainComesFirst(l, env);
    }
  }

  /** On a drained loop the inner loop does nothing. */
  lemma DrainedStaysPut(l: Loop, env: Env)
    requires l.ready == []
    ensures DrainReady(l, env) == Progress(l, env, [])
  {
  }

  /** A timer turn does not depend on what happened before it. */
  lemma TurnIgnoresTrace(p: Progress, q: Progress)
    requires p.loop == q.loop && p.env == q.env
    requires p.loop.ready == [] && |p.loop.timers| > 0 && |p.env.clock| > 0
    ensures TimerTurn(p) == TimerTurn(q)
  {
  }

  /** A drained loop whose next step reaches the heap: one timer turn, then
      the rest of the run. */
  lemma DrainedStep(p: Progress)
    requires p.loop.ready == [] && |p.loop.timers| > 0 && |p.env.clock| > 0
    ensures RunAll(p.loop, p.env).trace
            == TimerTurn(p).trace + RunAll(TimerTurn(p).loop, TimerTurn(p).env).trace
    ensures RunAll(p.loop, p.env).finished == RunAll(TimerTurn(p).loop, TimerTurn(p).env).finished
  {
    var q := Progress(p.loop, p.env, []);
    DrainedStaysPut(p.loop, p.env);
    RunAllStep(p.loop, p.env);
    TurnIgnoresTrace(p, q);
    assert [] + TimerTurn(q).trace == TimerTurn(q).trace;
  }

  /** A drained loop that stops before the heap: an empty heap finishes, an
      exhausted clock does not. */
  lemma DrainedStop(l: Loop, env: Env)
    requires l.ready == [] && (|l.timers| == 0 || |env.clock| == 0)
    ensures RunAll(l, env).trace == []
    ensures RunAll(l, env).finished <==> |l.timers| == 0
  {
    DrainedStaysPut(l, env);
  }

  lemma RunAfterDrainStep(l: Loop, env: Env)
    requires |l.ready| > 0 || |l.timers| > 0
    requires |DrainReady(l, env).loop.timers| > 0 && |DrainReady(l, env).env.clock| > 0
    ensures RunAll(l, env).trace == DrainReady(l, env).trace
              + RunAll(DrainReady(l, env).loop, DrainReady(l, env).env).trace
    ensures RunAll(l, env).finished
            == RunAll(DrainReady(l, env).loop, DrainReady(l, env).env).finished
  {
    var d := DrainReady(l, env);
    var t := TimerTurn(d);
    var rest := RunAll(t.loop, t.env);
    RunAllStep(l, env);
    DrainedStep(d);
    assert d.trace + t.trace + rest.trace == d.trace + (t.trace + rest.trace);
  }

  lemma RunAfterDrainStop(l: Loop, env: Env)
    requires |l.ready| > 0 || |l.timers| > 0
    requires |DrainReady(l, env).loop.timers| == 0 || |DrainReady(l, env).env.clock| == 0
    ensures RunAll(l, env).trace == DrainReady(l, env).trace
              + RunAll(DrainReady(l, env).loop, DrainReady(l, env).env).trace
    ensures RunAll(l, env).finished
            == RunAll(DrainReady(l, env).loop, DrainReady(l, env).env).finished
  {
    var d := DrainReady(l, env);
    RunAllStop(l, env);
    DrainedStop(d.loop, d.env);
    assert d.trace + [] == d.trace;
  }

  /** `runAll` is its first drain followed by a run from the drained loop:
      the same trace after the drain, and the same verdict. */
  lemma RunAfterDrain(l: Loop, env: Env)
    ensures RunAll(l, env).trace == DrainReady(l, env).trace
              + RunAll(DrainReady(l, env).loop, DrainReady(l, env).env).trace
    ensures RunAll(l, env).finished
            == RunAll(DrainReady(l, env).loop, DrainReady(l, env).env).finished
  {
    var d := DrainReady(l, env);
    if |l.ready| == 0 && |l.timers| == 0 {
      DrainedStaysPut(l, env);
    } else if |d.loop.timers| > 0 && |d.env.clock| > 0 {
      RunAfterDrainStep(l, env);
    } else {
      RunAfterDrainStop(l, env);
    }
  }

  /** The number of clock readings strictly after `b`. */
  function CountAfter(clock: seq<int>, b: int): nat
    decreases |clock|
  {
    if |clock| == 0 then 0 else (if b < clock[0] then 1 else 0) + CountAfter(clock[1..], b)
  }

  /** Sleeping until a time no later than `b` lets no reading after `b` go by. */
  lemma {:induction false} WakeAtKeepsLater(clock: seq<int>, t: int, b: int)
    requires t <= b
    ensures CountAfter(WakeAt(clock, t), b) == CountAfter(clock, b)
    decreases |clock|
  {
    if |clock| > 0 && clock[0] < t {
      WakeAtKeepsLater(clock[1..], t, b);
    }
  }

  /** One timer turn of a quiet run keeps the progress hypotheses: the
      entries it fires and the entries left are together the heap, and
      enough readings after `b` remain for the entries left. */
  lemma QuietTurn(p: Progress, b: int)
    requires p.env.effects == [] && p.loop.ready == [] && |p.loop.timers| > 0
    requires forall x :: x in p.loop.timers ==> x.expireTime <= b
    requires CountAfter(p.env.clock, b) >= |p.loop.timers|
    ensures |p.env.clock| > 0
    ensures TimerTurn(p).env.effects == []
    ensures forall x :: x in TimerTurn(p).loop.timers ==> x.expireTime <= b
    ensures CountAfter(TimerTurn(p).env.clock, b) >= |TimerTurn(p).loop.timers|
    ensures multiset(Fired(TimerTurn(p).trace)) + multiset(TimerTurn(p).loop.timers)
            == multiset(p.loop.timers)
  {
    assert |p.env.clock| > 0;
    var t := TimerTurn(p);
    var top := Top(p.loop.timers);
    assert top in p.loop.timers;
    FiredSingle(t.trace);
    if t.trace[0].RanTimer? {
      assert t.loop.timers == Pop(p.loop.timers);
      forall x | x in Pop(p.loop.timers)
        ensures x.expireTime <= b
      {
        assert x in multiset(Pop(p.loop.timers));
        assert x in p.loop.timers;
      }
      TopAndPop(p.loop.timers);
    } else {
      var until := t.trace[0].until;
      assert p.env.clock[0] <= until == top.expireTime <= b;
      assert CountAfter(p.env.clock[1..], b) == CountAfter(p.env.clock, b);
      WakeAtKeepsLater(p.env.clock[1..], until, b);
    }
  }

  /** Progress: when resumed code registers nothing, every expiry is at or
      before `b`, and the clock gets past `b` at least once per timer, `runAll`
      returns with both structures empty after resuming every timer exactly
      once. Readings at or before `b` may make it sleep (a reading equal to an
      expiry sleeps again), but a sleep never skips a reading after `b`. */
  lemma {:induction false} QuietRunFiresAll(l: Loop, env: Env, b: int)
    requires env.effects == []
    requires forall x :: x in l.timers ==> x.expireTime <= b
    requires CountAfter(env.clock, b) >= |l.timers|
    ensures RunAll(l, env).finished
    ensures multiset(Fired(RunAll(l, env).trace)) == multiset(l.timers)
    decreases |env.clock|
  {
    if |l.ready| == 0 && |l.timers| == 0 {
    } else {
      var d := DrainReady(l, env);
      assert d.env == env && d.loop.timers == l.timers;
      if |d.loop.timers| == 0 {
        FiredReadyOnly(d.trace);
      } else {
        QuietTurn(d, b);
        var t := TimerTurn(d);
        var rest := RunAll(t.loop, t.env);
        RunAllStep(l, env);
        QuietRunFiresAll(t.loop, t.env, b);
        FiredOfStep(d.trace, t.trace, rest.trace);
      }
    }
  }

  /** The loop of the earlier `main` before `runAll`: `hello1`'s frame `t1`
      queued, then `hello2`'s frame `t2`. */
  function MainLoop(t1: Handle, t2: Handle): (r: Loop)
    ensures r.ready == [t2, t1] && r.timers == []
  {
    AddTask(AddTask(Loop([], []), t1), t2)
  }

  /** What the resumed code of the earlier `main` registers: when resumed
      from the deque, `hello2` and then `hello1` each enter a `sleep_for`
      task (`s2`, `s1`) whose `SleepAwaiter` registers one timer expiring at
      `e2` / `e1` (that task's own clock reading plus its duration). A
      resumed sleeper finishes, and so does its `hello`, registering nothing. */
  function MainEnv(s1: Handle, s2: Handle, e1: int, e2: int, clock: seq<int>): (r: Env)
    ensures r.clock == clock && NoNewTasks(r.effects)
  {
    var r := Env([Effect([], [TimerEntry(e2, s2)]), Effect([], [TimerEntry(e1, s1)])], clock);
    assert forall i :: 0 <= i < |r.effects| ==> r.effects[i].tasks == [];
    r
  }

  /** One step of the drain: the front task runs, its effect is registered,
      and the drain continues from there. */
  lemma DrainOne(l: Loop, env: Env)
    requires |l.ready| > 0
    ensures var (e, env1) := NextEffect(env);
            var rest := DrainReady(Register(l.(ready := l.ready[1..]), e), env1);
            DrainReady(l, env) == Progress(rest.loop, rest.env, [RanReady(l.ready[0])] + rest.trace)
  {
  }

  /** The drain of the earlier `main`: both tasks run, `hello2` first, and
      leave their two sleep timers in the heap. */
  lemma MainDrain(t1: Handle, t2: Handle, s1: Handle, s2: Handle, e1: int, e2: int, clock: seq<int>)
    ensures DrainReady(MainLoop(t1, t2), MainEnv(s1, s2, e1, e2, clock))
            == Progress(Loop([], [TimerEntry(e2, s2), TimerEntry(e1, s1)]), Env([], clock),
                        [RanReady(t2), RanReady(t1)])
  {
    var l0 := MainLoop(t1, t2);
    var env0 := MainEnv(s1, s2, e1, e2, clock);
    var eff2, eff1 := Effect([], [TimerEntry(e2, s2)]), Effect([], [TimerEntry(e1, s1)]);
    assert env0 == Env([eff2, eff1], clock);
    var env1 := Env([eff1], clock);
    var env2 := Env([], clock);
    assert NextEffect(env0) == (eff2, env1);
    assert NextEffect(env1) == (eff1, env2);
    var l1 := Register(Loop([t1], []), eff2);
    assert l1 == Loop([t1], [TimerEntry(e2, s2)]);
    var l2 := Register(Loop([], l1.timers), eff1);
    assert l2 == Loop([], [TimerEntry(e2, s2), TimerEntry(e1, s1)]);
    assert l0.(ready := l0.ready[1..]) == Loop([t1], []);
    assert l1.(ready := l1.ready[1..]) == Loop([], l1.timers);
    DrainOne(l0, env0);
    DrainOne(l1, env1);
    DrainedStaysPut(l2, env2);
  }

  /** Two entries with distinct expiries can be sorted only one way. */
  lemma SortedPair(f: seq<TimerEntry>, a: TimerEntry, b: TimerEntry)
    requires SortedByExpiry(f) && multiset(f) == multiset{a, b}
    requires a.expireTime < b.expireTime
    ensures f == [a, b]
  {
    assert |f| == |multiset(f)| == 2;
    assert f[0] in multiset(f) && f[1] in multiset(f);
    assert f[0].expireTime <= f[1].expireTime;
    assert f == [f[0], f[1]];
  }

  /** A quiet run that gets past every expiry resumes every timer exactly
      once, in order of expiry. */
  lemma QuietRunInOrder(l: Loop, env: Env, b: int)
    requires env.effects == []
    requires forall x :: x in l.timers ==> x.expireTime <= b
    requires CountAfter(env.clock, b) >= |l.timers|
    ensures RunAll(l, env).finished
    ensures multiset(Fired(RunAll(l, env).trace)) == multiset(l.timers)
    ensures SortedByExpiry(Fired(RunAll(l, env).trace))
  {
    QuietRunFiresAll(l, env, b);
    assert NoNewTimers(env.effects);
    FiredInExpiryOrder(l, env);
  }

  /** Timers registered while the deque is first drained, with resumed code
      registering nothing afterwards: once the clock gets past every expiry,
      the run finishes after resuming each of them exactly once, in order of
      expiry. */
  lemma QuietAfterDrain(l: Loop, env: Env, b: int)
    requires DrainReady(l, env).env.effects == []
    requires forall x :: x in DrainReady(l, env).loop.timers ==> x.expireTime <= b
    requires CountAfter(DrainReady(l, env).env.clock, b) >= |DrainReady(l, env).loop.timers|
    ensures RunAll(l, env).finished
    ensures multiset(Fired(RunAll(l, env).trace)) == multiset(DrainReady(l, env).loop.timers)
    ensures SortedByExpiry(Fired(RunAll(l, env).trace))
  {
    var d := DrainReady(l, env);
    var rest := RunAll(d.loop, d.env);
    RunAfterDrain(l, env);
    QuietRunInOrder(d.loop, d.env, b);
    FiredAppend(d.trace, rest.trace);
    FiredReadyOnly(d.trace);
  }

  /** The earlier `main` resumes `hello2` before `hello1`, although each
      registers a sleep timer when resumed. */
  lemma MainOrder(t1: Handle, t2: Handle, s1: Handle, s2: Handle, e1: int, e2: int, clock: seq<int>)
    ensures |RunAll(MainLoop(t1, t2), MainEnv(s1, s2, e1, e2, clock)).trace| >= 2
    ensures RunAll(MainLoop(t1, t2), MainEnv(s1, s2, e1, e2, clock)).trace[..2]
            == [RanReady(t2), RanReady(t1)]
  {
    var l := MainLoop(t1, t2);
    DrainBeforeTimers(l, MainEnv(s1, s2, e1, e2, clock));
    assert Ran(l.ready) == [RanReady(t2), RanReady(t1)];
  }

  /** The two sleep timers of the earlier `main`, in the heap's order. */
  lemma TwoSleepTimers(ts: seq<TimerEntry>, s1: Handle, s2: Handle, e1: int, e2: int, b: int)
    requires ts == [TimerEntry(e2, s2), TimerEntry(e1, s1)]
    requires e1 <= b && e2 <= b
    ensures multiset(ts) == multiset{TimerEntry(e1, s1), TimerEntry(e2, s2)}
    ensures |ts| == 2
    ensures forall x :: x in ts ==> x.expireTime <= b
  {
  }

  /** A run whose first drain leaves the two sleep timers of the earlier
      `main` and registers nothing further fires both, in order of expiry. */
  lemma TwoSleepersFire(l: Loop, env: Env, s1: Handle, s2: Handle, e1: int, e2: int, b: int)
    requires DrainReady(l, env).loop.timers == [TimerEntry(e2, s2), TimerEntry(e1, s1)]
    requires DrainReady(l, env).env.effects == []
    requires e1 <= b && e2 <= b && CountAfter(DrainReady(l, env).env.clock, b) >= 2
    ensures RunAll(l, env).finished
    ensures multiset(Fired(RunAll(l, env).trace)) == multiset{TimerEntry(e1, s1), TimerEntry(e2, s2)}
    ensures SortedByExpiry(Fired(RunAll(l, env).trace))
  {
    TwoSleepTimers(DrainReady(l, env).loop.timers, s1, s2, e1, e2, b);
    QuietAfterDrain(l, env, b);
  }

  /** The timers of the earlier `main`: once the clock gets past both
      expiries, the run finishes after resuming each sleeper exactly once,
      in order of expiry. */
  lemma MainFires(t1: Handle, t2: Handle, s1: Handle, s2: Handle, e1: int, e2: int, clock: seq<int>, b: int)
    requires e1 <= b && e2 <= b && CountAfter(clock, b) >= 2
    ensures RunAll(MainLoop(t1, t2), MainEnv(s1, s2, e1, e2, clock)).finished
    ensures multiset(Fired(RunAll(MainLoop(t1, t2), MainEnv(s1, s2, e1, e2, clock)).trace))
            == multiset{TimerEntry(e1, s1), TimerEntry(e2, s2)}
    ensures SortedByExpiry(Fired(RunAll(MainLoop(t1, t2), MainEnv(s1, s2, e1, e2, clock)).trace))
  {
    MainDrain(t1, t2, s1, s2, e1, e2, clock);
    TwoSleepersFire(MainLoop(t1, t2), MainEnv(s1, s2, e1, e2, clock), s1, s2, e1, e2, b);
  }

  /** The whole run of the earlier `main`: `hello2` is resumed before
      `hello1`, both register their sleep timers, and once the clock gets
      past both expiries the run finishes after resuming each sleeper exactly
      once, earliest expiry first, so the 1-second sleeper wakes before the
      2-second one. */
  lemma MainRun(t1: Handle, t2: Handle, s1: Handle, s2: Handle, e1: int, e2: int, clock: seq<int>, b: int)
    requires e1 <= b && e2 <= b && CountAfter(clock, b) >= 2
    ensures |RunAll(MainLoop(t1, t2), MainEnv(s1, s2, e1, e2, clock)).trace| >= 2
    ensures RunAll(MainLoop(t1, t2), MainEnv(s1, s2, e1, e2, clock)).trace[..2]
            == [RanReady(t2), RanReady(t1)]
    ensures RunAll(MainLoop(t1, t2), MainEnv(s1, s2, e1, e2, clock)).finished
    ensures multiset(Fired(RunAll(MainLoop(t1, t2), MainEnv(s1, s2, e1, e2, clock)).trace))
            == multiset{TimerEntry(e1, s1), TimerEntry(e2, s2)}
    ensures e1 < e2 ==> Fired(RunAll(MainLoop(t1, t2), MainEnv(s1, s2, e1, e2, clock)).trace)
                        == [TimerEntry(e1, s1), TimerEntry(e2, s2)]
  {
    MainOrder(t1, t2, s1, s2, e1, e2, clock);
    MainFires(t1, t2, s1, s2, e1, e2, clock, b);
    if e1 < e2 {
      var f := Fired(RunAll(MainLoop(t1, t2), MainEnv(s1, s2, e1, e2, clock)).trace);
      SortedPair(f, TimerEntry(e1, s1), TimerEntry(e2, s2));
    }
  }

  /** `top()` and what `pop()` leaves are the whole heap. */
  lemma TopAndPop(heap: seq<TimerEntry>)
    requires |heap| > 0
    ensures multiset{Top(heap)} + multiset(Pop(heap)) == multiset(heap)
  {
    assert Top(heap) in multiset(heap);
  }
}
