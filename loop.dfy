/** The loop controller (Loop.java), modelled single-threaded: one worker
    iteration is a method that returns the trace of what it executed; the
    worker thread is a pair of flags (a handle is stored, the thread is alive)
    whose transitions are pure functions. Commands are opaque and identified
    by a number; what they do is not part of the model. */
module Loops {
  import opened Clocks

  datatype Option<T> = None | Some(value: T)

  /** An opaque `Runnable`, identified by a number. */
  datatype Command = Command(id: nat)

  /** One thing an iteration does, in the order it does it. */
  datatype Action =
    | ClockTick       // clock.tick()
    | Run(cmd: Command)  // a command (queued or from the mailbox) is run
    | Step(dt: real)  // the callback is invoked with this time step

  /** The actions that run a sequence of commands, in order. */
  function Runs(q: seq<Command>): (r: seq<Action>)
    ensures |r| == |q|
    ensures forall i :: 0 <= i < |q| ==> r[i] == Run(q[i])
  {
    if |q| == 0 then [] else Runs(q[..|q| - 1]) + [Run(q[|q| - 1])]
  }

  /** The trace of one iteration of the worker: tick the clock, drain the
      queue in order, run the mailbox command if there is one, then call the
      callback with the capped time step unless paused. */
  function IterationTrace(queue: seq<Command>, once: Option<Command>, paused: bool, dt: real): seq<Action>
  {
    [ClockTick] + Runs(queue) + OnceActions(once) + StepActions(paused, dt)
  }

  /** Running the mailbox command, if there is one. */
  function OnceActions(once: Option<Command>): seq<Action>
  {
    if once.Some? then [Run(once.value)] else []
  }

  /** Calling the callback, unless paused. */
  function StepActions(paused: bool, dt: real): seq<Action>
  {
    if paused then [] else [Step(dt)]
  }

  /** The commands a trace runs, counted with multiplicity. */
  function Executed(trace: seq<Action>): multiset<Command>
  {
    if |trace| == 0 then multiset{}
    else Executed(trace[..|trace| - 1])
         + (if trace[|trace| - 1].Run? then multiset{trace[|trace| - 1].cmd} else multiset{})
  }

  /** How many times a trace calls the callback. */
  function Steps(trace: seq<Action>): nat
  {
    if |trace| == 0 then 0
    else Steps(trace[..|trace| - 1]) + (if trace[|trace| - 1].Step? then 1 else 0)
  }

  /** The mailbox command as a multiset: empty or a single command. */
  function Pending(once: Option<Command>): multiset<Command>
  {
    if once.Some? then multiset{once.value} else multiset{}
  }

  /** Executed and Steps distribute over concatenation. */
  lemma {:induction false} CountsAppend(a: seq<Action>, b: seq<Action>)
    ensures Executed(a + b) == Executed(a) + Executed(b)
    ensures Steps(a + b) == Steps(a) + Steps(b)
  {
    if |b| > 0 {
      var b' := b[..|b| - 1];
      var ab := a + b;
      assert ab[..|ab| - 1] == a + b';
      assert ab[|ab| - 1] == b[|b| - 1];
      CountsAppend(a, b');
    } else {
      assert a + b == a;
    }
  }

  /** Running a queue runs every queued command once and calls no callback. */
  lemma {:induction false} RunsCounts(q: seq<Command>)
    ensures Executed(Runs(q)) == multiset(q)
    ensures Steps(Runs(q)) == 0
  {
    RunsExecuted(q);
    RunsSteps(q);
  }

  /** Running a queue runs every queued command once. */
  lemma {:induction false} RunsExecuted(q: seq<Command>)
    ensures Executed(Runs(q)) == multiset(q)
  {
    if |q| > 0 {
      var q' := q[..|q| - 1];
      var x := q[|q| - 1];
      RunsExecuted(q');
      RunsSnoc(q);
      CountsAppend(Runs(q'), [Run(x)]);
      SingleCounts(Run(x));
      MultisetSnoc(q);
    }
  }

  /** Running a queue calls no callback. */
  lemma {:induction false} RunsSteps(q: seq<Command>)
    ensures Steps(Runs(q)) == 0
  {
    if |q| > 0 {
      var q' := q[..|q| - 1];
      var x := q[|q| - 1];
      RunsSteps(q');
      RunsSnoc(q);
      CountsAppend(Runs(q'), [Run(x)]);
      SingleCounts(Run(x));
    }
  }

  /** The multiset of a non-empty sequence: that of all but the last element,
      plus the last. */
  lemma {:induction false} MultisetSnoc(q: seq<Command>)
    requires |q| > 0
    ensures multiset(q) == multiset(q[..|q| - 1]) + multiset{q[|q| - 1]}
  {
    assert q == q[..|q| - 1] + [q[|q| - 1]];
  }

  /** Runs of a non-empty queue: the runs of all but the last command, then
      the last. */
  lemma {:induction false} RunsSnoc(q: seq<Command>)
    requires |q| > 0
    ensures Runs(q) == Runs(q[..|q| - 1]) + [Run(q[|q| - 1])]
  {
  }

  /** One iteration runs each queued command and the pending mailbox command
      exactly once, and calls the callback once, or never when paused. */
  lemma {:induction false} IterationCounts(queue: seq<Command>, once: Option<Command>, paused: bool, dt: real)
    ensures Executed(IterationTrace(queue, once, paused, dt)) == multiset(queue) + Pending(once)
    ensures Steps(IterationTrace(queue, once, paused, dt)) == if paused then 0 else 1
  {
    var t0 := [ClockTick];
    var runs := Runs(queue);
    var o := OnceActions(once);
    var p := StepActions(paused, dt);
    SingleCounts(ClockTick);
    OnceCounts(once);
    StepCounts(paused, dt);
    RunsCounts(queue);
    CountsAppend(t0, runs);
    CountsAppend(t0 + runs, o);
    CountsAppend(t0 + runs + o, p);
  }

  /** What a one-action trace executes and calls. */
  lemma {:induction false} SingleCounts(a: Action)
    ensures Executed([a]) == (if a.Run? then multiset{a.cmd} else multiset{})
    ensures Steps([a]) == (if a.Step? then 1 else 0)
  {
    assert [a][..0] == [];
  }

  /** The mailbox part runs the pending command, if any, and no callback. */
  lemma {:induction false} OnceCounts(once: Option<Command>)
    ensures Executed(OnceActions(once)) == Pending(once)
    ensures Steps(OnceActions(once)) == 0
  {
    if once.Some? {
      SingleCounts(Run(once.value));
    }
  }

  /** The callback part calls the callback once unless paused, and runs no
      command. */
  lemma {:induction false} StepCounts(paused: bool, dt: real)
    ensures Executed(StepActions(paused, dt)) == multiset{}
    ensures Steps(StepActions(paused, dt)) == if paused then 0 else 1
  {
    if !paused {
      SingleCounts(Step(dt));
    }
  }

  /** The order within one iteration: the clock tick first, then the queued
      commands in insertion order, then the mailbox command, then the
      callback (as the last action, when not paused). */
  lemma {:induction false} IterationOrder(queue: seq<Command>, once: Option<Command>, paused: bool, dt: real)
    ensures var t := IterationTrace(queue, once, paused, dt);
      t[0] == ClockTick &&
      (forall i :: 0 <= i < |queue| ==> t[1 + i] == Run(queue[i])) &&
      (once.Some? ==> t[1 + |queue|] == Run(once.value)) &&
      (!paused <==> t[|t| - 1] == Step(dt)) &&
      |t| == 1 + |queue| + (if once.Some? then 1 else 0) + (if paused then 0 else 1)
  {
  }

  /** A paused iteration never calls the callback, yet still drains the
      queue and runs the mailbox command. */
  lemma {:induction false} PausedSkipsOnlyCallback(queue: seq<Command>, once: Option<Command>, dt: real)
    ensures forall a :: a in IterationTrace(queue, once, true, dt) ==> !a.Step?
    ensures Executed(IterationTrace(queue, once, true, dt)) == multiset(queue) + Pending(once)
  {
    IterationCounts(queue, once, true, dt);
  }

  /** `Math.min(maxDt, dt)`: the time step handed to the callback. */
  function CapDt(maxDt: real, dt: real): (r: real)
    ensures r <= maxDt && r <= dt
    ensures r == maxDt || r == dt
  {
    if maxDt <= dt then maxDt else dt
  }

  /** With the default cap of 1/20 s, a measured 0.2 s is handed over as
      exactly 0.05 s. */
  lemma DefaultCapExample()
    ensures CapDt(0.05, 0.2) == 0.05
  {
  }

  /** The field comment on `maxDt` promises no limit for a negative cap, but
      the code takes the minimum unconditionally: for a negative cap the
      callback gets the (negative) cap instead of the measured time. */
  lemma NegativeCapIsNotUnlimited(maxDt: real, dt: real)
    requires maxDt < 0.0 <= dt
    ensures CapDt(maxDt, dt) == maxDt
    ensures CapDt(maxDt, dt) != dt && CapDt(maxDt, dt) < 0.0
  {
  }

  /** The worker's lifecycle: whether `loopThread` is non-null, whether that
      thread is alive, and the value of `loopShouldRun`. */
  datatype Lifecycle = Lifecycle(hasThread: bool, alive: bool, shouldRun: bool)

  /** The errors `start` and `stop` throw: `IllegalStateException`, and the
      failed `assert loopThread != null` of `stop`. */
  datatype Error = IllegalState | NullThread

  /** A result or a thrown error. */
  datatype Result<T> = Ok(value: T) | Err(error: Error)

  /** A control operation's outcome and the lifecycle it leaves behind. */
  datatype Transition<T> = Transition(result: Result<T>, next: Lifecycle)

  /** The state of a new `Loop`: no thread, run flag false. */
  const Initial := Lifecycle(false, false, false)

  /** `start`: throws when a thread handle is stored; otherwise sets the run
      flag and stores a freshly started, alive thread. */
  function StartStep(s: Lifecycle): (t: Transition<()>)
    ensures t.result.Err? <==> s.hasThread
    ensures t.result.Err? ==> t.result.error == IllegalState && t.next == s
    ensures t.result.Ok? ==> t.next == Lifecycle(true, true, true)
  {
    if s.hasThread then Transition(Err(IllegalState), s)
    else Transition(Ok(()), Lifecycle(true, true, true))
  }

  /** `stop(millis)`: throws when there is no handle or the thread is not
      alive; otherwise clears the run flag and waits. `exited` says whether
      the thread ended within the wait. If it did, the handle is cleared and
      the result is true; if not, the handle is kept and the result is
      false. */
  function StopStep(s: Lifecycle, exited: bool): (t: Transition<bool>)
    ensures !s.hasThread ==> t == Transition(Err(NullThread), s)
    ensures s.hasThread && !s.alive ==> t == Transition(Err(IllegalState), s)
    ensures s.hasThread && s.alive ==> t.result == Ok(exited) && !t.next.shouldRun
    ensures s.hasThread && s.alive && exited ==> t.next == Lifecycle(false, false, false)
    ensures s.hasThread && s.alive && !exited ==> t.next == Lifecycle(true, true, false)
  {
    if !s.hasThread then Transition(Err(NullThread), s)
    else if !s.alive then Transition(Err(IllegalState), s)
    else if exited then Transition(Ok(true), Lifecycle(false, false, false))
    else Transition(Ok(false), s.(shouldRun := false))
  }

  /** The worker thread ends: it found the run flag false at the top of its
      loop, or an exception escaped an iteration. The handle stays stored. */
  function ExitStep(s: Lifecycle): (r: Lifecycle)
    ensures r == s.(alive := false)
  {
    s.(alive := false)
  }

  /** What can happen to the lifecycle: a call of `start`, a call of `stop`
      whose wait ends with the thread gone or still alive, or the thread's
      own ending. */
  datatype Event = StartCall | StopCall(exited: bool) | WorkerEnds

  function Apply(s: Lifecycle, e: Event): Lifecycle
  {
    match e
    case StartCall => StartStep(s).next
    case StopCall(exited) => StopStep(s, exited).next
    case WorkerEnds => if s.alive then ExitStep(s) else s
  }

  /** The lifecycle after a sequence of events. */
  function Replay(s: Lifecycle, events: seq<Event>): Lifecycle
  {
    if |events| == 0 then s else Apply(Replay(s, events[..|events| - 1]), events[|events| - 1])
  }

  /** A thread is alive only while its handle is stored. */
  ghost predicate Coherent(s: Lifecycle)
  {
    s.alive ==> s.hasThread
  }

  /** Every reachable lifecycle is coherent, so `start` never succeeds while
      a worker is alive: there is never more than one worker. */
  lemma {:induction false} AtMostOneWorker(events: seq<Event>)
    ensures Coherent(Replay(Initial, events))
    ensures StartStep(Replay(Initial, events)).result.Ok? ==> !Replay(Initial, events).alive
  {
    if |events| > 0 {
      AtMostOneWorker(events[..|events| - 1]);
    }
  }

  /** `stop` before any `start` throws. */
  lemma StopBeforeStartFails(exited: bool)
    ensures StopStep(Initial, exited).result.Err?
  {
  }

  /** A second `start` throws when no `stop` in between saw the thread end
      within its wait, whatever else happened meanwhile (failed or timed-out
      stops, other starts, the thread ending by itself). */
  lemma {:induction false} DoubleStartFails(s: Lifecycle, events: seq<Event>)
    requires StartStep(s).result.Ok?
    requires forall i :: 0 <= i < |events| ==> events[i] != StopCall(true)
    ensures StartStep(Replay(StartStep(s).next, events)).result == Err(IllegalState)
  {
    NoCleanStopKeepsHandle(StartStep(s).next, events);
  }

  /** Only a `stop` whose wait saw the thread end clears a stored handle:
      under any other events the handle stays. */
  lemma {:induction false} NoCleanStopKeepsHandle(s: Lifecycle, events: seq<Event>)
    requires s.hasThread
    requires forall i :: 0 <= i < |events| ==> events[i] != StopCall(true)
    ensures Replay(s, events).hasThread
  {
    if |events| > 0 {
      NoCleanStopKeepsHandle(s, events[..|events| - 1]);
    }
  }

  /** After a `stop` that returned true, `start` succeeds again. */
  lemma CleanStopAllowsRestart(s: Lifecycle, exited: bool)
    requires StopStep(s, exited).result == Ok(true)
    ensures StartStep(StopStep(s, exited).next).result.Ok?
  {
  }

  /** After a `stop` that returned false, the handle is kept: `start` still
      throws, and another `stop` returns true when the thread is still alive
      at its start and ends within its wait. */
  lemma TimedOutStopKeepsHandle(s: Lifecycle)
    requires StopStep(s, false).result == Ok(false)
    ensures StartStep(StopStep(s, false).next).result == Err(IllegalState)
    ensures StopStep(StopStep(s, false).next, true).result == Ok(true)
  {
  }

  /** If the thread ends between a timed-out `stop` and the next `stop`,
      that next `stop` throws because the thread is no longer alive; the
      handle is never cleared, so every later `start` and `stop` throws. */
  lemma {:induction false} LateExitLocksOut(s: Lifecycle, events: seq<Event>)
    requires StopStep(s, false).result == Ok(false)
    requires forall i :: 0 <= i < |events| ==> events[i] != StartCall
    ensures var stuck := Replay(ExitStep(StopStep(s, false).next), events);
      stuck.hasThread && !stuck.alive &&
      StartStep(stuck).result == Err(IllegalState) &&
      StopStep(stuck, true).result == Err(IllegalState)
  {
    if |events| > 0 {
      LateExitLocksOut(s, events[..|events| - 1]);
    }
  }

  /** Starting from a lifecycle where a handle is kept and its thread is
      dead, no sequence of events of any kind ever clears the handle. */
  lemma {:induction false} DeadHandleIsPermanent(s: Lifecycle, events: seq<Event>)
    requires s.hasThread && !s.alive
    ensures Replay(s, events).hasThread && !Replay(s, events).alive
  {
    if |events| > 0 {
      DeadHandleIsPermanent(s, events[..|events| - 1]);
    }
  }

  class Loop {
    /** Upper limit for the time step, in seconds. */
    var maxDt: real
    /** When true, iterations skip the callback. */
    var pause: bool
    const clock: Clock
    var hasThread: bool
    var threadAlive: bool
    var loopShouldRun: bool
    var commandQueue: seq<Command>
    var once: Option<Command>

    ghost predicate Valid()
      reads this, clock, clock.lastTimes
    {
      clock.Valid() && clock.lastTimes.Length == 60
    }

    /** The lifecycle fields as one value. */
    function Life(): (s: Lifecycle)
      reads this
      ensures s.hasThread == hasThread && s.alive == threadAlive && s.shouldRun == loopShouldRun
    {
      Lifecycle(hasThread, threadAlive, loopShouldRun)
    }

    /** `new Loop()`: cap 1/20 s, not paused, a 60-slot clock, no thread,
        empty queue and mailbox. */
    constructor ()
      ensures Valid() && fresh(clock) && fresh(clock.lastTimes)
      ensures maxDt == 0.05 && !pause
      ensures Life() == Initial
      ensures commandQueue == [] && once == None
      ensures clock.samples == [] && clock.inTime == -1
    {
      maxDt := 0.05;
      pause := false;
      clock := new Clock(60);
      hasThread, threadAlive, loopShouldRun := false, false, false;
      commandQueue := [];
      once := None;
    }

    /** `enqueue(cmd)`: appends to the back of the queue. */
    method Enqueue(cmd: Command)
      modifies this`commandQueue
      ensures commandQueue == old(commandQueue) + [cmd]
    {
      commandQueue := commandQueue + [cmd];
    }

    /** `doOnce(cmd)`: replaces whatever the mailbox held. A null command
        (None) empties the mailbox, cancelling a pending command. */
    method DoOnce(cmd: Option<Command>)
      modifies this`once
      ensures once == cmd
    {
      once := cmd;
    }

    /** `processCommandQueue()`: polls and runs commands until the queue is
        empty; returns what it ran, in order. */
    method ProcessCommandQueue() returns (ran: seq<Command>)
      modifies this`commandQueue
      ensures ran == old(commandQueue) && commandQueue == []
    {
      ran := [];
      while |commandQueue| > 0
        invariant ran + commandQueue == old(commandQueue)
        decreases |commandQueue|
      {
        var cmd := commandQueue[0];
        commandQueue := commandQueue[1..];
        ran := ran + [cmd];
      }
    }

    /** `computeDt()`: the clock's last duration in seconds, capped by
        `maxDt`. */
    function ComputeDt(): (r: real)
      requires Valid()
      reads this, clock, clock.lastTimes
      ensures r <= maxDt && r <= GetActualDt()
      ensures r == maxDt || r == GetActualDt()
    {
      CapDt(maxDt, clock.GetDtMillis() / 1000.0)
    }

    /** `getActualDt()`: the clock's last duration in seconds, uncapped. */
    function GetActualDt(): (r: real)
      requires Valid()
      reads this, clock, clock.lastTimes
      ensures |clock.samples| == 0 ==> r == 0.0
      ensures |clock.samples| > 0 ==> r * 1000.0 == clock.samples[|clock.samples| - 1]
    {
      clock.GetDtMillis() / 1000.0
    }

    /** `getAvgFramerate()`: the clock's average frame rate. */
    function GetAvgFramerate(): (r: real)
      requires Valid()
      reads this, clock, clock.lastTimes
      ensures Average(clock.lastTimes[..]) == 0.0 ==> r == 0.0
      ensures Average(clock.lastTimes[..]) != 0.0 ==> r * Average(clock.lastTimes[..]) == 1000.0
    {
      clock.GetAvgFramerate()
    }

    /** The body of `loop(callback)`, one iteration of the worker at time
        `now` (nanoseconds). Returns what was executed, in order. */
    method Iterate(now: int) returns (trace: seq<Action>)
      requires Valid()
      modifies this`commandQueue, this`once, clock, clock.lastTimes
      ensures Valid()
      ensures old(clock.inTime) == -1 ==> clock.samples == old(clock.samples)
      ensures old(clock.inTime) != -1 ==>
        clock.samples == old(clock.samples) + [Elapsed(old(clock.inTime), now)]
      ensures clock.inTime == now
      ensures trace == IterationTrace(old(commandQueue), old(once), pause, ComputeDt())
      ensures commandQueue == [] && once == None
    {
      clock.Tick(now);
      trace := [ClockTick];
      var ran := ProcessCommandQueue();
      trace := trace + Runs(ran);
      var onceCommand := once;
      once := None;
      if onceCommand.Some? {
        trace := trace + [Run(onceCommand.value)];
      }
      if !pause {
        trace := trace + [Step(ComputeDt())];
      }
    }

    /** `start(callback)`. */
    method Start() returns (r: Result<()>)
      modifies this`hasThread, this`threadAlive, this`loopShouldRun
      ensures Transition(r, Life()) == StartStep(old(Life()))
    {
      if hasThread {
        return Err(IllegalState);
      }
      loopShouldRun := true;
      hasThread := true;
      threadAlive := true;
      r := Ok(());
    }

    /** `stop(millis)`; `exited` is whether the thread ended within the
        wait. */
    method Stop(exited: bool) returns (r: Result<bool>)
      modifies this`hasThread, this`threadAlive, this`loopShouldRun
      ensures Transition(r, Life()) == StopStep(old(Life()), exited)
    {
      if !hasThread {
        return Err(NullThread);
      }
      if !threadAlive {
        return Err(IllegalState);
      }
      loopShouldRun := false;
      if exited {
        threadAlive := false;
      }
      if threadAlive {
        return Ok(false);
      }
      hasThread := false;
      r := Ok(true);
    }

    /** The worker's `while (loopShouldRun.get())` test: the thread ends when
        the flag is false. */
    method WorkerContinues() returns (continues: bool)
      requires threadAlive
      modifies this`threadAlive
      ensures continues == loopShouldRun
      ensures Life() == if continues then old(Life()) else ExitStep(old(Life()))
    {
      continues := loopShouldRun;
      if !continues {
        threadAlive := false;
      }
    }
  }

  /** `doOnce(x)` then `doOnce(y)` before an iteration: only y runs, and x
      does not run unless it was also queued or is y. */
  method MailboxOverwrite(loop: Loop, x: Command, y: Command, now: int) returns (trace: seq<Action>)
    requires loop.Valid()
    modifies loop, loop.clock, loop.clock.lastTimes
    ensures loop.Valid()
    ensures trace == IterationTrace(old(loop.commandQueue), Some(y), loop.pause, loop.ComputeDt())
    ensures x != y && x !in old(loop.commandQueue) ==> Run(x) !in trace
  {
    loop.DoOnce(Some(x));
    loop.DoOnce(Some(y));
    trace := loop.Iterate(now);
    if x != y && x !in old(loop.commandQueue) {
      IterationCounts(old(loop.commandQueue), Some(y), loop.pause, loop.ComputeDt());
      ExecutedHas(trace, x);
    }
  }

  /** `doOnce(x)` then `doOnce(null)` before an iteration: the mailbox is
      empty, so x does not run unless it was also queued. */
  method MailboxCancel(loop: Loop, x: Command, now: int) returns (trace: seq<Action>)
    requires loop.Valid()
    modifies loop, loop.clock, loop.clock.lastTimes
    ensures loop.Valid()
    ensures trace == IterationTrace(old(loop.commandQueue), None, loop.pause, loop.ComputeDt())
    ensures x !in old(loop.commandQueue) ==> Run(x) !in trace
  {
    loop.DoOnce(Some(x));
    loop.DoOnce(None);
    trace := loop.Iterate(now);
    if x !in old(loop.commandQueue) {
      IterationCounts(old(loop.commandQueue), None, loop.pause, loop.ComputeDt());
      ExecutedHas(trace, x);
    }
  }

  /** A command that appears in a trace is counted in Executed. */
  lemma {:induction false} ExecutedHas(trace: seq<Action>, c: Command)
    ensures Run(c) in trace ==> c in Executed(trace)
  {
    if |trace| > 0 {
      var init := trace[..|trace| - 1];
      assert trace == init + [trace[|trace| - 1]];
      ExecutedHas(init, c);
    }
  }
}
