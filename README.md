# particle-life loop and timing core in Dafny

This project models four small sequential components of the particle-life
simulator (package `com.particle_life`) and proves properties of them:

- **Clock** (`clock.dfy`, module `Clocks`): the rolling frame clock. It is a
  fixed-size circular buffer of measured durations in milliseconds, with a
  write index that starts at -1 and a pending start mark (`inTime == -1`
  means unset). After every completed interval it recomputes the mean and the
  Bessel-corrected variance over the whole buffer. A ghost field `samples`
  records every duration ever stored. The buffer is a pure function of it
  (`Ring`): sample j goes to slot `Slot(j, n)`, which is 0, 1, ..., n-1, 0, ...
- **Loop** (`loop.dfy`, module `Loops`): the loop controller, run
  single-threaded. It has the FIFO command queue, the one-slot `doOnce`
  mailbox, the pause flag and the `min(maxDt, dt)` cap. One worker iteration
  is a method that returns the trace of what it executed (clock tick, each
  command run, callback call). The thread lifecycle of `start` and `stop` is
  three flags: a handle is stored, the thread is alive, the run flag. Pure
  transition functions (`StartStep`, `StopStep`, `ExitStep`) define how the
  flags change, and the class methods are proved against them.
- **Range** (`range.dfy`, module `Range`): confines coordinates to [-1, 1],
  over reals. `Clamp` clamps to [-1, 1]. `Wrap` maps into [-1, 1) through
  `Modulo`, a floored remainder computed by add/subtract loops. The vector
  forms work on a small mutable `Vector3d` class and set z to 0.
- **DefaultMatrix** (`matrix.dfy`, module `Matrices`): a `size x size`
  matrix of cells written in place, with `zero`, `size`, `get`, `set`,
  `deepCopy` and `equals`.

Inputs replace what the model cannot see:
- The system timer (`System.nanoTime()`) becomes a timestamp `now`, in
  nanoseconds, passed to `In`, `Out`, `Tick` and `Iterate`.
- Whether the worker thread ended within `stop`'s wait becomes the Boolean
  `exited` passed to `Stop`.
- The thread ending on its own is the `WorkerEnds` event, or the
  `WorkerContinues` method.

### Where the code and its documentation disagree (the model follows the code)

- The comment on `maxDt` (Loop.java:33) says a negative value means "no
  limit". The code takes `Math.min(maxDt, dt)` unconditionally
  (Loop.java:131), so a negative cap hands the callback the negative cap.
  `Loops.NegativeCapIsNotUnlimited` proves the promise fails.
- The class comment of `Range` (Range.java:18-20) says clamping
  (0.4, -1.3, 2.0) gives (0.4, -1.0, 1.0). The code sets z to 0
  (Range.java:50), so the result is (0.4, -1.0, 0.0). See
  `Range.VectorExamples`.
- The Javadoc of `stop` (Loop.java:109-115) says only that it returns
  whether the thread could be stopped. It does not say what a retry does
  after a `stop` that timed out. In the code, a retried `stop` returns true
  only if the thread is still alive when the retry starts and ends during
  its wait. If the thread already ended, `stop` throws
  `IllegalStateException` ("Thread is not running.") before it reaches the
  line that clears the handle (Loop.java:118-120, 126). The handle is then
  never cleared, so every later `start` and `stop` throws too. See
  `Loops.LateExitLocksOut` and `Loops.DeadHandleIsPermanent`.
- `out()` does not reset the start mark. Two calls of `out()` after one
  `in()` measure from the same start (Clock.java:39-67).

## Model

| member | source | states |
|---|---|---|
| `Clocks.Clock.constructor` | src/main/java/com/particle_life/Clock.java:6-22 | A new clock has exactly n zero slots, no start mark (-1), index -1, dt, average and variance 0, and satisfies the clock invariant |
| `Clocks.Clock.In` | src/main/java/com/particle_life/Clock.java:36-38 | `in()` records the start mark and changes nothing else |
| `Clocks.Clock.Out` | src/main/java/com/particle_life/Clock.java:39-67 | Fails, changing nothing, exactly when no start mark was recorded. Otherwise it appends the elapsed time to the samples, moves the index to (old index + 1) mod n, writes dt into that slot only, recomputes average and variance of the whole buffer, and keeps the start mark |
| `Clocks.Clock.Tick` | src/main/java/com/particle_life/Clock.java:27-32 | First tick: only a start is recorded, no sample is stored. Later ticks: exactly one sample is stored, then a new start is recorded |
| `Clocks.Clock.IndexSafe` | src/main/java/com/particle_life/Clock.java:84-87 | Under the invariant, index -1 implies dt == 0. Otherwise the index is a slot of the buffer holding dt, which is why `getFramerate` never reads slot -1 |
| `Clocks.Clock.GetAvgDtMillis` | src/main/java/com/particle_life/Clock.java:71-73 | Returns the average of the whole buffer |
| `Clocks.Clock.GetAvgFramerate` | src/main/java/com/particle_life/Clock.java:74-77 | 0 when the buffer average is 0; otherwise the value r with r * average == 1000 |
| `Clocks.Clock.GetDtMillis` | src/main/java/com/particle_life/Clock.java:81-83 | 0 before the first sample; afterwards the most recent sample |
| `Clocks.Clock.GetFramerate` | src/main/java/com/particle_life/Clock.java:84-87 | 0 when dt is 0; otherwise r with r * (most recent sample) == 1000, read back from the buffer slot |
| `Clocks.Sums` | src/main/java/com/particle_life/Clock.java:58-63 | The accumulation loop produces the sum and the sum of squares of all slots |
| `Clocks.Statistics` | src/main/java/com/particle_life/Clock.java:54-66 | For one slot: that entry and variance 0. Otherwise the mean and (sum of squares - n * mean²)/(n - 1) |
| `Clocks.NextSlot` | src/main/java/com/particle_life/Clock.java:47-50 | The slot of each new sample is the previous index plus one, modulo n |
| `Clocks.SlotPrefix` | src/main/java/com/particle_life/Clock.java:47-50 | The first n samples go to slots 0 .. n-1 in order, so the first lands at 0 |
| `Clocks.SlotPeriodic` | src/main/java/com/particle_life/Clock.java:47-50 | A slot is reused exactly n samples later |
| `Clocks.RingPrefix` | src/main/java/com/particle_life/Clock.java:47-52 | After at most n samples the buffer holds them in order, followed by zeros |
| `Clocks.RingLatest` | src/main/java/com/particle_life/Clock.java:47-52 | A slot holds the j-th sample as long as no later sample was stored in the same slot |
| `Clocks.SlotShift` | src/main/java/com/particle_life/Clock.java:47-50 | k < n samples later, the slot has advanced by k, wrapping past the last slot |
| `Clocks.WindowDistinct` | src/main/java/com/particle_life/Clock.java:47-50 | Any n consecutive samples use n different slots, so the oldest sample is the one overwritten |
| `Clocks.LastWindow` | src/main/java/com/particle_life/Clock.java:47-52 | Once at least n samples were stored, the buffer is exactly the last n samples, rotated so that the oldest sits in the slot the window started at |
| `Clocks.LastWindowStats` | src/main/java/com/particle_life/Clock.java:10-13 | Once at least n samples were stored, the buffer is a permutation of the last n samples, and its average and variance are theirs |
| `Clocks.Clock.LastFrames` | src/main/java/com/particle_life/Clock.java:10-13 | For a filled clock, `avgDt` and `dtVariance` are the mean and sample variance of the last n durations, which the buffer holds as a multiset |
| `Clocks.FullWindow` | src/main/java/com/particle_life/Clock.java:54-66 | After exactly n samples the buffer equals them, so the reported statistics are their mean and sample variance |
| `Clocks.ZerosStats` | src/main/java/com/particle_life/Clock.java:14-22 | An all-zero buffer (a new clock) has average 0 and variance 0 |
| `Clocks.ConstantStats` | src/main/java/com/particle_life/Clock.java:54-66 | A buffer holding the same d everywhere has average d and variance 0. A one-slot buffer always has variance 0 and average equal to its entry |
| `Clocks.VarianceIsDeviations` | src/main/java/com/particle_life/Clock.java:58-65 | For two or more slots, the shortcut formula (squareSum - n avg^2) / (n - 1) equals the sum of squared deviations from the average divided by n - 1 |
| `Clocks.VarianceNonNegative` | src/main/java/com/particle_life/Clock.java:64-65 | The computed variance equals the sum of squared deviations from the average over n - 1, so it is never negative |
| `Clocks.AverageBounds` | src/main/java/com/particle_life/Clock.java:57-64 | The average of durations in [lo, hi] lies in [lo, hi] |
| `Clocks.ThreeSampleExample` | src/main/java/com/particle_life/Clock.java:57-65 | Three samples 10, 20, 30 in a 3-slot clock give average 20 and variance 100 |
| `Loops.CapDt` | src/main/java/com/particle_life/Loop.java:129-132 | The callback's time step is the minimum of cap and measured time: at most each, and equal to one of them |
| `Loops.DefaultCapExample` | src/main/java/com/particle_life/Loop.java:37 | With the default cap 1/20 s, a measured 0.2 s yields exactly 0.05 |
| `Loops.NegativeCapIsNotUnlimited` | src/main/java/com/particle_life/Loop.java:31-37 | For a negative cap and a non-negative measured time, the callback gets the negative cap, not the measured time, contrary to the "no limit" comment |
| `Loops.RunsCounts` | src/main/java/com/particle_life/Loop.java:84-89 | Running a drained queue executes each queued command exactly once and calls no callback |
| `Loops.IterationCounts` | src/main/java/com/particle_life/Loop.java:100-108 | One iteration executes every queued command and the mailbox command exactly once each (as multisets), and calls the callback once, or zero times when paused |
| `Loops.IterationOrder` | src/main/java/com/particle_life/Loop.java:100-108 | The trace is: clock tick, queued commands in insertion order, mailbox command, then the callback as the last action exactly when not paused |
| `Loops.PausedSkipsOnlyCallback` | src/main/java/com/particle_life/Loop.java:38-41 | A paused iteration never calls the callback, yet runs every queued command and the mailbox command |
| `Loops.StartStep` | src/main/java/com/particle_life/Loop.java:90-99 | `start` throws IllegalState exactly when a handle is stored, changing nothing. Otherwise it returns normally (no value, as `start` is `void`), sets the run flag and stores a live thread |
| `Loops.StopStep` | src/main/java/com/particle_life/Loop.java:116-128 | `stop` fails with no handle (the assert) or a dead thread (IllegalState), changing nothing. Otherwise it clears the run flag: if the thread ended within the wait, the handle is cleared and the result is true; if not, the result is false and the handle is kept |
| `Loops.ExitStep` | src/main/java/com/particle_life/Loop.java:93-97 | The thread ending marks it not alive and keeps the handle |
| `Loops.AtMostOneWorker` | src/main/java/com/particle_life/Loop.java:90-99 | In every state reachable from a new loop, a live thread has its handle stored, so `start` never succeeds while a worker is alive |
| `Loops.StopBeforeStartFails` | src/main/java/com/particle_life/Loop.java:116-120 | `stop` on a new loop fails |
| `Loops.DoubleStartFails` | src/main/java/com/particle_life/Loop.java:90-91 | After a successful `start`, any sequence of events with no `stop` that saw the thread end (other starts, failed or timed-out stops, the thread ending) leaves the next `start` throwing IllegalState |
| `Loops.NoCleanStopKeepsHandle` | src/main/java/com/particle_life/Loop.java:116-128 | A stored handle stays stored under every sequence of events that has no `stop` seeing the thread end: only line 126 clears it |
| `Loops.CleanStopAllowsRestart` | src/main/java/com/particle_life/Loop.java:126-127 | After `stop` returned true, `start` succeeds |
| `Loops.TimedOutStopKeepsHandle` | src/main/java/com/particle_life/Loop.java:122-125 | After `stop` returned false, `start` still throws. A retried `stop` returns true if the thread is alive and ends within the wait |
| `Loops.LateExitLocksOut` | src/main/java/com/particle_life/Loop.java:116-128 | If the thread ends after a timed-out `stop`, any sequence of `stop` calls and thread endings leaves the handle set and the thread dead; `start` and `stop` then throw IllegalState |
| `Loops.DeadHandleIsPermanent` | src/main/java/com/particle_life/Loop.java:118-120 | From a stored handle whose thread is dead, no sequence of events ever clears the handle |
| `Loops.Loop.constructor` | src/main/java/com/particle_life/Loop.java:37-46 | A new loop: cap 0.05 s, not paused, a fresh 60-slot clock, no thread, empty queue and mailbox |
| `Loops.Loop.Enqueue` | src/main/java/com/particle_life/Loop.java:68-71 | Appends the command at the back of the queue and changes nothing else |
| `Loops.Loop.DoOnce` | src/main/java/com/particle_life/Loop.java:81-83 | Replaces the mailbox content with the command, discarding any earlier one, and changes nothing else. A null command (None) empties the mailbox |
| `Loops.Loop.ProcessCommandQueue` | src/main/java/com/particle_life/Loop.java:84-89 | Runs exactly the queued commands, in insertion order, and leaves the queue empty |
| `Loops.Loop.ComputeDt` | src/main/java/com/particle_life/Loop.java:129-132 | The capped step is at most `maxDt` and at most the actual step, and equals one of them |
| `Loops.Loop.GetActualDt` | src/main/java/com/particle_life/Loop.java:141-143 | The most recent clock duration in seconds (0 before the first), uncapped |
| `Loops.Loop.GetAvgFramerate` | src/main/java/com/particle_life/Loop.java:153-155 | The clock's average frame rate: 0 for a zero average, else 1000 / average |
| `Loops.Loop.Iterate` | src/main/java/com/particle_life/Loop.java:100-108 | One iteration ticks the clock, then returns the trace for the old queue, old mailbox, pause flag and capped step; queue and mailbox are empty afterwards |
| `Loops.Loop.Start` | src/main/java/com/particle_life/Loop.java:90-99 | The method's result and new flags are exactly `StartStep` of the old flags |
| `Loops.Loop.Stop` | src/main/java/com/particle_life/Loop.java:116-128 | The method's result and new flags are exactly `StopStep` of the old flags |
| `Loops.Loop.WorkerContinues` | src/main/java/com/particle_life/Loop.java:94-96 | The worker continues exactly while the run flag is set; otherwise its thread ends |
| `Loops.MailboxOverwrite` | src/main/java/com/particle_life/Loop.java:72-83 | After `doOnce(x)` then `doOnce(y)`, the next iteration runs y from the mailbox, and never runs x unless x was queued or is y |
| `Loops.MailboxCancel` | src/main/java/com/particle_life/Loop.java:81-83 | After `doOnce(x)` then `doOnce(null)`, the next iteration has an empty mailbox (Loop.java:103-104 reads null and runs nothing), so x runs only if it was queued |
| `Range.Modulo` | src/main/java/com/particle_life/Range.java:74-87 | For b > 0 it terminates with the floored remainder `FloorMod(a, b)`: a value in [0, b) that differs from a by floor(a / b) * b. It returns a unchanged when 0 <= a < b |
| `Range.Wrap` | src/main/java/com/particle_life/Range.java:52-54 | Returns the wrapped value: in [-1, 1), and equal to the input when the input is already in [-1, 1) |
| `Range.Clamp` | src/main/java/com/particle_life/Range.java:55-62 | Lies in [-1, 1] and equals the input when it is already in [-1, 1] |
| `Range.WrappedRange` | src/main/java/com/particle_life/Range.java:52-54 | Wrapped values lie in [-1, 1) |
| `Range.WrappedFixed` | src/main/java/com/particle_life/Range.java:26-27 | Values in [-1, 1) are left untouched |
| `Range.WrappedIdempotent` | src/main/java/com/particle_life/Range.java:52-54 | Wrapping twice equals wrapping once |
| `Range.WrappedShift` | src/main/java/com/particle_life/Range.java:26-27 | Wrapping changes a value by an integer multiple of 2 |
| `Range.WrappedPeriodic` | src/main/java/com/particle_life/Range.java:52-54 | Inputs that differ by a multiple of 2 wrap to the same value |
| `Range.WrappedShortest` | src/main/java/com/particle_life/Range.java:37-38 | The wrapped displacement is the shortest of all displacements d + 2k, as the comment on `wrap(b - a)` says |
| `Range.ClampIdempotent` | src/main/java/com/particle_life/Range.java:55-62 | Clamping twice equals clamping once |
| `Range.ClampNearest` | src/main/java/com/particle_life/Range.java:12-13 | The clamped value is the point of [-1, 1] nearest to the input |
| `Range.WrapExamples` | src/main/java/com/particle_life/Range.java:32-34 | 0.4, -1.3 and 2.0 wrap to 0.4, 0.7 and 0.0 |
| `Range.WrapVector` | src/main/java/com/particle_life/Range.java:42-46 | x and y are replaced by their wrapped values and z by 0 |
| `Range.ClampVector` | src/main/java/com/particle_life/Range.java:47-51 | x and y are replaced by their clamped values and z by 0 |
| `Range.VectorExamples` | src/main/java/com/particle_life/Range.java:18-34 | (0.4, -1.3, 2.0) wraps to (0.4, 0.7, 0.0) and clamps to (0.4, -1.0, 0.0) |
| `Matrices.DefaultMatrix.constructor` | src/main/java/com/particle_life/DefaultMatrix.java:8-15 | A fresh size x size matrix with every cell 0 |
| `Matrices.DefaultMatrix.Zero` | src/main/java/com/particle_life/DefaultMatrix.java:16-22 | Every cell becomes 0; the size is a constant |
| `Matrices.DefaultMatrix.Size` | src/main/java/com/particle_life/DefaultMatrix.java:30-33 | Returns the number of rows, which equals the number of columns |
| `Matrices.DefaultMatrix.Get` | src/main/java/com/particle_life/DefaultMatrix.java:34-37 | Returns the stored cell (i, j) |
| `Matrices.DefaultMatrix.Set` | src/main/java/com/particle_life/DefaultMatrix.java:38-41 | Afterwards `get(i, j)` is the new value and every other cell is unchanged |
| `Matrices.DefaultMatrix.DeepCopy` | src/main/java/com/particle_life/DefaultMatrix.java:42-51 | Returns a fresh matrix with fresh storage, the same size and equal cells |
| `Matrices.DefaultMatrix.Equals` | src/main/java/com/particle_life/DefaultMatrix.java:52-69 | True exactly when the argument is a matrix of the same size with all size² cells equal; false for any non-matrix argument |
| `Matrices.EqualsReflexive` | src/main/java/com/particle_life/DefaultMatrix.java:52-69 | Every matrix equals itself |
| `Matrices.EqualsSizeMismatch` | src/main/java/com/particle_life/DefaultMatrix.java:55-57 | Matrices of different sizes are never equal |
| `Matrices.CopyEqualsOriginal` | src/main/java/com/particle_life/DefaultMatrix.java:43-51 | A deep copy equals the original and the original equals the copy |
| `Matrices.SetOnCopy` | src/main/java/com/particle_life/DefaultMatrix.java:44-47 | Setting a cell of a copy changes the copy and leaves the original untouched |
| `Matrices.SetOnOriginal` | src/main/java/com/particle_life/DefaultMatrix.java:44-47 | Setting a cell of the original leaves an earlier copy with all the original's old cells |

## Left out

- Threads: `Thread`, `join(millis)` and its timeout, and the memory ordering of `AtomicBoolean`, `AtomicReference` and `LinkedBlockingDeque` are not modelled. The worker is sequential calls of `Iterate` and `WorkerContinues`. "Alive" is a flag, and the outcome of the wait is the `exited` input of `Stop`. Concurrent deposits during a drain are outside a single-threaded model.
- Loops.Loop.Enqueue: takes a `Command`, which is never null. In the source, `enqueue(null)` throws NullPointerException from `LinkedBlockingDeque.addLast` (Loop.java:70); that error path is not modelled. `doOnce(null)` is modelled, as `DoOnce(None)`.
- What callbacks and commands do is not modelled. They are opaque identifiers in a trace. A command that itself calls `enqueue`, `doOnce` or sets `pause` during an iteration is therefore not covered. An exception escaping an iteration is only the `WorkerEnds` event.
- The callback object passed to `start` is not stored; `Start` records only that a thread exists.
- `System.nanoTime()` is replaced by timestamp inputs. A timestamp of exactly -1 is taken as "unset", as in the source.
- Floating point: durations, time steps, coordinates and matrix cells are reals. Rounding, overflow, NaN and -0.0 are not modelled, and neither is float `!=` in `equals`. Every numeric property here holds over reals, not necessarily over the source's `float` and `double`.
- Clocks.VarianceNonNegative: holds over reals only. The source computes `(squareSum - n*avgDt*avgDt)/(n-1)` in `float`, where cancellation can make the result slightly negative when all samples are (nearly) equal. `getStandardDeviation` then returns NaN.
- `Clock.getStandardDeviation` (Clock.java:78-80) is left out because there is no square root on reals here. It is the square root of `dtVariance`; over reals `Clocks.VarianceNonNegative` shows that value is never negative.
- Clocks.Clock.constructor: requires n >= 1. In the source, n == 0 builds a clock whose first `out()` throws ArrayIndexOutOfBoundsException, and a negative n throws at construction.
- Matrices.DefaultMatrix.constructor: the size is a `nat`, so a negative size (NegativeArraySizeException in the source) is excluded.
- Matrices.DefaultMatrix.Get: indices must be in range. Out-of-range `get` and `set` throw ArrayIndexOutOfBoundsException in the source, and the model has no such error path.
- `float[][] values` becomes one two-dimensional array. The source's public rows could be replaced or aliased from outside; that is not modelled.
- Matrices.DefaultMatrix.Equals: the argument is either a `DefaultMatrix` or "some other object". Other implementations of the `Matrix` interface do not exist in the repository and are not modelled.
- `DefaultMatrix.randomize`, `DefaultMatrixGenerator`, `DefaultPositionSetter` and `DefaultTypeSetter` depend on a random-number library that is not part of this model. `Matrix`, `MatrixGenerator` and `TypeSetter` are interfaces without logic.
- Range.Modulo: requires b > 0, as its documentation demands. With b <= 0 and a < 0, the source's loop would never end. Termination is proved over reals only: with `double`s, a step `a - b` or `a + b` that rounds back to `a` never makes progress. For |a| around 1e17 and b = 2 the loop never returns, so `wrap` hangs on such coordinates.
- `Loop.getAvgFramerate` and `Clock.getAvgFramerate` are modelled over reals, so `1000/avg` is exact.
