# Script-invocation micro-benchmark, modelled in Dafny

The benchmark (`src/bidon/MainScript.java` with the script `src/foo.js`)
measures what it costs a Java host to call script functions. It builds a
synthetic trace of 1,000,000 `sched_switch` events. It then replays that
trace under two strategies: one `handler.handleEvent` call per event
(`ExperimentInvokeForEach`), or one `module.process` call that walks the
trace itself (`ExperimentInvokeOnce`). Each pass checks that the script's
`result.count` rose by exactly 1,000,000. A runner repeats passes until at
least one second has been measured over at least ten passes, and it stops
at once if the bound script object has no method of the invoked name.

The model has one module per part of the program:

- `Wrappers`: `Option`, `Result` and `Outcome`.
- `Events`: the immutable `Event` record with Java's 32-bit `int` thread ids.
- `TraceModel`: the trace as a value. It holds the event list and the
  replay cursor. The cursor is Java's `ArrayList` iterator: absent until
  first used, created by `rewind`, and remembering the list size at
  creation so that it can fail fast. Over this value the module defines
  `hasNext`, `getNext`, `add`, and the replay loop `Drain`.
- `Traces`: the `Trace` class, whose methods are proved against
  `TraceModel`, and `generateStubTrace` as an appending loop.
- `Script`: the loaded script as the engine holds it. It has the
  `result.count` counter, `handleEvent`, `process`, and the host's
  invocation of either by name. Invoking `handleEvent` when the bound
  `handler` object has no such method, or `process` when the bound `module`
  object has none, fails with `NoSuchMethod`.
- `Experiments`: one `Experiment` class tagged with its strategy. It has
  `before`, the two `go` bodies, and `BeforeThenGo` (one runner repetition:
  `before` then `go`).
- `Runner`: the `execute` loop. The clock is an input: one duration in
  nanoseconds per pass. The stopping rule is specified by prefix sums of
  those durations.

The main end-to-end facts are these:

- `Experiment.BeforeThenGo`: when the bound script object has the method
  the strategy invokes, a pass over a freshly rewound 1,000,000-event trace
  raises the counter by exactly 1,000,000, so the mismatch warning is never
  printed. When it does not, the pass fails with `NoSuchMethod` and the
  counter is unchanged.
- `Runner.StopIsLeast` and `Runner.Execute`: an uninterrupted run makes
  exactly the least number of passes `k >= 10` whose durations add up to
  at least one second.

The loop keeps running while `elapsed < 1E9 || repeat < 10`. So a pass
that takes a second or more still leads to ten passes
(`Runner.SlowPassesStillRunTen`), and a clock that never advances never
lets the loop stop (`Runner.FrozenClockNeverStops`).

## Model

| member | source | states |
|---|---|---|
| Events.AccessorsReturnArguments | src/bidon/MainScript.java:33-49 | `getPrevTid` and `getNextTid` return the constructor's arguments unchanged, and `getName` is always `"sched_switch"` |
| TraceModel.HasNext | src/bidon/MainScript.java:69-74 | true exactly when an event remains after the cursor; a trace with no cursor yet counts from the first event |
| TraceModel.HasNextIffEventRemains | src/bidon/MainScript.java:69-74 | `hasNext` holds if and only if some event remains to be replayed |
| TraceModel.GetNext | src/bidon/MainScript.java:62-67 | never changes the event list. If an `add` happened since the cursor was made, it fails with a concurrent-modification error and changes nothing. If no event remains, it fails with no-such-element and the cursor ends up at the end. Otherwise it returns the event at the cursor and advances the cursor by exactly one |
| TraceModel.GetNextTakesFirstRemaining | src/bidon/MainScript.java:62-67 | a successful `getNext` yields the first of the remaining events, and the rest remain in the same order |
| TraceModel.Drain | src/bidon/MainScript.java:62-74 | the loop `while (hasNext()) getNext()` yields exactly the remaining events, in order. It leaves the cursor at the end of the list, where `hasNext` is false |
| TraceModel.Replay | src/bidon/MainScript.java:58-74 | any sequence of `rewind`, `hasNext` and `getNext` calls keeps the cursor within the list and never changes the event list |
| TraceModel.RewindIdempotent | src/bidon/MainScript.java:58-60 | rewinding twice leaves the same state as rewinding once |
| TraceModel.LazyCursorStartsAtFirst | src/bidon/MainScript.java:62-74 | on a trace never rewound, the whole list remains, `hasNext` holds exactly when the list is non-empty, and `getNext` returns the first event |
| TraceModel.DrainAfterRewind | src/bidon/MainScript.java:58-60 | after `rewind`, draining yields the whole event list in order and ends with `hasNext` false |
| TraceModel.DrainAfterAnyHistory | src/bidon/MainScript.java:58-74 | whatever replay calls came before, a rewind followed by a drain yields the event list the trace started with |
| TraceModel.AddAppends | src/bidon/MainScript.java:75-77 | `add` lengthens the list by one, puts the event last, and leaves every earlier event in place |
| Traces.Trace.constructor | src/bidon/MainScript.java:51-56 | a new trace has no events and no cursor |
| Traces.Trace.Rewind | src/bidon/MainScript.java:58-60 | the trace moves to the state `TraceModel.Rewind` describes; every event remains to be replayed; the events are unchanged |
| Traces.Trace.GetNext | src/bidon/MainScript.java:62-67 | the result and the new state are those `TraceModel.GetNext` gives for the old state |
| Traces.Trace.HasNext | src/bidon/MainScript.java:69-74 | the answer is `TraceModel.HasNext` of the old state; the only change is the lazily created cursor |
| Traces.Trace.Add | src/bidon/MainScript.java:75-77 | the state becomes `TraceModel.Add` of the old state, and the cursor is kept as it was |
| Traces.StubEvents | src/bidon/MainScript.java:80-86 | the synthetic event list for length `n` has exactly `n` events |
| Traces.StubEventAt | src/bidon/MainScript.java:80-86 | event `i` of the synthetic list has prevTid `i` and nextTid `i + 1` |
| Traces.GenerateStubTrace | src/bidon/MainScript.java:80-86 | returns a fresh trace with no cursor whose events are the synthetic list of `length` events (none for a negative length) |
| Script.ScriptEngine.constructor | src/foo.js:13 | `result.count` starts at 0 and no event has been handled |
| Script.ScriptEngine.HandleEvent | src/foo.js:16-18 | `result.count` rises by exactly 1 whatever the event is |
| Script.ScriptEngine.Process | src/foo.js:21-26 | `result.count` rises by exactly the number of events remaining at call time. The cursor ends at the end of the trace, so `hasNext` is false, and the trace's events are unchanged |
| Script.ScriptEngine.InvokeHandleEvent | src/bidon/MainScript.java:116 | the call succeeds and counts the event exactly when the bound `handler` object has a `handleEvent` method; otherwise it fails with `NoSuchMethod` and changes nothing |
| Script.ScriptEngine.InvokeProcess | src/bidon/MainScript.java:138 | the call succeeds with the effect of `process` exactly when the bound `module` object has a `process` method; otherwise it fails with `NoSuchMethod` and leaves the counter and the trace as they were |
| Experiments.Experiment.constructor | src/bidon/MainScript.java:91-94 | the experiment owns a fresh trace of the 1,000,000 synthetic events, not yet replayed |
| Experiments.Experiment.Before | src/bidon/MainScript.java:95-97 | the trace is rewound, so the whole event list remains to be replayed |
| Experiments.Experiment.BeforeThenGo | src/bidon/MainScript.java:151-154 | `before` then `go`. When the bound object has the method the strategy invokes: the counter rises by exactly 1,000,000, the mismatch warning is not printed, and the cursor ends at the end of the trace. InvokeForEach also hands `handleEvent` the whole event list in order. Without that method: the pass fails with `NoSuchMethod`, and the counter and the handled events are unchanged. The trace is left rewound, and for InvokeForEach its first event has been taken. InvokeOnce never hands events to `handleEvent` |
| Experiments.Experiment.Go | src/bidon/MainScript.java:108-143 | when the bound object has the method the strategy invokes: the counter rises by the number of remaining events, the cursor ends at the end of the trace, and the result warns exactly when that number is not 1,000,000. InvokeForEach also hands exactly the remaining events to `handleEvent`, in order. Without that method the counter and the handled events are unchanged. InvokeOnce fails with the trace untouched. InvokeForEach fails after taking one event when an event remains; when none remains it makes no call and completes with the warning |
| Experiments.Experiment.GoInvokeForEach | src/bidon/MainScript.java:112-121 | `handleEvent` receives each remaining event once, in trace order, as the drain yields them. The counter rises by their number, and the result warns exactly when that number is not 1,000,000. Without `handleEvent` the first call fails after its event has been taken from the trace |
| Experiments.Experiment.GoInvokeOnce | src/bidon/MainScript.java:135-142 | a single `process` call drains the trace. The counter rises by the number of events remaining, and the result warns exactly when that number is not 1,000,000. Without `process` the pass fails with the trace untouched |
| Runner.StopFrom | src/bidon/MainScript.java:150 | the first pass count from `k` on at which the loop condition is false; the loop continues after every count before it |
| Runner.PrefixSumMonotone | src/bidon/MainScript.java:161 | accumulated elapsed time never decreases from one pass to a later one |
| Runner.StopIsLeast | src/bidon/MainScript.java:150 | an uninterrupted run stops after `k` passes if and only if `k >= 10`, the first `k` durations reach one second, and either `k` is 10 or the first `k - 1` did not reach one second |
| Runner.SlowPassesStillRunTen | src/bidon/MainScript.java:150 | passes of one second or more each still make exactly ten passes |
| Runner.FrozenClockNeverStops | src/bidon/MainScript.java:150 | if every pass measures zero time, the loop continues after any number of passes |
| Runner.Execute | src/bidon/MainScript.java:147-163 | a normal exit has `elapsed >= 1E9` and `repeat >= 10`, after exactly `StopFrom(durations, 0)` passes. `elapsed` is the sum of the completed passes' durations. Per completed pass, the counter rose by 1,000,000 and, under InvokeForEach, `handleEvent` received the whole event list once more, in order. The trace's cursor is left at its end. A failing `go` ends the loop at once: no pass is counted, the counter and the handled events are unchanged, and the trace is left as that failing pass left it |

## Left out

- `main` (src/bidon/MainScript.java:170-209): argument echo, the file existence check, reading the script, engine lookup, the experiment list, exception printing and the `done` line are I/O and wiring.
- The `javax.script` engine itself (`eval`, `Invocable.invokeMethod`, `Bindings.get`). It is replaced by `Script.ScriptEngine`, which runs the functions of `src/foo.js` directly. Two flags say whether the loaded script defines `handleEvent` and `process`.
- A script that binds no `handler`, `module` or `result` object (src/bidon/MainScript.java:112-114, 135-137): `Bindings.get` gives null, and the resulting `NullPointerException` or `IllegalArgumentException` is not caught by `execute` (line 155) or by `main` (lines 201-207), so the program ends; not modelled.
- Script runtime errors other than a missing method (`ScriptException`): foo.js raises none, so only `NoSuchMethod` is modelled as a failing `go`.
- `System.nanoTime` (src/bidon/MainScript.java:152, 159): each pass's duration is an input, a sequence of non-negative nanosecond counts.
- Runner.Execute: requires that the given durations last until the loop stops (`Covers`). A run whose clock never reaches one second does not terminate in the source, and it is not modelled beyond `Runner.FrozenClockNeverStops`.
- The metric `(double)elapsed / (repeat * 1E9 * 1E6)` and its printed line (src/bidon/MainScript.java:164-166): floating point and output.
- The `long` width of `elapsed` and `repeat`, and the `double` comparison against `1E9`: the model uses unbounded integers, and no realistic run comes near `long` overflow.
- The `Double` nature of `result.count` (src/foo.js:13): it is an integer here, because increments of 1 are exact at these magnitudes.
- `console`, `print`, `print_event` and the log lines of src/foo.js:1-11 and 28: output only. The "houston" line is modelled as the `warned` flag of a completed pass.
- The empty `go()` of the abstract `Experiment` (src/bidon/MainScript.java:98-99): only the two concrete strategies are ever run.
- Script.ScriptEngine.Process: requires that no event was added since the trace's cursor was made. On such a trace the source's `getNext` would throw from inside the script; every caller here replays a trace to which nothing is added after generation.
- The `ArrayList` modification count is simplified to the list size. Since the only mutation is `add`, the two detect the same changes.
