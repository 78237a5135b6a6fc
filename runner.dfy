/**
 * The measurement loop (MainScript.ExperimentRunner.execute). The clock is
 * not modelled: the duration of each pass is an input, one reading per pass.
 */
module Runner {
  import opened Events
  import opened TraceModel
  import opened Experiments

  /** One second, in nanoseconds: the least measured time before the loop may stop. */
  const MinElapsed: nat := 1_000_000_000

  /** The least number of passes before the loop may stop. */
  const MinRepeat: nat := 10

  /** The time accumulated over the first `k` passes. */
  function PrefixSum(durations: seq<nat>, k: nat): nat
    requires k <= |durations|
  {
    if k == 0 then 0 else PrefixSum(durations, k - 1) + durations[k - 1]
  }

  /** The loop stops once `elapsed < 1E9 || repeat < 10` is false, that is once both minimums are met. */
  predicate Done(elapsed: int, repeat: int)
  {
    elapsed >= MinElapsed && repeat >= MinRepeat
  }

  /** After `k` passes the loop goes on to another one. */
  predicate Continues(durations: seq<nat>, k: nat)
    requires k <= |durations|
  {
    !Done(PrefixSum(durations, k), k)
  }

  /** The readings last until the loop stops: after all of them both minimums are met. */
  predicate Covers(durations: seq<nat>)
  {
    Done(PrefixSum(durations, |durations|), |durations|)
  }

  /** The first pass count, from `k` on, at which the loop stops. */
  function StopFrom(durations: seq<nat>, k: nat): (r: nat)
    requires k <= |durations| && Covers(durations)
    ensures k <= r <= |durations|
    ensures Done(PrefixSum(durations, r), r)
    ensures forall j :: k <= j < r ==> Continues(durations, j)
    decreases |durations| - k
  {
    if Done(PrefixSum(durations, k), k) then k else StopFrom(durations, k + 1)
  }

  /** Accumulated time never decreases: durations are not negative. */
  lemma {:induction false} PrefixSumMonotone(durations: seq<nat>, i: nat, j: nat)
    requires i <= j <= |durations|
    ensures PrefixSum(durations, i) <= PrefixSum(durations, j)
    decreases j
  {
    if i < j {
      PrefixSumMonotone(durations, i, j - 1);
    }
  }

  /**
   * The pass count of an uninterrupted run is the least `k >= 10` whose
   * accumulated time reaches one second.
   */
  lemma StopIsLeast(durations: seq<nat>, k: nat)
    requires Covers(durations) && k <= |durations|
    ensures StopFrom(durations, 0) == k <==>
              && k >= MinRepeat
              && PrefixSum(durations, k) >= MinElapsed
              && (k == MinRepeat || PrefixSum(durations, k - 1) < MinElapsed)
  {
    var s := StopFrom(durations, 0);
    assert !Continues(durations, s);
    if k >= MinRepeat && PrefixSum(durations, k) >= MinElapsed
       && (k == MinRepeat || PrefixSum(durations, k - 1) < MinElapsed)
    {
      forall j | 0 <= j < k
        ensures Continues(durations, j)
      {
        if j >= MinRepeat {
          PrefixSumMonotone(durations, j, k - 1);
        }
      }
      assert !Continues(durations, k);
    }
    if s == k && k > MinRepeat {
      assert Continues(durations, k - 1);
    }
  }

  /** Passes that each take a second or more still make ten passes. */
  lemma SlowPassesStillRunTen(durations: seq<nat>)
    requires Covers(durations)
    requires forall i :: 0 <= i < |durations| ==> durations[i] >= MinElapsed
    ensures StopFrom(durations, 0) == MinRepeat
  {
    PrefixSumMonotone(durations, 1, MinRepeat);
    StopIsLeast(durations, MinRepeat);
  }

  /** A clock that never advances never lets the loop stop. */
  lemma {:induction false} FrozenClockNeverStops(durations: seq<nat>, k: nat)
    requires k <= |durations|
    requires forall i :: 0 <= i < |durations| ==> durations[i] == 0
    ensures PrefixSum(durations, k) == 0 && Continues(durations, k)
  {
    if k > 0 {
      FrozenClockNeverStops(durations, k - 1);
    }
  }

  /** The events `handleEvent` receives over `n` complete passes: the trace, `n` times over. */
  ghost function Repeated(events: seq<Event>, n: nat): (r: seq<Event>)
    ensures |r| == n * |events|
  {
    if n == 0 then [] else Repeated(events, n - 1) + events
  }

  /**
   * What one `execute` call leaves behind: the accumulated time, the number
   * of completed passes, and whether a script call failure ended the loop.
   */
  datatype RunStats = RunStats(elapsed: nat, repeat: nat, failed: bool)

  /**
   * `execute`: rewind and run passes until at least one second has been
   * measured over at least ten passes; a failing pass ends the loop at once,
   * without counting its time or itself.
   */
  method Execute(ex: Experiment, durations: seq<nat>) returns (stats: RunStats)
    requires ex.Valid() && Covers(durations)
    modifies ex.trace, ex.engine
    ensures ex.Valid()
    ensures stats.repeat <= |durations| && stats.elapsed == PrefixSum(durations, stats.repeat)
    ensures stats.failed <==> !ex.Supported()
    ensures stats.failed ==> stats.repeat == 0
    ensures !stats.failed ==> stats.repeat == StopFrom(durations, 0) && Done(stats.elapsed, stats.repeat)
    ensures ex.engine.count == old(ex.engine.count) + stats.repeat * TraceLength as int
    ensures ex.strategy.InvokeForEach? ==>
              ex.engine.handled == old(ex.engine.handled) + Repeated(ex.events, stats.repeat)
    ensures ex.strategy.InvokeOnce? ==> ex.engine.handled == old(ex.engine.handled)
    ensures !stats.failed ==> ex.trace.State() == AtEnd(old(ex.trace.State()))
    ensures stats.failed && ex.strategy.InvokeForEach? ==>
              ex.trace.State() == TraceModel.GetNext(Rewind(old(ex.trace.State()))).1
    ensures stats.failed && ex.strategy.InvokeOnce? ==> ex.trace.State() == Rewind(old(ex.trace.State()))
  {
    var elapsed: nat := 0;
    var repeat: nat := 0;
    var failed := false;
    while elapsed < MinElapsed || repeat < MinRepeat
      invariant ex.Valid()
      invariant repeat <= |durations| && elapsed == PrefixSum(durations, repeat)
      invariant forall j :: 0 <= j < repeat ==> Continues(durations, j)
      invariant repeat > 0 ==> ex.Supported()
      invariant !failed
      invariant ex.engine.count == old(ex.engine.count) + repeat * TraceLength as int
      invariant ex.strategy.InvokeForEach? ==>
                  ex.engine.handled == old(ex.engine.handled) + Repeated(ex.events, repeat)
      invariant ex.strategy.InvokeOnce? ==> ex.engine.handled == old(ex.engine.handled)
      invariant repeat == 0 ==> ex.trace.State() == old(ex.trace.State())
      invariant repeat > 0 ==> ex.trace.State() == AtEnd(old(ex.trace.State()))
      decreases |durations| - repeat
    {
      ghost var h := ex.engine.handled;
      var r := ex.BeforeThenGo();
      if r.Failed? {
        failed := true;
        break;
      }
      assert Continues(durations, repeat);
      assert ex.strategy.InvokeForEach? ==> ex.engine.handled == h + ex.events;
      elapsed := elapsed + durations[repeat];
      repeat := repeat + 1;
    }
    if !failed {
      assert !Continues(durations, repeat);
      assert !Continues(durations, StopFrom(durations, 0));
    }
    stats := RunStats(elapsed, repeat, failed);
  }
}
