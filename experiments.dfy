/**
 * The two invocation strategies under measurement (MainScript.Experiment,
 * ExperimentInvokeForEach, ExperimentInvokeOnce) as one class tagged by
 * its strategy.
 */
module Experiments {
  import opened Wrappers
  import opened Events
  import opened TraceModel
  import opened Traces
  import opened Script

  /** The length of every experiment's trace, which is also the counter rise a pass checks for. */
  const TraceLength: int32 := 1000000

  datatype Strategy =
    | InvokeForEach  // one `handleEvent` call per event
    | InvokeOnce     // one `process` call that drains the trace

  /** One pass: it completed, printing the count-mismatch warning or not, or a script call failed. */
  datatype GoResult = Completed(warned: bool) | Failed(error: ScriptError)

  class Experiment {
    const strategy: Strategy
    const engine: ScriptEngine
    const trace: Trace
    /** The events of the trace, fixed when the experiment is made. */
    ghost const events: seq<Event>

    /** The experiment's own trace holds its events, and no event was added since its cursor was made. */
    ghost predicate Valid()
      reads this, trace
    {
      trace.Valid() && trace.events == events && |events| == TraceLength as int && !Stale(trace.State())
    }

    /** Whether the bound script object has the method this strategy invokes. */
    predicate Supported()
    {
      match strategy
      case InvokeForEach => engine.definesHandleEvent
      case InvokeOnce => engine.definesProcess
    }

    constructor (strategy: Strategy, engine: ScriptEngine)
      ensures Valid() && fresh(trace)
      ensures this.strategy == strategy && this.engine == engine
      ensures events == StubEvents(TraceLength as nat) && trace.State() == TraceState(events, None)
    {
      var stub := GenerateStubTrace(TraceLength);
      this.strategy := strategy;
      this.engine := engine;
      trace := stub;
      events := stub.events;
    }

    /** `before`: rewinds the trace, so that the whole of it remains to be replayed. */
    method Before()
      requires Valid()
      modifies trace
      ensures Valid() && trace.State() == Rewind(old(trace.State()))
      ensures Remaining(trace.State()) == events
    {
      trace.Rewind();
    }

    /**
     * What the runner does in each repetition: `before`, then `go`. A
     * supported strategy hands the script every event, so the counter rises
     * by exactly the trace length and the mismatch warning is not printed.
     */
    method BeforeThenGo() returns (r: GoResult)
      requires Valid()
      modifies trace, engine
      ensures Valid()
      ensures r == if Supported() then Completed(false) else Failed(NoSuchMethod)
      ensures Supported() ==>
                && engine.count == old(engine.count) + TraceLength as int
                && trace.State() == AtEnd(old(trace.State()))
      ensures Supported() && strategy.InvokeForEach? ==> engine.handled == old(engine.handled) + events
      ensures !Supported() || strategy.InvokeOnce? ==> engine.handled == old(engine.handled)
      ensures !Supported() ==> engine.count == old(engine.count)
      ensures !Supported() && strategy.InvokeForEach? ==>
                trace.State() == TraceModel.GetNext(Rewind(old(trace.State()))).1
      ensures !Supported() && strategy.InvokeOnce? ==> trace.State() == Rewind(old(trace.State()))
    {
      ghost var s0 := trace.State();
      Before();
      ghost var s1 := trace.State();
      assert s1 == Rewind(s0) && AtEnd(s1) == AtEnd(s0);
      assert Remaining(s1) == events && |Remaining(s1)| == TraceLength as int;
      r := Go();
    }

    /**
     * `go`: one pass of this experiment's strategy over what remains of the
     * trace. Without the method it invokes, InvokeForEach fails on the event
     * it has just taken, or completes with the warning when no event is
     * left; InvokeOnce fails with the trace untouched.
     */
    method Go() returns (r: GoResult)
      requires Valid()
      modifies trace, engine
      ensures Valid()
      ensures Supported() ==>
                && r == Completed(|Remaining(old(trace.State()))| != TraceLength as int)
                && trace.State() == AtEnd(old(trace.State()))
                && engine.count == old(engine.count) + |Remaining(old(trace.State()))|
      ensures Supported() && strategy.InvokeForEach? ==>
                engine.handled == old(engine.handled) + Remaining(old(trace.State()))
      ensures !Supported() || strategy.InvokeOnce? ==> engine.handled == old(engine.handled)
      ensures !Supported() ==> engine.count == old(engine.count)
      ensures !Supported() && strategy.InvokeForEach? ==>
                && (Remaining(old(trace.State())) == [] ==>
                      r == Completed(true) && trace.State() == AtEnd(old(trace.State())))
                && (Remaining(old(trace.State())) != [] ==>
                      r == Failed(NoSuchMethod) && trace.State() == TraceModel.GetNext(old(trace.State())).1)
      ensures !Supported() && strategy.InvokeOnce? ==>
                r == Failed(NoSuchMethod) && trace.State() == old(trace.State())
    {
      match strategy
      case InvokeForEach => r := GoInvokeForEach();
      case InvokeOnce => r := GoInvokeOnce();
    }

    /**
     * ExperimentInvokeForEach.go: calls `handleEvent` once per remaining
     * event, in trace order, then compares the counter's rise with the
     * trace length. The event is taken from the trace before the call, so
     * a failing call has already consumed it.
     */
    method GoInvokeForEach() returns (r: GoResult)
      requires Valid()
      modifies trace, engine
      ensures Valid()
      ensures engine.definesHandleEvent ==>
                && r == Completed(|Remaining(old(trace.State()))| != TraceLength as int)
                && trace.State() == Drain(old(trace.State())).1
                && engine.handled == old(engine.handled) + Drain(old(trace.State())).0
                && engine.count == old(engine.count) + |Remaining(old(trace.State()))|
      ensures !engine.definesHandleEvent ==>
                && engine.count == old(engine.count)
                && engine.handled == old(engine.handled)
                && (Remaining(old(trace.State())) == [] ==>
                      r == Completed(true) && trace.State() == AtEnd(old(trace.State())))
                && (Remaining(old(trace.State())) != [] ==>
                      r == Failed(NoSuchMethod) && trace.State() == TraceModel.GetNext(old(trace.State())).1)
    {
      ghost var start := trace.State();
      ghost var h0 := engine.handled;
      ghost var p0 := Position(start);
      var c1 := engine.count;
      var more := trace.HasNext();
      ghost var p := p0;
      while more
        invariant trace.Valid() && !Stale(trace.State()) && trace.iter.Some?
        invariant trace.events == events
        invariant p == Position(trace.State())
        invariant p0 <= p
        invariant more <==> p < |events|
        invariant engine.count == c1 + p - p0
        invariant engine.handled == h0 + events[p0..p]
        invariant !engine.definesHandleEvent ==> p == p0 && trace.State() == Started(start)
        decreases |events| - p
      {
        ghost var before := trace.State();
        var next := trace.GetNext();
        var call := engine.InvokeHandleEvent(next.value);
        if call.Fail? {
          assert before == Started(start);
          return Failed(call.error);
        }
        assert events[p0..p + 1] == events[p0..p] + [events[p]];
        p := p + 1;
        more := trace.HasNext();
      }
      var c2 := engine.count;
      r := Completed(c1 + TraceLength as int != c2);
    }

    /**
     * ExperimentInvokeOnce.go: one `process` call handed the trace itself,
     * then the same comparison of the counter's rise with the trace length.
     */
    method GoInvokeOnce() returns (r: GoResult)
      requires Valid()
      modifies trace, engine
      ensures Valid() && engine.handled == old(engine.handled)
      ensures engine.definesProcess ==>
                && r == Completed(|Remaining(old(trace.State()))| != TraceLength as int)
                && trace.State() == AtEnd(old(trace.State()))
                && engine.count == old(engine.count) + |Remaining(old(trace.State()))|
      ensures !engine.definesProcess ==>
                && r == Failed(NoSuchMethod)
                && trace.State() == old(trace.State())
                && engine.count == old(engine.count)
    {
      var c1 := engine.count;
      var call := engine.InvokeProcess(trace);
      if call.Fail? {
        return Failed(call.error);
      }
      var c2 := engine.count;
      r := Completed(c1 + TraceLength as int != c2);
    }
  }
}
