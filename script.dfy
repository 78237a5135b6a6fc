/**
 * The script side of the benchmark (foo.js) as the script engine holds it
 * once loaded: the shared `result.count` counter, `handler.handleEvent` and
 * `module.process`, and the host's way of invoking them by name.
 */
module Script {
  import opened Wrappers
  import opened Events
  import opened TraceModel
  import opened Traces

  /** An invocation of a method the bound script object does not have (NoSuchMethodException). */
  datatype ScriptError = NoSuchMethod

  class ScriptEngine {
    /** `result.count`, written only by script code. */
    var count: int
    /** The events handed to `handler.handleEvent`, in call order. */
    ghost var handled: seq<Event>
    /** Whether the bound `handler` object has a `handleEvent` method and the bound `module` object a `process` method; foo.js gives both. */
    const definesHandleEvent: bool
    const definesProcess: bool

    /** A freshly evaluated script: the counter starts at zero. */
    constructor (definesHandleEvent: bool, definesProcess: bool)
      ensures count == 0 && handled == []
      ensures this.definesHandleEvent == definesHandleEvent && this.definesProcess == definesProcess
    {
      count := 0;
      handled := [];
      this.definesHandleEvent := definesHandleEvent;
      this.definesProcess := definesProcess;
    }

    /** `handler.handleEvent`: one more event counted, whatever the event. */
    method HandleEvent(event: Event)
      modifies this
      ensures count == old(count) + 1
      ensures handled == old(handled) + [event]
    {
      count := count + 1;
      handled := handled + [event];
    }

    /** `module.process`: walks the trace to its end, counting each event it takes. */
    method Process(trace: Trace)
      requires trace.Valid() && !Stale(trace.State())
      modifies this, trace
      ensures trace.Valid() && trace.State() == AtEnd(old(trace.State()))
      ensures count == old(count) + |Remaining(old(trace.State()))|
      ensures handled == old(handled)
    {
      var more := trace.HasNext();
      while more
        invariant trace.Valid() && !Stale(trace.State()) && trace.iter.Some?
        invariant trace.events == old(trace.events)
        invariant Position(old(trace.State())) <= Position(trace.State())
        invariant more <==> Position(trace.State()) < |trace.events|
        invariant count == old(count) + Position(trace.State()) - Position(old(trace.State()))
        invariant handled == old(handled)
        decreases |trace.events| - Position(trace.State())
      {
        var event := trace.GetNext();
        count := count + 1;
        more := trace.HasNext();
      }
    }

    /** The host calling `handleEvent` on the `handler` binding. */
    method InvokeHandleEvent(event: Event) returns (r: Outcome<ScriptError>)
      modifies this
      ensures r == if definesHandleEvent then Pass else Fail(NoSuchMethod)
      ensures definesHandleEvent ==> count == old(count) + 1 && handled == old(handled) + [event]
      ensures !definesHandleEvent ==> count == old(count) && handled == old(handled)
    {
      if !definesHandleEvent {
        return Fail(NoSuchMethod);
      }
      HandleEvent(event);
      r := Pass;
    }

    /** The host calling `process` on the `module` binding with the trace object. */
    method InvokeProcess(trace: Trace) returns (r: Outcome<ScriptError>)
      requires trace.Valid() && !Stale(trace.State())
      modifies this, trace
      ensures trace.Valid() && handled == old(handled)
      ensures r == if definesProcess then Pass else Fail(NoSuchMethod)
      ensures definesProcess ==>
                && trace.State() == AtEnd(old(trace.State()))
                && count == old(count) + |Remaining(old(trace.State()))|
      ensures !definesProcess ==> count == old(count) && trace.State() == old(trace.State())
    {
      if !definesProcess {
        return Fail(NoSuchMethod);
      }
      Process(trace);
      r := Pass;
    }
  }
}
