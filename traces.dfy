/**
 * The replayable trace (MainScript.Trace) and the synthetic trace generator
 * (MainScript.generateStubTrace).
 */
module Traces {
  import opened Wrappers
  import opened Events
  import opened TraceModel

  /** An append-only event list with a replay cursor created on first use. */
  class Trace {
    var events: seq<Event>
    var iter: Option<Cursor>

    ghost predicate Valid()
      reads this
    {
      WellFormed(State())
    }

    /** The value this trace stands for. */
    function State(): TraceState
      reads this
    {
      TraceState(events, iter)
    }

    constructor ()
      ensures Valid() && State() == TraceState([], None)
    {
      events := [];
      iter := None;
    }

    method Rewind()
      requires Valid()
      modifies this
      ensures Valid() && State() == TraceModel.Rewind(old(State()))
      ensures Remaining(State()) == events == old(events)
    {
      iter := Some(Cursor(0, |events|));
    }

    method GetNext() returns (r: Result<Event, IterError>)
      requires Valid()
      modifies this
      ensures Valid() && (r, State()) == TraceModel.GetNext(old(State()))
      ensures events == old(events)
    {
      if iter.None? {
        Rewind();
      }
      var c := iter.value;
      if c.expectedSize != |events| {
        r := Failure(ConcurrentModification);
      } else if c.pos >= |events| {
        r := Failure(NoSuchElement);
      } else {
        r := Success(events[c.pos]);
        iter := Some(Cursor(c.pos + 1, c.expectedSize));
      }
    }

    method HasNext() returns (b: bool)
      requires Valid()
      modifies this
      ensures Valid() && b == TraceModel.HasNext(old(State()))
      ensures State() == Started(old(State()))
    {
      if iter.None? {
        Rewind();
      }
      b := iter.value.pos != |events|;
    }

    method Add(event: Event)
      requires Valid()
      modifies this
      ensures Valid() && State() == TraceModel.Add(old(State()), event)
      ensures iter == old(iter)
    {
      events := events + [event];
    }
  }

  /** The synthetic trace's content: event `i` switches from thread `i` to thread `i + 1`. */
  function StubEvents(n: nat): (r: seq<Event>)
    requires n <= MaxInt32
    ensures |r| == n
  {
    if n == 0 then [] else StubEvents(n - 1) + [Event((n - 1) as int32, n as int32)]
  }

  /** Event `i` of the synthetic trace switches from thread `i` to thread `i + 1`. */
  lemma {:induction false} StubEventAt(n: nat, i: nat)
    requires n <= MaxInt32 && i < n
    ensures StubEvents(n)[i] == Event(i as int32, (i + 1) as int32)
  {
    if i < n - 1 {
      StubEventAt(n - 1, i);
    }
  }

  /** A fresh, never-replayed trace of `length` stub events (none when `length` is negative). */
  method GenerateStubTrace(length: int32) returns (trace: Trace)
    ensures fresh(trace) && trace.Valid()
    ensures trace.State() == TraceState(StubEvents(if length < 0 then 0 else length as nat), None)
  {
    trace := new Trace();
    var i: int32 := 0;
    while i < length
      invariant 0 <= i <= (if length < 0 then 0 else length)
      invariant trace.Valid() && trace.State() == TraceState(StubEvents(i as nat), None)
    {
      trace.Add(Event(i, i + 1));
      i := i + 1;
    }
  }
}
