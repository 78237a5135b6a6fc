/**
 * The value model of a Trace: its event list and its replay cursor.
 *
 * The cursor is Java's ArrayList iterator. It is absent until first used
 * (`fIter == null`), and once made it remembers its position and the list
 * size at the time it was made, which is how the iterator notices a list
 * that grew underneath it.
 */
module TraceModel {
  import opened Wrappers
  import opened Events

  /** A live iterator: the index of the next event and the list size it expects. */
  datatype Cursor = Cursor(pos: nat, expectedSize: nat)

  datatype TraceState = TraceState(events: seq<Event>, iter: Option<Cursor>)

  /** Why `getNext` fails: the list grew since the cursor was made, or no event is left. */
  datatype IterError = ConcurrentModification | NoSuchElement

  ghost predicate WellFormed(t: TraceState)
  {
    t.iter.Some? ==> t.iter.value.pos <= t.iter.value.expectedSize <= |t.events|
  }

  /** The cursor was made before the last `add`. */
  predicate Stale(t: TraceState)
  {
    t.iter.Some? && t.iter.value.expectedSize != |t.events|
  }

  /** `rewind`: a new cursor at the first event. */
  function Rewind(t: TraceState): TraceState
  {
    t.(iter := Some(Cursor(0, |t.events|)))
  }

  /** The lazy creation that `hasNext` and `getNext` perform when no cursor exists yet. */
  function Started(t: TraceState): TraceState
  {
    if t.iter.None? then Rewind(t) else t
  }

  /** `add`: the list grows by one event at its end; the cursor is kept as it is. */
  function Add(t: TraceState, e: Event): TraceState
  {
    t.(events := t.events + [e])
  }

  /** The index of the event the replay hands out next; a cursor not yet created starts at the first. */
  function Position(t: TraceState): (p: nat)
    requires WellFormed(t)
    ensures p <= |t.events|
  {
    if t.iter.None? then 0 else t.iter.value.pos
  }

  /** The events a replay from the current state still has to hand out. */
  function Remaining(t: TraceState): seq<Event>
    requires WellFormed(t)
  {
    t.events[Position(t)..]
  }

  /** The state of a trace whose current cursor has handed out every event. */
  function AtEnd(t: TraceState): TraceState
  {
    TraceState(t.events, Some(Cursor(|t.events|, |t.events|)))
  }

  /** `hasNext`: true exactly when some event remains. */
  function HasNext(t: TraceState): (b: bool)
    requires WellFormed(t)
    ensures b <==> Position(t) < |t.events|
  {
    Started(t).iter.value.pos != |t.events|
  }

  /** `hasNext` holds exactly when some event remains to be replayed. */
  lemma HasNextIffEventRemains(t: TraceState)
    requires WellFormed(t)
    ensures HasNext(t) <==> Remaining(t) != []
  {
  }

  /**
   * `getNext`: the event at the cursor, and the state after it; the cursor
   * is created first if absent, and it moves only on success.
   */
  function GetNext(t: TraceState): (r: (Result<Event, IterError>, TraceState))
    requires WellFormed(t)
    ensures WellFormed(r.1) && r.1.events == t.events
    ensures Stale(t) ==> r == (Failure(ConcurrentModification), t)
    ensures !Stale(t) && !HasNext(t) ==> r == (Failure(NoSuchElement), AtEnd(t))
    ensures !Stale(t) && HasNext(t) ==>
              && r.0 == Success(t.events[Position(t)])
              && r.1.iter.Some? && Position(r.1) == Position(t) + 1
              && !Stale(r.1)
  {
    var s := Started(t);
    var c := s.iter.value;
    if c.expectedSize != |s.events| then
      (Failure(ConcurrentModification), s)
    else if c.pos >= |s.events| then
      (Failure(NoSuchElement), s)
    else
      (Success(s.events[c.pos]), s.(iter := Some(Cursor(c.pos + 1, c.expectedSize))))
  }

  /** On a live cursor, `getNext` hands out the first remaining event and leaves the rest to come. */
  lemma GetNextTakesFirstRemaining(t: TraceState)
    requires WellFormed(t) && !Stale(t) && HasNext(t)
    ensures GetNext(t).0 == Success(Remaining(t)[0])
    ensures Remaining(GetNext(t).1) == Remaining(t)[1..]
  {
  }

  /**
   * The replay loop `while (hasNext()) getNext()`: the events it yields, in
   * order, and the state it leaves behind.
   */
  function Drain(t: TraceState): (r: (seq<Event>, TraceState))
    requires WellFormed(t) && !Stale(t)
    ensures r.0 == Remaining(t)
    ensures r.1 == AtEnd(t) && WellFormed(r.1) && !Stale(r.1) && !HasNext(r.1)
    decreases |t.events| - Position(t)
  {
    if HasNext(t) then
      var (next, t') := GetNext(t);
      var (rest, t'') := Drain(t');
      ([next.value] + rest, t'')
    else
      ([], Started(t))
  }

  /** A call of the replay protocol that does not add events. */
  datatype ReadOp = RewindOp | HasNextOp | GetNextOp

  /** The state after the calls `ops`, the first applied first. */
  function Replay(t: TraceState, ops: seq<ReadOp>): (r: TraceState)
    requires WellFormed(t)
    ensures WellFormed(r) && r.events == t.events
    decreases |ops|
  {
    if ops == [] then t
    else
      var t' := match ops[0]
        case RewindOp => Rewind(t)
        case HasNextOp => Started(t)
        case GetNextOp => GetNext(t).1;
      Replay(t', ops[1..])
  }

  /** Rewinding twice is rewinding once. */
  lemma RewindIdempotent(t: TraceState)
    ensures Rewind(Rewind(t)) == Rewind(t)
  {
  }

  /** A trace never rewound replays from its first event. */
  lemma LazyCursorStartsAtFirst(t: TraceState)
    requires t.iter.None?
    ensures Remaining(t) == t.events
    ensures HasNext(t) <==> t.events != []
    ensures t.events != [] ==> GetNext(t).0 == Success(t.events[0])
  {
    assert t.events[0..] == t.events;
  }

  /** After `rewind`, draining yields the whole event list in order and leaves the cursor at its end. */
  lemma DrainAfterRewind(t: TraceState)
    ensures Drain(Rewind(t)).0 == t.events
    ensures !HasNext(Drain(Rewind(t)).1)
  {
  }

  /**
   * Restartability: whatever replay calls came before, a rewind followed by
   * a drain yields the event list the trace started with.
   */
  lemma {:induction false} DrainAfterAnyHistory(t: TraceState, ops: seq<ReadOp>)
    requires WellFormed(t)
    ensures Drain(Rewind(Replay(t, ops))).0 == t.events
  {
    DrainAfterRewind(Replay(t, ops));
  }

  /** `add` appends exactly one event at the end and leaves the earlier ones in place. */
  lemma AddAppends(t: TraceState, e: Event)
    ensures |Add(t, e).events| == |t.events| + 1
    ensures Add(t, e).events[|t.events|] == e
    ensures Add(t, e).events[..|t.events|] == t.events
  {
  }
}
