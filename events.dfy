/**
 * The event record replayed by the benchmark: a scheduler context switch
 * from one thread id to another (MainScript.Event).
 */
module Events {

  /** Java's 32-bit `int`. */
  newtype int32 = x: int | -0x8000_0000 <= x < 0x8000_0000

  const MaxInt32: int := 0x7fff_ffff

  /** An immutable `sched_switch` sample: the thread switched out and the one switched in. */
  datatype Event = Event(prevTid: int32, nextTid: int32) {

    function GetName(): string
    {
      "sched_switch"
    }

    function GetPrevTid(): int32
    {
      prevTid
    }

    function GetNextTid(): int32
    {
      nextTid
    }
  }

  /** The accessors give back the constructor's arguments, and every event is a `sched_switch`. */
  lemma AccessorsReturnArguments(prevTid: int32, nextTid: int32)
    ensures Event(prevTid, nextTid).GetPrevTid() == prevTid
    ensures Event(prevTid, nextTid).GetNextTid() == nextTid
    ensures Event(prevTid, nextTid).GetName() == "sched_switch"
  {
  }
}
