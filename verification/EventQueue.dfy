/**
 The bounded event queue: a buffered channel with a capacity check in front of it.
 */
module EventQueue {
  import opened Float64

  datatype Event = Event(id: string, talentID: string, rawMetric: Float, skill: string)

  const DEFAULT_CAPACITY := 100000
  const DEFAULT_BUFFER_SIZE := 100000

  class InMemoryQueue {
    /** The contents of the channel, next to be received first. */
    var events: seq<Event>
    const capacity: int
    const bufferSize: int
    var closed: bool

    ghost predicate Valid()
      reads this
    {
      0 < capacity && |events| <= bufferSize
    }

    /** Options that are not positive leave the defaults in place. */
    constructor (capacity: int, bufferSize: int)
      ensures Valid() && events == [] && !closed
      ensures this.capacity == if capacity > 0 then capacity else DEFAULT_CAPACITY
      ensures this.bufferSize == if bufferSize > 0 then bufferSize else DEFAULT_BUFFER_SIZE
    {
      events, closed := [], false;
      this.capacity := if capacity > 0 then capacity else DEFAULT_CAPACITY;
      this.bufferSize := if bufferSize > 0 then bufferSize else DEFAULT_BUFFER_SIZE;
    }

    /** The caller may have been cancelled; with room left, either select branch may then be taken. */
    method Enqueue(e: Event, cancelled: bool) returns (ok: bool)
      requires Valid()
      modifies this`events
      ensures Valid()
      ensures events == if ok then old(events) + [e] else old(events)
      ensures ok ==> !closed && |old(events)| < capacity && |old(events)| < bufferSize
      ensures !ok ==> closed || |old(events)| >= capacity || |old(events)| >= bufferSize || cancelled
    {
      if closed {
        return false;
      }
      if |events| >= capacity {
        return false;
      }
      if cancelled {
        if * {
          return false;
        }
      }
      if |events| < bufferSize {
        events := events + [e];
        return true;
      }
      ok := false;
    }

    /** The forwarder's receive: the oldest event, or the end of a closed and drained channel. */
    method Receive() returns (e: Event, ok: bool)
      requires Valid() && (events != [] || closed)
      modifies this`events
      ensures Valid() && (ok <==> old(events) != [])
      ensures ok ==> old(events) == [e] + events
      ensures !ok ==> events == []
    {
      if events == [] {
        return Event("", "", NaN, ""), false;
      }
      e, ok, events := events[0], true, events[1..];
    }

    method Len() returns (n: int)
      ensures n == |events|
    {
      n := |events|;
    }

    method Close()
      modifies this`closed
      ensures closed
    {
      if closed { return; }
      closed := true;
    }
  }
}
