/** The replay ring (internal/sse/ring.go): a fixed buffer that always holds the last
    events of the full log, and the continuation it can offer a reconnecting client. */
module Rings {
  import opened Base
  import opened EventIds

  /** What a waiter matches on: the message and its normalized envelope recipients. */
  datatype MessageRef = MessageRef(id: nat, recipients: seq<string>)

  datatype Event = Event(id: EventID, name: string, data: string, message: Option<MessageRef>)

  /** The last n elements, or all of them when there are fewer. */
  function Tail<T>(log: seq<T>, n: nat): seq<T> {
    if |log| <= n then log else log[|log| - n..]
  }

  /** The bus numbers events 1, 2, 3, ... */
  ghost predicate Numbered(log: seq<Event>) {
    forall i :: 0 <= i < |log| ==> log[i].id.seqNo == i + 1
  }

  /** Whether a log kept to its last `size` events can continue a client at seqNo. */
  predicate CanContinue(log: seq<Event>, size: nat, seqNo: int) {
    if log == [] then seqNo == 0 else |log| - Min(|log|, size) <= seqNo <= |log|
  }

  /** A buffer read from its oldest element: the unwrapped part, or both halves. */
  function Unwrap<T>(buffer: seq<T>, len: nat, next: nat): seq<T>
    requires len <= |buffer| && next <= len
  {
    if next == 0 then buffer[..len] else buffer[next..len] + buffer[..next]
  }

  /** The slots hold the last events of the log, oldest at `next` once full. */
  ghost predicate Mirrors<T>(buffer: seq<T>, len: nat, next: nat, log: seq<T>) {
    && len == Min(|log|, |buffer|) && next < |buffer|
    && (len < |buffer| ==> next == 0)
    && Unwrap(buffer, len, next) == Tail(log, |buffer|)
  }

  lemma FillMirrors<T>(buffer: seq<T>, len: nat, log: seq<T>, ev: T)
    requires Mirrors(buffer, len, 0, log) && len < |buffer|
    ensures Mirrors(buffer[len := ev], len + 1, 0, log + [ev])
  {
  }

  function Succ(next: nat, size: nat): nat { if next + 1 == size then 0 else next + 1 }

  lemma OverwriteMirrors<T>(buffer: seq<T>, next: nat, log: seq<T>, ev: T)
    requires Mirrors(buffer, |buffer|, next, log)
    ensures Mirrors(buffer[next := ev], |buffer|, Succ(next, |buffer|), log + [ev])
  {
    var after := buffer[next := ev];
    assert Unwrap(after, |buffer|, Succ(next, |buffer|)) == Unwrap(buffer, |buffer|, next)[1..] + [ev];
    assert Tail(log + [ev], |buffer|) == Tail(log, |buffer|)[1..] + [ev];
  }

  lemma SuccIsModulo(next: nat, size: nat)
    requires next < size
    ensures (next + 1) % size == Succ(next, size)
  {
    if next + 1 == size { assert (next + 1) % size == 0; } else { assert (next + 1) % size == next + 1; }
  }

  lemma TailDrop<T>(log: seq<T>, n: nat, k: nat)
    requires k <= |Tail(log, n)|
    ensures Tail(log, n)[k..] == log[|log| - |Tail(log, n)| + k..]
  {
  }

  class Ring {
    const events: array<Event>
    var len: nat
    var next: nat
    ghost var log: seq<Event> // every event ever added

    ghost predicate Valid()
      reads this, events
    {
      Mirrors(events[..], len, next, log)
    }

    constructor (size: nat)
      requires size > 0
      ensures Valid() && log == [] && events.Length == size && fresh(events)
    {
      events := new Event[size];
      len, next, log := 0, 0, [];
    }

    method Add(ev: Event)
      requires Valid()
      modifies this`len, this`next, this`log, events
      ensures Valid() && log == old(log) + [ev]
    {
      ghost var before := events[..];
      if len < events.Length {
        FillMirrors(before, len, log, ev);
        events[len] := ev;
        assert events[..] == before[len := ev];
        len := len + 1;
      } else {
        OverwriteMirrors(before, next, log, ev);
        SuccIsModulo(next, events.Length);
        events[next] := ev;
        assert events[..] == before[next := ev];
        next := (next + 1) % events.Length;
      }
      log := log + [ev];
    }

    /** The buffered events, oldest first. */
    method Snapshot() returns (all: seq<Event>)
      requires Valid()
      ensures all == Tail(log, events.Length)
    {
      assert events[..][..len] == events[..len] && events[..][next..len] == events[next..len];
      if next == 0 {
        return events[..len];
      }
      return events[next..len] + events[..next];
    }

    /** The events after an id, or none when the gap cannot be closed. */
    method After(id: EventID) returns (missed: Option<seq<Event>>)
      requires Valid() && Numbered(log)
      ensures missed.Some? <==> CanContinue(log, events.Length, id.seqNo)
      ensures missed.Some? ==> missed.value == log[id.seqNo..]
    {
      var all := Snapshot();
      if |all| == 0 {
        return if id.seqNo == 0 then Some([]) else None;
      }
      TailDrop(log, events.Length, 0);
      var oldest, newest := all[0].id.seqNo, all[|all| - 1].id.seqNo;
      if id.seqNo < oldest - 1 || id.seqNo > newest {
        return None;
      }
      TailDrop(log, events.Length, |all| - (newest - id.seqNo));
      return Some(all[|all| - (newest - id.seqNo)..]);
    }
  }
}
