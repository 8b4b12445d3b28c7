/** The event bus (internal/sse/bus.go, waiters.go): one owner of the replay ring, the
    subscribers and the waiters. Each method is one turn of its loop. */
module Bus {
  import opened Base
  import opened EventIds
  import opened Rings

  const RING_SIZE: nat := 1024
  const SUBSCRIBER_BUFFER: nat := 64

  datatype Publication = Publication(name: string, data: string, message: Option<MessageRef>)

  lemma SliceMore<T>(all: seq<T>, log: seq<T>, ev: T, start: nat)
    requires start <= |log| && all <= log[start..]
    ensures all <= (log + [ev])[start..]
    ensures all == log[start..] ==> all + [ev] == (log + [ev])[start..]
  {
    assert (log + [ev])[start..] == log[start..] + [ev];
  }

  /** One client's view of the bus. A closed channel can still be drained. */
  class Subscription {
    const replay: seq<Event>
    const reset: bool
    const anchor: EventID
    var buffer: seq<Event>
    var open: bool
    var evicted: bool
    ghost const start: nat // where in the log this subscription continues
    ghost var read: seq<Event> // what its reader took from the live stream

    constructor (replay: seq<Event>, reset: bool, anchor: EventID, ghost start: nat)
      ensures this.replay == replay && this.reset == reset && this.anchor == anchor && this.start == start
      ensures buffer == read == [] && open && !evicted
    {
      this.replay, this.reset, this.anchor, this.start := replay, reset, anchor, start;
      buffer, open, evicted, read := [], true, false, [];
    }

    ghost function Stream(): seq<Event>
      reads this
    {
      replay + read + buffer
    }

    /** Replay and live stream are one stretch of the log from `start`, without a gap and
        without a repeat; while the channel is open it reaches the newest event. */
    ghost predicate Follows(log: seq<Event>)
      reads this
    {
      start <= |log| && Stream() <= log[start..] && (open ==> Stream() == log[start..])
    }

    /** A send on a closed channel would panic, so it must be open. */
    method Deliver(ev: Event, ghost log: seq<Event>) returns (live: bool)
      requires open && Follows(log)
      modifies this`buffer, this`open, this`evicted
      ensures live == (|old(buffer)| < SUBSCRIBER_BUFFER)
      ensures live ==> open && buffer == old(buffer) + [ev] && evicted == old(evicted)
      ensures !live ==> !open && buffer == old(buffer) && evicted
      ensures Follows(log + [ev])
    {
      SliceMore(Stream(), log, ev, start);
      if |buffer| < SUBSCRIBER_BUFFER {
        buffer := buffer + [ev];
        assert Stream() == old(Stream()) + [ev];
        return true;
      }
      evicted := true;
      Close();
      return false;
    }

    /** Closing twice would panic, so it must be open. */
    method Close()
      requires open
      modifies this`open
      ensures !open
    {
      open := false;
    }

    /** The reader's receive. */
    method Take() returns (ev: Event)
      requires buffer != []
      modifies this`buffer, this`read
      ensures ev == old(buffer)[0] && buffer == old(buffer)[1..] && read == old(read) + [ev]
      ensures Stream() == old(Stream())
    {
      ev := buffer[0];
      assert read + buffer == (read + [ev]) + buffer[1..];
      buffer, read := buffer[1..], read + [ev];
    }
  }

  ghost predicate AllFollow(subs: set<Subscription>, log: seq<Event>)
    reads subs
  {
    forall s :: s in subs ==> s.Follows(log)
  }

  /** A closed subscription keeps following as the log grows. */
  lemma ClosedFollow(subs: set<Subscription>, log: seq<Event>, ev: Event)
    requires forall s :: s in subs ==> !s.open && s.Follows(log)
    ensures AllFollow(subs, log + [ev])
  {
    forall s | s in subs ensures s.Follows(log + [ev]) { SliceMore(s.Stream(), log, ev, s.start); }
  }

  /** A free slot takes the event; a full buffer closes the channel instead. */
  twostate predicate Offered(s: Subscription, ev: Event)
    reads s
  {
    && s.read == old(s.read) && (s.open <==> |old(s.buffer)| < SUBSCRIBER_BUFFER)
    && if |old(s.buffer)| < SUBSCRIBER_BUFFER then s.buffer == old(s.buffer) + [ev] else s.buffer == old(s.buffer) && s.evicted
  }

  /** How a wait stands: it got its hint, it was let go without one, or it still sleeps. */
  datatype Waited = Woken(ev: Event) | Released | Parked

  /** One long-poll request with its one-slot buffer. */
  class Waiter {
    const wants: Event -> bool
    var buffer: Option<Event>
    var open: bool

    constructor (wants: Event -> bool)
      ensures this.wants == wants && buffer == None && open
    {
      this.wants, buffer, open := wants, None, true;
    }

    /** Never blocks: a full slot drops the event, and keeps the hint it already holds. */
    method Deliver(ev: Event)
      requires open
      modifies this`buffer
      ensures buffer == if old(buffer).None? then Some(ev) else old(buffer)
    {
      if buffer.None? { buffer := Some(ev); }
    }

    method Close()
      requires open
      modifies this`open
      ensures !open
    {
      open := false;
    }

    /** A buffered event wins over a closed channel; a passed deadline may win over both. With
        none of the three there is nothing to return yet. */
    method Wait(expired: bool, deadlineFirst: bool) returns (r: Waited)
      modifies this`buffer
      ensures r.Woken? <==> old(buffer).Some? && !(expired && deadlineFirst)
      ensures r.Woken? ==> Some(r.ev) == old(buffer) && buffer == None
      ensures !r.Woken? ==> buffer == old(buffer)
      ensures r.Parked? <==> old(buffer).None? && open && !expired
    {
      if expired && deadlineFirst { return Released; }
      if buffer.Some? {
        r := Woken(buffer.value);
        buffer := None;
        return;
      }
      return if !open || expired then Released else Parked;
    }
  }

  class Bus {
    const generation: int
    const ring: Ring
    var seqNo: int
    var subscribers: set<Subscription>
    var waiters: set<Waiter>
    var stopped: bool
    ghost var issued: set<Subscription> // every subscription ever handed out
    ghost var granted: set<Waiter> // every waiter ever handed out

    constructor (generation: int)
      requires generation >= 1
      ensures Valid() && ring.log == [] && this.generation == generation && !stopped && issued == {} && granted == {}
      ensures fresh(ring) && fresh(ring.events)
    {
      this.generation := generation;
      ring := new Ring(RING_SIZE);
      seqNo, subscribers, waiters, stopped, issued, granted := 0, {}, {}, false, {}, {};
    }

    ghost predicate RingOk()
      reads this, ring, ring.events
    {
      && generation >= 1 && ring.Valid() && ring.events.Length == RING_SIZE && seqNo == |ring.log|
      && Numbered(ring.log) && (forall i :: 0 <= i < |ring.log| ==> ring.log[i].id.generation == generation)
    }

    /** A subscription is registered exactly while its channel is open. */
    ghost predicate SubscribersOk(log: seq<Event>)
      reads this, issued
    {
      && subscribers <= issued
      && (forall s :: s in issued ==> s.Follows(log) && (s.open <==> s in subscribers))
    }

    /** So is a waiter. */
    ghost predicate WaitersOk()
      reads this, granted
    {
      waiters <= granted && (forall w :: w in granted ==> (w.open <==> w in waiters))
    }

    ghost predicate Valid()
      reads this, ring, ring.events, issued, granted
    {
      RingOk() && SubscribersOk(ring.log) && WaitersOk() && (stopped ==> subscribers == {} && waiters == {})
    }

    /** The next event, stamped and added to the ring. */
    method Stamp(p: Publication) returns (ev: Event)
      requires RingOk()
      modifies this`seqNo, ring, ring.events
      ensures RingOk() && ring.log == old(ring.log) + [ev]
      ensures ev == Event(EventID(generation, |ring.log|), p.name, p.data, p.message)
    {
      seqNo := seqNo + 1;
      ev := Event(EventID(generation, seqNo), p.name, p.data, p.message);
      ring.Add(ev);
    }

    /** Hands the event to every waiter it matches; waiters stay registered. */
    method Wake(ev: Event)
      requires WaitersOk()
      modifies waiters
      ensures WaitersOk()
      ensures forall w :: w in waiters ==> w.buffer == if w.wants(ev) && old(w.buffer).None? then Some(ev) else old(w.buffer)
    {
      var rest := waiters;
      while rest != {}
        invariant rest <= waiters && WaitersOk()
        invariant forall w :: w in rest ==> w.buffer == old(w.buffer)
        invariant forall w :: w in waiters && w !in rest ==>
          w.buffer == if w.wants(ev) && old(w.buffer).None? then Some(ev) else old(w.buffer)
        decreases |rest|
      {
        var w :| w in rest;
        rest := rest - {w};
        if w.wants(ev) { w.Deliver(ev); }
      }
    }

    /** Offers the event to one subscriber and evicts it when its buffer is full. */
    method Offer(s: Subscription, ev: Event, ghost log: seq<Event>)
      requires s in subscribers && s.open && s.Follows(log)
      modifies this`subscribers, s`buffer, s`open, s`evicted
      ensures s.Follows(log + [ev]) && Offered(s, ev) && (s.open <==> s in subscribers)
      ensures subscribers == if |old(s.buffer)| < SUBSCRIBER_BUFFER then old(subscribers) else old(subscribers) - {s}
    {
      var live := s.Deliver(ev, log);
      if !live { subscribers := subscribers - {s}; }
    }

    /** Offers the event to every subscriber. */
    method FanOut(ev: Event, ghost log: seq<Event>)
      requires forall s :: s in subscribers ==> s.open && s.Follows(log)
      modifies this`subscribers, subscribers
      ensures subscribers <= old(subscribers)
      ensures forall s :: s in old(subscribers) ==> s.Follows(log + [ev]) && (s.open <==> s in subscribers)
      ensures forall s :: s in old(subscribers) ==> Offered(s, ev)
    {
      ghost var all := subscribers;
      var rest := subscribers;
      while rest != {}
        invariant rest <= subscribers <= all
        invariant forall s :: s in all ==> (s.open <==> s in subscribers)
        invariant forall s :: s in rest ==> s.Follows(log) && s.buffer == old(s.buffer) && s.read == old(s.read)
        invariant forall s :: s in all - rest ==> s.Follows(log + [ev]) && Offered(s, ev)
        decreases |rest|
      {
        var s :| s in rest;
        rest := rest - {s};
        Offer(s, ev, log);
      }
    }

    /** Everyone keeps following the log: the open by getting the event, the evicted and the
        closed by missing it and everything after it. */
    method Distribute(ev: Event, ghost log: seq<Event>)
      requires SubscribersOk(log)
      modifies this`subscribers, subscribers
      ensures SubscribersOk(log + [ev]) && subscribers <= old(subscribers)
      ensures forall s :: s in old(subscribers) ==> Offered(s, ev)
      ensures forall s :: s in issued ==> s.read == old(s.read)
    {
      ghost var closed := issued - subscribers;
      FanOut(ev, log);
      ClosedFollow(closed, log, ev);
    }

    /** A publication is dispatched: the ring first, waiters next, subscribers last. */
    method Dispatch(p: Publication)
      requires Valid() && !stopped
      modifies this`seqNo, this`subscribers, ring, ring.events, subscribers, waiters
      ensures Valid() && waiters == old(waiters) && subscribers <= old(subscribers)
      ensures ring.log == old(ring.log) + [Event(EventID(generation, |ring.log|), p.name, p.data, p.message)]
      ensures var ev := ring.log[|ring.log| - 1];
              && (forall w :: w in waiters ==> w.buffer == if w.wants(ev) && old(w.buffer).None? then Some(ev) else old(w.buffer))
              && (forall s :: s in old(subscribers) ==> Offered(s, ev))
      ensures forall s :: s in issued ==> s.read == old(s.read)
    {
      ghost var log := ring.log;
      var ev := Stamp(p);
      Wake(ev);
      Distribute(ev, log);
    }

    /** Registers a subscriber and takes its replay in one turn. A client that presents no id
        starts at the newest event; one whose id can be continued gets every event after
        it; any other gets a reset. */
    method Subscribe(from: EventID) returns (s: Subscription)
      requires Valid() && !stopped
      modifies this`subscribers, this`issued
      ensures Valid() && fresh(s) && subscribers == old(subscribers) + {s} && issued == old(issued) + {s}
      ensures s.anchor == EventID(generation, |ring.log|) && s.read == s.buffer == []
      ensures s.reset <==> !from.IsZero() && !(from.generation == generation && CanContinue(ring.log, RING_SIZE, from.seqNo))
      ensures s.start == if from.IsZero() || s.reset then |ring.log| else from.seqNo
      ensures s.replay == ring.log[s.start..]
    {
      var anchor := EventID(generation, seqNo);
      if from.IsZero() {
        s := new Subscription([], false, anchor, |ring.log|);
      } else if from.generation != generation {
        s := new Subscription([], true, anchor, |ring.log|);
      } else {
        var missed := ring.After(from);
        if missed.None? {
          s := new Subscription([], true, anchor, |ring.log|);
        } else {
          s := new Subscription(missed.value, false, anchor, from.seqNo);
        }
      }
      subscribers, issued := subscribers + {s}, issued + {s};
    }

    method SubscribeMatch(wants: Event -> bool) returns (w: Waiter)
      requires Valid() && !stopped
      modifies this`waiters, this`granted
      ensures Valid() && fresh(w) && waiters == old(waiters) + {w} && w.wants == wants && w.buffer == None
    {
      w := new Waiter(wants);
      waiters, granted := waiters + {w}, granted + {w};
    }

    /** A reader drains its own channel, registered or not. */
    method Receive(s: Subscription) returns (ev: Event)
      requires Valid() && s in issued && s.buffer != []
      modifies s`buffer, s`read
      ensures Valid() && ev == old(s.buffer)[0] && s.buffer == old(s.buffer)[1..] && s.read == old(s.read) + [ev]
    {
      ev := s.Take();
    }

    /** Closing a subscription: a second close, or one after an eviction, changes nothing. */
    method Drop(s: Subscription)
      requires Valid() && s in issued
      modifies this`subscribers, s`open
      ensures Valid() && subscribers == old(subscribers) - {s} && !s.open
    {
      if s in subscribers {
        subscribers := subscribers - {s};
        s.Close();
      }
    }

    method DropWaiter(w: Waiter)
      requires Valid() && w in granted
      modifies this`waiters, w`open
      ensures Valid() && waiters == old(waiters) - {w} && !w.open
    {
      if w in waiters {
        waiters := waiters - {w};
        w.Close();
      }
    }

    /** Shutdown closes each channel once and leaves nobody waiting. */
    method Stop()
      requires Valid() && !stopped
      modifies this`subscribers, this`waiters, this`stopped, subscribers, waiters
      ensures Valid() && stopped && (forall s :: s in issued ==> !s.open) && (forall w :: w in granted ==> !w.open)
    {
      CloseSubscribers();
      CloseWaiters();
      stopped := true;
    }

    method CloseSubscribers()
      requires SubscribersOk(ring.log)
      modifies this`subscribers, subscribers
      ensures SubscribersOk(ring.log) && subscribers == {}
    {
      while subscribers != {}
        invariant SubscribersOk(ring.log) && subscribers <= old(subscribers)
        decreases |subscribers|
      {
        var s :| s in subscribers;
        subscribers := subscribers - {s};
        s.Close();
      }
    }

    method CloseWaiters()
      requires WaitersOk()
      modifies this`waiters, waiters
      ensures WaitersOk() && waiters == {}
    {
      while waiters != {}
        invariant WaitersOk() && waiters <= old(waiters)
        decreases |waiters|
      {
        var w :| w in waiters;
        waiters := waiters - {w};
        w.Close();
      }
    }
  }
}
