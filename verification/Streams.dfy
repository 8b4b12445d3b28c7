/** The handler and its client on the bus itself (internal/sse/hub.go): every move of the
    machine on values is what the methods here do. */
module Streams {
  import opened Base
  import opened EventIds
  import opened Rings
  import opened Bus
  import opened Sessions

  const NO_ID: EventID := EventID(0, 0)

  /** The ids of the frames of a connection, the reset frame first. */
  function FrameIds(reset: bool, anchor: EventID, sent: seq<Event>): seq<EventID> {
    (if reset then [anchor] else []) + seq(|sent|, i requires 0 <= i < |sent| => sent[i].id)
  }

  lemma FrameIdsSnoc(reset: bool, anchor: EventID, sent: seq<Event>, ev: Event)
    ensures FrameIds(reset, anchor, sent + [ev]) == FrameIds(reset, anchor, sent) + [ev.id]
  {
  }

  /** The client and the handler that serves it. `lastSeen` is the id it presents when it
      reconnects, `pending` the part of the replay not yet sent, `frames` what this connection
      has been sent so far. */
  class Client {
    var lastSeen: Option<EventID>
    var sub: Subscription?
    var wasReset: bool
    var pending: seq<Event>
    var frames: seq<EventID>
    ghost var base: nat
    ghost var stream: seq<Event>
    ghost var sent: seq<Event>

    constructor ()
      ensures lastSeen == None && sub == null && base == 0 && stream == []
    {
      lastSeen, sub, wasReset, pending, frames := None, null, false, [], [];
      base, stream, sent := 0, [], [];
    }

    ghost function LineOf(): Option<Line>
      reads this, sub
    {
      if sub == null then None
      else Some(Line(wasReset, sub.start, sent, sub.start + |sub.replay|, sub.start + |sub.Stream()|, sub.open))
    }

    /** What was sent is the replay so far, or all of it and what was read of the live stream. */
    ghost predicate Coupled(generation: int)
      reads this, sub
    {
      sub != null ==>
        && |pending| <= |sub.replay| && pending == sub.replay[|sub.replay| - |pending|..]
        && (pending != [] ==> sub.read == [])
        && sent == sub.replay[..|sub.replay| - |pending|] + sub.read
        && (wasReset ==> sub.anchor == EventID(generation, sub.start))
        && frames == FrameIds(wasReset, sub.anchor, sent)
    }

    /** Begins a connection on a subscription just handed out. */
    method Adopt(s: Subscription, reset: bool, ghost generation: int)
      requires sub == null && s.read == s.buffer == [] && (reset ==> s.anchor == EventID(generation, s.start))
      modifies this`sub, this`wasReset, this`pending, this`frames, this`sent
      ensures sub == s && Coupled(generation)
      ensures LineOf() == Some(Line(reset, s.start, [], s.start + |s.replay|, s.start + |s.replay|, s.open))
    {
      sub, wasReset, pending := s, reset, s.replay;
      frames := if reset then [s.anchor] else [];
      sent := [];
    }

    /** Presents the id, and asks for a reset when it cannot be continued or the header could
        not be read. */
    method Register(bus: Bus, malformed: bool, ghost a: Snapshot) returns (s: Subscription, reset: bool)
      requires bus.Valid() && !bus.stopped && (lastSeen.Some? ==> lastSeen.value.generation >= 1)
      requires a.generation == bus.generation && a.log == bus.ring.log && a.lastSeen == lastSeen
      modifies bus`subscribers, bus`issued
      ensures bus.Valid() && fresh(s) && bus.issued == old(bus.issued) + {s} && s.open && s.read == s.buffer == []
      ensures Join(a, malformed) == Line(reset, s.start, [], s.start + |s.replay|, s.start + |s.replay|, true)
      ensures reset ==> s.anchor == EventID(a.generation, s.start)
    {
      var from := if malformed || lastSeen.None? then NO_ID else lastSeen.value;
      s := bus.Subscribe(from);
      JoinIs(a, malformed, from, s.reset, s.start);
      reset := s.reset || malformed;
    }

    /** Begins a connection, with a reset frame when one is due. */
    method Connect(bus: Bus, malformed: bool)
      requires bus.Valid() && !bus.stopped && sub == null && (lastSeen.Some? ==> lastSeen.value.generation >= 1)
      modifies this`sub, this`wasReset, this`pending, this`frames, this`sent, bus`subscribers, bus`issued
      ensures bus.Valid() && sub != null && fresh(sub) && bus.issued == old(bus.issued) + {sub} && Coupled(bus.generation)
      ensures Snap(bus, this) == Next(old(Snap(bus, this)), Sessions.Connect(malformed))
    {
      var s, reset := Register(bus, malformed, Snap(bus, this));
      Adopt(s, reset, bus.generation);
    }

    /** Accounts for one more frame. */
    method Sent(ev: Event)
      requires sub != null && frames == FrameIds(wasReset, sub.anchor, sent)
      modifies this`frames, this`sent
      ensures sent == old(sent) + [ev] && frames == FrameIds(wasReset, sub.anchor, sent)
    {
      FrameIdsSnoc(wasReset, sub.anchor, sent, ev);
      frames, sent := frames + [ev.id], sent + [ev];
    }

    /** Sends the next event of the replay. */
    method SendReplay(bus: Bus)
      requires bus.Valid() && sub != null && sub in bus.issued && Coupled(bus.generation) && pending != []
      modifies this`pending, this`frames, this`sent
      ensures Coupled(bus.generation) && Snap(bus, this) == Next(old(Snap(bus, this)), Send)
    {
      ReplayIsNext(this, bus.generation, bus.ring.log);
      Sent(pending[0]);
      pending := pending[1..];
    }

    /** Sends the next event of the live stream, once the replay is out. */
    method SendLive(bus: Bus)
      requires bus.Valid() && sub != null && sub in bus.issued && Coupled(bus.generation) && pending == [] && sub.buffer != []
      modifies this`frames, this`sent, sub`buffer, sub`read
      ensures bus.Valid() && Coupled(bus.generation) && Snap(bus, this) == Next(old(Snap(bus, this)), Send)
    {
      var ev := TakeLive(bus, sub);
      Sent(ev);
    }

    /** What the client makes of the frames that arrived: it presents the id of the last one. */
    method Learn(arrived: nat, ghost a: Snapshot)
      requires sub != null && Coupled(a.generation)
      requires a.lastSeen == lastSeen && a.base == base && a.stream == stream && a.line == LineOf()
      modifies this`lastSeen, this`base, this`stream
      ensures Cut(a, arrived) == a.(lastSeen := lastSeen, base := base, stream := stream, line := None)
    {
      var n := Min(arrived, |frames|);
      LastFrame(a, a.line.value, sub.anchor, n);
      ghost var after := Leave(a, a.line.value, n);
      if n > 0 { lastSeen := Some(frames[n - 1]); }
      base, stream := after.base, after.stream;
    }

    /** The connection ends, by either side, when this many of its frames have arrived. */
    method Hangup(bus: Bus, arrived: nat)
      requires bus.Valid() && sub != null && sub in bus.issued && Coupled(bus.generation)
      modifies this`lastSeen, this`sub, this`base, this`stream, bus`subscribers, sub`open
      ensures bus.Valid() && sub == null && Snap(bus, this) == Cut(old(Snap(bus, this)), arrived)
    {
      Learn(arrived, Snap(bus, this));
      bus.Drop(sub);
      sub := null;
    }
  }

  /** The oldest buffered event is the one right after everything read so far. */
  method TakeLive(bus: Bus, s: Subscription) returns (ev: Event)
    requires bus.Valid() && s in bus.issued && s.buffer != []
    modifies s`buffer, s`read
    ensures bus.Valid() && s.read == old(s.read) + [ev] && s.Stream() == old(s.Stream())
    ensures old(s.start + |s.replay| + |s.read|) < |bus.ring.log| && ev == bus.ring.log[old(s.start + |s.replay| + |s.read|)]
    ensures old(s.start + |s.replay| + |s.read|) < s.start + |s.Stream()|
  {
    LiveNext(s.replay, s.read, s.buffer, bus.ring.log, s.start);
    assert s.read + s.buffer == (s.read + [s.buffer[0]]) + s.buffer[1..];
    ev := bus.Receive(s);
  }

  /** What the bus answers a presented id is how the machine joins. */
  lemma JoinIs(a: Snapshot, malformed: bool, from: EventID, reset: bool, start: nat)
    requires from == if malformed || a.lastSeen.None? then NO_ID else a.lastSeen.value
    requires a.lastSeen.Some? ==> a.lastSeen.value.generation >= 1
    requires reset <==> !from.IsZero() && !(from.generation == a.generation && CanContinue(a.log, RING_SIZE, from.seqNo))
    requires start == if from.IsZero() || reset then |a.log| else from.seqNo
    ensures Join(a, malformed) == Line(reset || malformed, start, [], |a.log|, |a.log|, true)
    ensures reset || malformed ==> start == |a.log|
  {
  }

  lemma LastFrame(a: Snapshot, l: Line, anchor: EventID, n: nat)
    requires n <= |FrameIds(l.reset, anchor, l.sent)| && (l.reset ==> anchor == EventID(a.generation, l.origin))
    ensures |FrameIds(l.reset, anchor, l.sent)| == Frames(l)
    ensures n == 0 ==> Leave(a, l, n) == a.(line := None)
    ensures n > 0 ==> Leave(a, l, n).lastSeen == Some(FrameIds(l.reset, anchor, l.sent)[n - 1])
  {
  }

  lemma ReplayNext(replay: seq<Event>, rest: seq<Event>, log: seq<Event>, start: nat, left: nat)
    requires start <= |log| && replay + rest <= log[start..] && 0 < left <= |replay|
    ensures start + |replay| - left < |log| && replay[|replay| - left] == log[start + |replay| - left]
  {
    assert replay[|replay| - left] == (replay + rest)[|replay| - left] == log[start..][|replay| - left];
  }

  lemma ReplayIsNext(c: Client, generation: int, log: seq<Event>)
    requires c.sub != null && c.Coupled(generation) && c.sub.Follows(log) && c.pending != []
    ensures var l := c.LineOf().value; l.At() < l.reach && l.At() < |log| && c.pending[0] == log[l.At()]
  {
    var s := c.sub;
    ReplayNext(s.replay, s.read + s.buffer, log, s.start, |c.pending|);
    assert s.Stream() == s.replay + (s.read + s.buffer);
  }

  lemma LiveNext(replay: seq<Event>, read: seq<Event>, buffer: seq<Event>, log: seq<Event>, start: nat)
    requires start <= |log| && replay + read + buffer <= log[start..] && buffer != []
    ensures start + |replay| + |read| < |log| && buffer[0] == log[start + |replay| + |read|]
  {
    assert buffer[0] == (replay + read + buffer)[|replay| + |read|] == log[start..][|replay| + |read|];
  }

  /** A running server and its client as the machine sees them. */
  ghost function Snap(bus: Bus, c: Client): Snapshot
    reads bus, bus.ring, c, c.sub
  {
    Snapshot(bus.generation, bus.ring.log, c.lastSeen, c.base, c.stream, c.LineOf())
  }

  ghost predicate Live(bus: Bus, c: Client)
    reads bus, bus.ring, bus.ring.events, bus.issued, bus.granted, c, c.sub
  {
    && bus.Valid() && !bus.stopped && (c.sub != null ==> c.sub in bus.issued)
    && c.Coupled(bus.generation) && Sound(Snap(bus, c))
  }

  // ----- Any series of moves -----

  /** What a dispatch does to one subscription. */
  method PublishTo(bus: Bus, s: Subscription, p: Publication)
    requires bus.Valid() && !bus.stopped && s in bus.issued
    modifies bus`seqNo, bus`subscribers, bus.ring, bus.ring.events, bus.subscribers, bus.waiters
    ensures bus.Valid() && bus.ring.log == old(bus.ring.log) + [Event(EventID(bus.generation, |bus.ring.log|), p.name, p.data, p.message)]
    ensures s.read == old(s.read) && s.open == (old(s.open) && |old(s.buffer)| < SUBSCRIBER_BUFFER)
    ensures |s.buffer| == if s.open then |old(s.buffer)| + 1 else |old(s.buffer)|
  {
    bus.Dispatch(p);
  }

  lemma BufferedIs(c: Client, generation: int)
    requires c.sub != null && c.Coupled(generation)
    ensures c.LineOf().value.Buffered() == |c.sub.buffer|
  {
  }

  /** The bus dispatches an event, which may evict the client. */
  method PublishBeside(bus: Bus, c: Client, p: Publication)
    requires Live(bus, c)
    modifies bus`seqNo, bus`subscribers, bus.ring, bus.ring.events, bus.subscribers, bus.waiters
    ensures Live(bus, c) && Snap(bus, c) == Next(old(Snap(bus, c)), Publish(p))
  {
    PublishSound(Snap(bus, c), p);
    if c.sub == null {
      bus.Dispatch(p);
    } else {
      PublishConnected(bus, c, p);
    }
  }

  method PublishConnected(bus: Bus, c: Client, p: Publication)
    requires bus.Valid() && !bus.stopped && c.sub != null && c.sub in bus.issued && c.Coupled(bus.generation)
    modifies bus`seqNo, bus`subscribers, bus.ring, bus.ring.events, bus.subscribers, bus.waiters
    ensures bus.Valid() && c.Coupled(bus.generation) && Snap(bus, c) == Next(old(Snap(bus, c)), Publish(p))
  {
    BufferedIs(c, bus.generation);
    PublishTo(bus, c.sub, p);
  }

  method ConnectIfIdle(bus: Bus, c: Client, malformed: bool)
    requires Live(bus, c)
    modifies c, bus`subscribers, bus`issued
    ensures Live(bus, c) && Snap(bus, c) == Next(old(Snap(bus, c)), Connect(malformed)) && fresh(bus.issued - old(bus.issued))
  {
    ConnectSound(Snap(bus, c), malformed);
    if c.sub == null { c.Connect(bus, malformed); }
  }

  /** The next frame: what is left of the replay first, the live stream after it. */
  method SendNext(bus: Bus, c: Client)
    requires Live(bus, c)
    modifies c, c.sub
    ensures Live(bus, c) && Snap(bus, c) == Next(old(Snap(bus, c)), Send)
  {
    SendSound(Snap(bus, c));
    if c.sub == null {
    } else if c.pending != [] {
      c.SendReplay(bus);
    } else if c.sub.buffer != [] {
      c.SendLive(bus);
    }
  }

  method HangupIfConnected(bus: Bus, c: Client, arrived: nat)
    requires Live(bus, c)
    modifies c, c.sub, bus`subscribers
    ensures Live(bus, c) && c.sub == null && Snap(bus, c) == Cut(old(Snap(bus, c)), arrived)
  {
    CutSound(Snap(bus, c), arrived);
    if c.sub != null { c.Hangup(bus, arrived); }
  }

  /** A server start: the connection is gone and the generation is new. */
  method RestartBeside(bus: Bus, c: Client, arrived: nat) returns (next: Bus)
    requires Live(bus, c)
    modifies c, c.sub, bus`subscribers
    ensures Live(next, c) && Snap(next, c) == Next(old(Snap(bus, c)), Restart(arrived))
    ensures fresh(next) && fresh(next.ring) && fresh(next.ring.events) && next.issued == {} && next.granted == {}
  {
    NextSound(Snap(bus, c), Restart(arrived));
    HangupIfConnected(bus, c, arrived);
    next := new Bus(bus.generation + 1);
  }

  /** Every object a move may touch. */
  ghost function Objects(bus: Bus, c: Client): set<object>
    reads bus
  {
    {bus, bus.ring, bus.ring.events, c} + bus.issued + bus.granted
  }

  /** One move: the objects do what the machine does. */
  method Play(bus: Bus, c: Client, m: Move) returns (next: Bus)
    requires Live(bus, c)
    modifies Objects(bus, c)
    ensures Live(next, c) && Snap(next, c) == Next(old(Snap(bus, c)), m)
    ensures fresh(Objects(next, c) - old(Objects(bus, c)))
  {
    next := bus;
    match m
    case Publish(p) => PublishBeside(bus, c, p);
    case Connect(malformed) => ConnectIfIdle(bus, c, malformed);
    case Send => SendNext(bus, c);
    case Hangup(arrived) => HangupIfConnected(bus, c, arrived);
    case Restart(arrived) => next := RestartBeside(bus, c, arrived);
  }

  /** The same, where `objects` covers what the moves so far were made of. */
  method PlayOn(bus: Bus, c: Client, m: Move, ghost before: Snapshot, ghost objects: set<object>)
    returns (next: Bus, ghost nextObjects: set<object>)
    requires Live(bus, c) && Snap(bus, c) == before && Objects(bus, c) <= objects
    modifies objects
    ensures Live(next, c) && Snap(next, c) == Next(before, m) && Objects(next, c) <= nextObjects && fresh(nextObjects - objects)
  {
    next := Play(bus, c, m);
    nextObjects := objects + Objects(next, c);
  }

  method Begin() returns (bus: Bus, c: Client)
    ensures Live(bus, c) && Snap(bus, c) == START && fresh(Objects(bus, c))
  {
    bus := new Bus(1);
    c := new Client();
  }

  /** Any series of moves, from a first server start and a client that never connected, ends
      where the machine ends. */
  method PlayAll(moves: seq<Move>) returns (bus: Bus, c: Client, ghost objects: set<object>)
    ensures Live(bus, c) && Snap(bus, c) == Run(moves) && Objects(bus, c) <= objects && fresh(objects)
  {
    if moves == [] {
      bus, c := Begin();
      return bus, c, Objects(bus, c);
    }
    bus, c, objects := PlayAll(moves[..|moves| - 1]);
    bus, objects := PlayOn(bus, c, moves[|moves| - 1], Run(moves[..|moves| - 1]), objects);
  }
}
