/** One event-stream client across connections, as a machine on values (internal/sse/hub.go,
    bus.go): what each move does to the log, the connection and what the client has seen, and
    what that means for any series of moves. */
module Sessions {
  import opened Base
  import opened EventIds
  import opened Rings
  import opened Bus

  /** A connection. It began at log position `origin`, after a reset frame or not; `sent` went
      out on it; the replay ends at `replayEnd` and what it holds so far at `reach`. */
  datatype Line = Line(reset: bool, origin: nat, sent: seq<Event>, replayEnd: nat, reach: nat, open: bool) {
    function At(): nat { origin + |sent| }

    /** The events waiting in the subscriber's buffer. */
    function Buffered(): int { reach - Max(replayEnd, At()) }
  }

  /** The server's generation and log; the id the client would present and the stretch of
      events it has seen since its last reset, which began at `base`; its connection. */
  datatype Snapshot = Snapshot(generation: int, log: seq<Event>, lastSeen: Option<EventID>, base: nat, stream: seq<Event>,
                               line: Option<Line>)

  /** A connection or a server goes down with the first `arrived` of its frames received. */
  datatype Move =
    | Publish(p: Publication)
    | Connect(malformed: bool)
    | Send
    | Hangup(arrived: nat)
    | Restart(arrived: nat)

  const START: Snapshot := Snapshot(1, [], None, 0, [], None)

  // ----- One move -----

  /** A free buffer takes the event; a full one closes the channel. */
  function Offer(l: Line): Line {
    if !l.open then l
    else if l.Buffered() < SUBSCRIBER_BUFFER then l.(reach := l.reach + 1)
    else l.(open := false)
  }

  function NextEvent(a: Snapshot, p: Publication): Event { Event(EventID(a.generation, |a.log| + 1), p.name, p.data, p.message) }

  predicate Continues(a: Snapshot, id: EventID) { id.generation == a.generation && CanContinue(a.log, RING_SIZE, id.seqNo) }

  function Join(a: Snapshot, malformed: bool): Line {
    var reset := malformed || (a.lastSeen.Some? && !Continues(a, a.lastSeen.value));
    var origin := if reset || a.lastSeen.None? || a.lastSeen.value.seqNo < 0 then |a.log| else a.lastSeen.value.seqNo;
    Line(reset, origin, [], |a.log|, |a.log|, true)
  }

  function SendOne(a: Snapshot, l: Line): Line {
    if l.At() < l.reach && l.At() < |a.log| then l.(sent := l.sent + [a.log[l.At()]]) else l
  }

  /** What the client makes of the first n frames of its connection, the reset frame first. */
  function Leave(a: Snapshot, l: Line, n: nat): Snapshot {
    var seen := if l.reset then n - 1 else n;
    if n == 0 || seen > |l.sent| then a.(line := None)
    else if l.reset then
      a.(line := None, base := l.origin, stream := l.sent[..seen],
         lastSeen := Some(if seen == 0 then EventID(a.generation, l.origin) else l.sent[seen - 1].id))
    else
      a.(line := None, base := if a.lastSeen.None? then l.origin else a.base, stream := a.stream + l.sent[..seen],
         lastSeen := Some(l.sent[seen - 1].id))
  }

  function Frames(l: Line): nat { if l.reset then |l.sent| + 1 else |l.sent| }

  function Cut(a: Snapshot, arrived: nat): Snapshot {
    if a.line.None? then a else Leave(a, a.line.value, Min(arrived, Frames(a.line.value)))
  }

  function Next(a: Snapshot, m: Move): Snapshot {
    match m
    case Publish(p) => a.(log := a.log + [NextEvent(a, p)], line := if a.line.None? then None else Some(Offer(a.line.value)))
    case Connect(malformed) => if a.line.Some? then a else a.(line := Some(Join(a, malformed)))
    case Send => if a.line.None? then a else a.(line := Some(SendOne(a, a.line.value)))
    case Hangup(arrived) => Cut(a, arrived)
    case Restart(arrived) => Cut(a, arrived).(generation := a.generation + 1, log := [])
  }

  function Run(moves: seq<Move>): Snapshot {
    if moves == [] then START else Next(Run(moves[..|moves| - 1]), moves[|moves| - 1])
  }

  // ----- What every run keeps -----

  ghost predicate LogOk(a: Snapshot) {
    && a.generation >= 1 && Numbered(a.log) && (forall i :: 0 <= i < |a.log| ==> a.log[i].id.generation == a.generation)
  }

  ghost predicate StretchAt(events: seq<Event>, log: seq<Event>, from: nat) {
    from + |events| <= |log| && events == log[from..from + |events|]
  }

  /** What the client has seen ends at the id it would present. */
  ghost predicate SeenOk(a: Snapshot) {
    if a.lastSeen.None? then a.stream == []
    else
      && 1 <= a.lastSeen.value.generation <= a.generation
      && (a.lastSeen.value.generation == a.generation ==>
            StretchAt(a.stream, a.log, a.base) && a.lastSeen.value.seqNo == a.base + |a.stream|)
  }

  /** A connection sends the log from where it began, the client goes on where it was unless
      it was reset, and as long as the channel is open it holds everything published. */
  ghost predicate LineOk(a: Snapshot, l: Line) {
    && l.origin <= l.replayEnd <= l.reach <= |a.log| && l.At() <= l.reach && StretchAt(l.sent, a.log, l.origin)
    && (l.open ==> l.reach == |a.log|) && l.Buffered() <= SUBSCRIBER_BUFFER
    && (!l.reset && a.lastSeen.Some? ==> a.lastSeen.value.generation == a.generation && l.origin == a.base + |a.stream|)
  }

  ghost predicate Sound(a: Snapshot) { LogOk(a) && SeenOk(a) && (a.line.Some? ==> LineOk(a, a.line.value)) }

  lemma StretchGrows(events: seq<Event>, log: seq<Event>, more: seq<Event>, from: nat)
    requires StretchAt(events, log, from)
    ensures StretchAt(events, log + more, from)
  {
    assert (log + more)[from..from + |events|] == log[from..from + |events|];
  }

  lemma StretchNext(events: seq<Event>, log: seq<Event>, from: nat)
    requires StretchAt(events, log, from) && from + |events| < |log|
    ensures StretchAt(events + [log[from + |events|]], log, from)
  {
    assert log[from..from + |events| + 1] == log[from..from + |events|] + [log[from + |events|]];
  }

  lemma StretchJoin(a: seq<Event>, b: seq<Event>, log: seq<Event>, from: nat, n: nat)
    requires StretchAt(a, log, from) && StretchAt(b, log, from + |a|) && n <= |b|
    ensures StretchAt(a + b[..n], log, from)
  {
    assert b[..n] == log[from + |a|..from + |a| + n];
    assert log[from..from + |a| + n] == log[from..from + |a|] + log[from + |a|..from + |a| + n];
  }

  lemma StretchPrefix(b: seq<Event>, log: seq<Event>, from: nat, n: nat)
    requires StretchAt(b, log, from) && n <= |b|
    ensures StretchAt(b[..n], log, from)
    ensures n > 0 ==> b[n - 1] == log[from + n - 1]
  {
    assert b[..n] == log[from..from + n];
  }

  lemma PublishSound(a: Snapshot, p: Publication)
    requires Sound(a)
    ensures Sound(Next(a, Publish(p)))
  {
    var more := [NextEvent(a, p)];
    if SeenOk(a) && a.lastSeen.Some? && a.lastSeen.value.generation == a.generation { StretchGrows(a.stream, a.log, more, a.base); }
    if a.line.Some? { StretchGrows(a.line.value.sent, a.log, more, a.line.value.origin); }
  }

  lemma ConnectSound(a: Snapshot, malformed: bool)
    requires Sound(a)
    ensures Sound(Next(a, Connect(malformed)))
  {
  }

  lemma SendSound(a: Snapshot)
    requires Sound(a)
    ensures Sound(Next(a, Send))
  {
    if a.line.Some? && a.line.value.At() < a.line.value.reach { StretchNext(a.line.value.sent, a.log, a.line.value.origin); }
  }

  lemma CutSound(a: Snapshot, arrived: nat)
    requires Sound(a)
    ensures Sound(Cut(a, arrived)) && Cut(a, arrived).line.None?
  {
    if a.line.Some? {
      var l := a.line.value;
      var n := Min(arrived, Frames(l));
      var seen := if l.reset then n - 1 else n;
      if n > 0 {
        StretchPrefix(l.sent, a.log, l.origin, seen);
        if !l.reset && a.lastSeen.Some? { StretchJoin(a.stream, l.sent, a.log, a.base, seen); }
        if !l.reset && a.lastSeen.None? { assert a.stream + l.sent[..seen] == l.sent[..seen]; }
      }
    }
  }

  lemma NextSound(a: Snapshot, m: Move)
    requires Sound(a)
    ensures Sound(Next(a, m))
  {
    match m
    case Publish(p) => PublishSound(a, p);
    case Connect(malformed) => ConnectSound(a, malformed);
    case Send => SendSound(a);
    case Hangup(arrived) => CutSound(a, arrived);
    case Restart(arrived) => CutSound(a, arrived);
  }

  lemma {:induction false} RunSound(moves: seq<Move>)
    ensures Sound(Run(moves))
  {
    if moves != [] {
      RunSound(moves[..|moves| - 1]);
      NextSound(Run(moves[..|moves| - 1]), moves[|moves| - 1]);
    }
  }

  // ----- What that means -----

  /** What each server start has published, in order. */
  function Logs(moves: seq<Move>): (logs: seq<seq<Event>>)
    ensures logs != [] && logs[|logs| - 1] == Run(moves).log
  {
    if moves == [] then [[]]
    else
      var before := Logs(moves[..|moves| - 1]);
      if moves[|moves| - 1].Restart? then before + [[]] else before[|before| - 1 := Run(moves).log]
  }

  /** The move in which the client learns that its stream was cut. */
  predicate Resets(a: Snapshot, m: Move) {
    (m.Hangup? || m.Restart?) && m.arrived > 0 && a.line.Some? && a.line.value.reset
  }

  /** Every stretch of events the client saw up to a reset. */
  function Finished(moves: seq<Move>): seq<seq<Event>> {
    if moves == [] then []
    else
      var front := moves[..|moves| - 1];
      Finished(front) + if Resets(Run(front), moves[|moves| - 1]) then [Run(front).stream] else []
  }

  /** What the client will have seen of the stretch under way if everything sent arrives. */
  function UnderWay(a: Snapshot): seq<Event> {
    if a.line.None? then a.stream else if a.line.value.reset then a.line.value.sent else a.stream + a.line.value.sent
  }

  ghost predicate InOneLog(events: seq<Event>, logs: seq<seq<Event>>) {
    exists g: nat, from: nat :: g < |logs| && StretchAt(events, logs[g], from)
  }

  ghost predicate AllInLogs(streams: seq<seq<Event>>, logs: seq<seq<Event>>) {
    forall i :: 0 <= i < |streams| ==> InOneLog(streams[i], logs)
  }

  lemma LogGrows(a: Snapshot, m: Move)
    ensures !m.Restart? ==> a.log <= Next(a, m).log
  {
  }

  lemma StretchLater(events: seq<Event>, log: seq<Event>, longer: seq<Event>, from: nat)
    requires StretchAt(events, log, from) && log <= longer
    ensures StretchAt(events, longer, from)
  {
    assert longer == log + longer[|log|..];
    StretchGrows(events, log, longer[|log|..], from);
  }

  ghost predicate Extended(before: seq<seq<Event>>, after: seq<seq<Event>>) {
    |before| <= |after| && forall g :: 0 <= g < |before| ==> before[g] <= after[g]
  }

  lemma LogsGrow(moves: seq<Move>)
    requires moves != []
    ensures Extended(Logs(moves[..|moves| - 1]), Logs(moves))
  {
    LogGrows(Run(moves[..|moves| - 1]), moves[|moves| - 1]);
  }

  lemma InExtended(events: seq<Event>, before: seq<seq<Event>>, after: seq<seq<Event>>)
    requires InOneLog(events, before) && Extended(before, after)
    ensures InOneLog(events, after)
  {
    var g: nat, from: nat :| g < |before| && StretchAt(events, before[g], from);
    StretchLater(events, before[g], after[g], from);
  }

  lemma InOneLogLater(events: seq<Event>, moves: seq<Move>)
    requires moves != [] && InOneLog(events, Logs(moves[..|moves| - 1]))
    ensures InOneLog(events, Logs(moves))
  {
    LogsGrow(moves);
    InExtended(events, Logs(moves[..|moves| - 1]), Logs(moves));
  }

  /** What a sound snapshot has under way is a stretch of the current log, unless the client
      still waits to reconnect to a server that has restarted. */
  lemma UnderWayInLog(a: Snapshot)
    requires Sound(a) && (a.line.Some? || a.lastSeen.None? || a.lastSeen.value.generation == a.generation)
    ensures exists from: nat :: StretchAt(UnderWay(a), a.log, from)
  {
    if a.line.None? {
      assert StretchAt(UnderWay(a), a.log, if a.lastSeen.None? then 0 else a.base);
    } else {
      var l := a.line.value;
      if !l.reset && a.lastSeen.Some? {
        StretchJoin(a.stream, l.sent, a.log, a.base, |l.sent|);
        assert l.sent[..|l.sent|] == l.sent;
        assert StretchAt(UnderWay(a), a.log, a.base);
      } else {
        assert a.lastSeen.None? ==> a.stream + l.sent == l.sent;
        assert StretchAt(UnderWay(a), a.log, l.origin);
      }
    }
  }

  /** What the client has seen never contains more than was under way. */
  lemma CutIsPrefix(a: Snapshot, arrived: nat)
    ensures Cut(a, arrived).stream <= UnderWay(a) || Cut(a, arrived).stream == a.stream
  {
  }

  lemma PrefixInOneLog(events: seq<Event>, whole: seq<Event>, logs: seq<seq<Event>>)
    requires events <= whole && InOneLog(whole, logs)
    ensures InOneLog(events, logs)
  {
    var g: nat, from: nat :| g < |logs| && StretchAt(whole, logs[g], from);
    StretchPrefix(whole, logs[g], from, |events|);
    assert StretchAt(events, logs[g], from);
  }

  ghost predicate Consecutive(moves: seq<Move>) {
    && AllInLogs(Finished(moves), Logs(moves))
    && InOneLog(Run(moves).stream, Logs(moves)) && InOneLog(UnderWay(Run(moves)), Logs(moves))
  }

  /** Through any series of publications, evictions, lost frames, reconnects and restarts,
      every stretch the client saw between two resets, and the one under way, is consecutive
      in the log of one server start: nothing in it was skipped or repeated. */
  lemma {:induction false} RunIsConsecutive(moves: seq<Move>)
    ensures Consecutive(moves)
  {
    if moves == [] {
      assert StretchAt([], Logs(moves)[0], 0);
    } else {
      var front, m := moves[..|moves| - 1], moves[|moves| - 1];
      RunIsConsecutive(front);
      RunSound(front);
      RunSound(moves);
      forall i | 0 <= i < |Finished(moves)| ensures InOneLog(Finished(moves)[i], Logs(moves)) {
        if i < |Finished(front)| { InOneLogLater(Finished(front)[i], moves); } else { InOneLogLater(Run(front).stream, moves); }
      }
      SeenInLog(front, m, moves);
      NowInLog(moves);
    }
  }

  lemma SeenInLog(front: seq<Move>, m: Move, moves: seq<Move>)
    requires moves == front + [m] && moves[..|moves| - 1] == front && Consecutive(front)
    ensures InOneLog(Run(moves).stream, Logs(moves))
  {
    var a := Run(front);
    InOneLogLater(a.stream, moves);
    InOneLogLater(UnderWay(a), moves);
    if m.Hangup? || m.Restart? {
      CutIsPrefix(a, m.arrived);
      if Cut(a, m.arrived).stream <= UnderWay(a) { PrefixInOneLog(Cut(a, m.arrived).stream, UnderWay(a), Logs(moves)); }
    }
  }

  lemma NowInLog(moves: seq<Move>)
    requires Sound(Run(moves)) && InOneLog(Run(moves).stream, Logs(moves))
    ensures InOneLog(UnderWay(Run(moves)), Logs(moves))
  {
    var a, logs := Run(moves), Logs(moves);
    if a.line.Some? {
      UnderWayInLog(a);
      var from: nat :| StretchAt(UnderWay(a), a.log, from);
      assert logs[|logs| - 1] == a.log;
      assert StretchAt(UnderWay(a), logs[|logs| - 1], from);
    }
  }

  /** The server has restarted since, or published more than its ring holds. */
  predicate OutOfReach(a: Snapshot)
    requires a.lastSeen.Some?
  {
    a.lastSeen.value.generation != a.generation || |a.log| - (a.base + |a.stream|) > 1024
  }

  /** A connecting client is reset exactly when its header cannot be read, the server has
      restarted since, or more than a ring's worth was published since; otherwise it goes on
      right after what it has seen. */
  lemma ResetExactly(moves: seq<Move>, malformed: bool)
    requires Run(moves).line.None?
    ensures var a, l := Run(moves), Next(Run(moves), Connect(malformed)).line.value;
            && (l.reset <==> malformed || (a.lastSeen.Some? && OutOfReach(a)))
            && (!l.reset && a.lastSeen.Some? ==> l.origin == a.base + |a.stream|)
  {
    RunSound(moves);
  }

  /** A publication closes an open connection exactly when 64 events wait in its buffer already,
      and otherwise waits there behind them. */
  lemma EvictedExactly(moves: seq<Move>, p: Publication)
    requires Run(moves).line.Some? && Run(moves).line.value.open
    ensures var l, next := Run(moves).line.value, Next(Run(moves), Publish(p)).line.value;
            && l.Buffered() <= 64 && (next.open <==> l.Buffered() < 64)
            && next.sent == l.sent && next.Buffered() == if next.open then l.Buffered() + 1 else 64
  {
    RunSound(moves);
  }

  /** An open connection still holds everything published since it began: sending until nothing
      is left leaves the client with the whole log from there. */
  lemma OpenHoldsAll(moves: seq<Move>)
    requires Run(moves).line.Some? && Run(moves).line.value.open
    ensures var a := Run(moves); a.line.value.reach == |a.log| && (Next(a, Send) == a <==> a.line.value.At() == |a.log|)
  {
    RunSound(moves);
    var a := Run(moves);
    if a.line.value.At() < |a.log| { assert |Next(a, Send).line.value.sent| == |a.line.value.sent| + 1; }
  }
}
