/** The claim protocol as a concurrent state machine: claim calls that read, insert and wait
    (internal/personas/claim.go), ingest that commits and then publishes
    (internal/smtp/ingest.go), and the bus in between (internal/sse). Every action is one
    statement or transaction of one goroutine; a history is any interleaving of actions. */
module Protocol {
  import opened Base
  import opened Clock
  import opened Tables
  import opened Invariants
  import opened Candidates
  import opened Lifecycle

  /** A candidate as the read returned it, with the value of the claimed kind. */
  datatype Offer = Offer(msg: nat, value: string)

  /** What a claim call answers. A refused replay still names the claim it found; message and
      value count only under ClaimOK. */
  datatype Outcome = Outcome(reason: Reason, claim: nat, msg: nat, value: string)

  function Refuse(reason: Reason): Outcome { Outcome(reason, 0, 0, "") }

  /** Where a call stands. `final` marks the attempt the explanation makes. */
  datatype Pc =
    | Begin
    | HaveLease(row: Lease)
    | Admitted
    | Registering
    | Querying(final: bool)
    | Taking(rest: seq<Offer>, final: bool)
    | Losing(rest: seq<Offer>, final: bool)
    | Parked
    | Done

  /** The one-slot buffer of a bus waiter. The event in it is a hint and is not read. */
  datatype Waiter = NoWaiter | Slot(full: bool)

  /** `view` is the database as the call's last candidate read saw it. */
  datatype Call = Call(lease: nat, kind: Kind, key: string, waits: bool, pc: Pc, waiter: Waiter, view: Db)

  datatype Given = Given(lease: nat, kind: Kind, key: string, outcome: Outcome)

  /** `outbox` holds messages whose terminal state committed and whose publish has not been
      handed over; `wire` is the publish channel; `published` is its whole history;
      `answeredAt` is the clock reading each answer was given at. */
  datatype State = State(db: Db, ttl: int, calls: seq<Call>, given: seq<Given>, outbox: set<nat>, wire: seq<nat>,
                         published: seq<nat>, acked: set<nat>, busUp: bool, answeredAt: seq<Time>)

  // ----- One step of a claim call -----

  /** The refusals that do not depend on any message. */
  function Gate(run: Run, l: Lease): Option<Reason> {
    if !run.state.Active? then Some(RunNotRunning)
    else if !l.state.Held? then Some(NotHeld)
    else if !(l.seed.Seeded? || l.seed.Skipped?) then Some(SeedNotReady)
    else None
  }

  /** The answer to a key that is already recorded. Kinds are not compared. */
  function Replay(db: Db, lease: nat, key: string, kind: Kind, wall: Time): Option<Outcome> {
    var row := ClaimByKey(db.claims, |db.claims|, lease, key);
    if row.None? then None
    else
      var c := db.claims[row.value];
      if c.expires <= wall then Some(Outcome(ClaimExpired, row.value, 0, ""))
      else
        var value := if c.msg < |db.messages| then ReplayValue(db.messages[c.msg], kind) else "";
        if value == "" then Some(Outcome(ExtractionFail, row.value, 0, "")) else Some(Outcome(ClaimOK, row.value, c.msg, value))
  }

  function Offers(db: Db, ids: seq<nat>, kind: Kind): seq<Offer> {
    seq(|ids|, i requires 0 <= i < |ids| =>
      Offer(ids[i], if ids[i] < |db.messages| then CandidateValue(db.messages[ids[i]], kind) else ""))
  }

  function Lower(db: Db, lease: nat): Time
    requires lease < |db.leases|
  {
    var l := db.leases[lease];
    if l.run < |db.runs| then LowerBound(db.runs[l.run], l) else l.acquired
  }

  function GrantEnd(db: Db, lease: nat): Time
    requires lease < |db.leases|
  {
    var l := db.leases[lease];
    if l.run < |db.runs| then EndOfGrant(db.runs[l.run], l) else l.expires
  }

  datatype Turn = Turn(db: Db, call: Call, answer: Option<Outcome>)

  function Answer(db: Db, c: Call, o: Outcome): Turn { Turn(db, c.(pc := Done, waiter := NoWaiter), Some(o)) }

  function Go(db: Db, c: Call, pc: Pc): Turn { Turn(db, c.(pc := pc), None) }

  /** Walks the offers: the first that carries a value is recorded, or lost to an index. */
  function Take(db: Db, ttl: int, c: Call, rest: seq<Offer>, final: bool, now: Time): Turn
    requires rest != [] && c.lease < |db.leases|
  {
    var o := rest[0];
    if o.value == "" then Go(db, c, Taking(rest[1..], final))
    else
      var r := RecordClaim(db, c.lease, db.leases[c.lease].run, c.kind, o.msg, c.key, ttl, Some(GrantEnd(db, c.lease)), now);
      if r.1.Ok? then Answer(r.0, c, Outcome(ClaimOK, r.1.value, o.msg, o.value))
      else if r.1.error.ClaimWindowClosed? then Answer(db, c, Refuse(NotHeld))
      else if r.1.error.ClaimTaken? then Go(db, c, Losing(rest, final))
      else Turn(db, c.(pc := Done, waiter := NoWaiter), None)
  }

  /** One statement of a call. `clock` is whatever clock it reads there; `stop` says whether
      its deadline has passed or its context is gone. */
  function NextCall(db: Db, ttl: int, busUp: bool, c: Call, clock: Time, stop: bool): Turn {
    if c.lease >= |db.leases| then Go(db, c, Done)
    else
      match c.pc
      case Begin => Go(db, c, HaveLease(db.leases[c.lease]))
      case HaveLease(l) =>
        if l.run >= |db.runs| then Go(db, c, Done)
        else
          var refused := Gate(db.runs[l.run], l);
          if refused.Some? then Answer(db, c, Refuse(refused.value)) else Go(db, c, Admitted)
      case Admitted =>
        var replay := Replay(db, c.lease, c.key, c.kind, clock);
        if replay.Some? then Answer(db, c, replay.value) else Go(db, c, Registering)
      case Registering =>
        if !c.waits then Go(db, c, Querying(false))
        else if busUp then Turn(db, c.(pc := Querying(false), waiter := Slot(false)), None)
        else Go(db, c, Done)
      case Querying(final) =>
        var ids := ReadLease(db, c.lease, c.kind, Some(Lower(db, c.lease))).out;
        Turn(db, c.(pc := Taking(Offers(db, ids, c.kind), final), view := db), None)
      case Taking(rest, final) =>
        if rest != [] then Take(db, ttl, c, rest, final, clock)
        else if final then
          Answer(db, c, Refuse(Explain(ReadLease(c.view, c.lease, c.kind, Some(Lower(db, c.lease))).refused)))
        else if c.waiter.NoWaiter? || stop then Go(db, c, Querying(true))
        else Go(db, c, Parked)
      case Losing(rest, final) =>
        var replay := Replay(db, c.lease, c.key, c.kind, clock);
        if replay.Some? then Answer(db, c, replay.value)
        else Go(db, c, Taking(if rest == [] then [] else rest[1..], final))
      case Parked =>
        if stop then Go(db, c, Querying(true))
        else if c.waiter.Slot? && c.waiter.full then Turn(db, c.(pc := Querying(false), waiter := Slot(false)), None)
        else Go(db, c, Parked)
      case Done => Go(db, c, Done)
  }

  // ----- The system -----

  predicate Settled(db: Db, m: nat) { m < |db.messages| && !db.messages[m].state.Pending? }

  /** The bus predicate of a claim: an envelope recipient equal to the leased address. */
  predicate Matches(db: Db, lease: nat, m: nat) {
    && lease < |db.leases| && db.leases[lease].identity < |db.identities| && m < |db.messages|
    && db.identities[db.leases[lease].identity].addr in db.messages[m].envelope
  }

  /** A full slot drops the event; a free one takes it. */
  function Notify(db: Db, c: Call, m: nat): Call {
    if c.waiter.Slot? && Matches(db, c.lease, m) then c.(waiter := Slot(true)) else c
  }

  datatype Action =
    | Transact(op: Op)
    | Receive(m: Message)
    | SettleMessage(msg: nat, terminal: ExtractionState)
    | Publish(msg: nat)
    | Dispatch
    | StopBus
    | Crash
    | StartCall(lease: nat, kind: Kind, key: string, waits: bool)
    | StepCall(call: nat, clock: Time, stop: bool)
    | AbortCall(call: nat)

  const PUBLISH_BUFFER: nat := 64

  function Step(s: State, a: Action): State {
    match a
    case Transact(op) => s.(db := Apply(s.db, op))
    case Receive(m) =>
      var (db, stored) := Deliver(s.db, m);
      if stored.Ok? then s.(db := db, acked := s.acked + {stored.value}) else s
    case SettleMessage(msg, terminal) =>
      var (db, r) := SettleExtraction(s.db, msg, terminal);
      if r.Ok? then s.(db := db, outbox := s.outbox + {msg}) else s
    case Publish(msg) =>
      if msg !in s.outbox then s
      else if !s.busUp then s.(outbox := s.outbox - {msg})
      else if |s.wire| >= PUBLISH_BUFFER then s
      else s.(outbox := s.outbox - {msg}, wire := s.wire + [msg], published := s.published + [msg])
    case Dispatch =>
      if s.wire == [] || !s.busUp then s
      else s.(wire := s.wire[1..], calls := seq(|s.calls|, i requires 0 <= i < |s.calls| => Notify(s.db, s.calls[i], s.wire[0])))
    case StopBus => s.(busUp := false, wire := [])
    case Crash => s.(calls := [], outbox := {}, wire := [], busUp := true)
    case StartCall(lease, kind, key, waits) =>
      if key == "" || lease >= |s.db.leases| then s
      else s.(calls := s.calls + [Call(lease, kind, key, waits, Begin, NoWaiter, s.db)])
    case StepCall(call, clock, stop) =>
      if call >= |s.calls| then s
      else
        var c := s.calls[call];
        var t := NextCall(s.db, s.ttl, s.busUp, c, clock, stop);
        s.(db := t.db, calls := s.calls[call := t.call],
           given := if t.answer.Some? then s.given + [Given(c.lease, c.kind, c.key, t.answer.value)] else s.given,
           answeredAt := if t.answer.Some? then s.answeredAt + [clock] else s.answeredAt)
    case AbortCall(call) =>
      if call >= |s.calls| then s
      else s.(calls := s.calls[call := s.calls[call].(pc := Done, waiter := NoWaiter)])
  }

  function Init(ttl: int): State { State(EMPTY, ttl, [], [], {}, [], [], {}, true, []) }

  function Execute(s: State, actions: seq<Action>): State {
    if actions == [] then s else Step(Execute(s, actions[..|actions| - 1]), actions[|actions| - 1])
  }
}
