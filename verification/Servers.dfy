/** The objects against the state machine: whatever a store, its ingest pipeline and a waiter
    do, call by call, is a run of the protocol, so what every run keeps, they keep. */
module Servers {
  import opened Base
  import opened Clock
  import opened EventIds
  import opened Tables
  import opened Invariants
  import opened Lifecycle
  import opened Correlation
  import opened Protocol
  import opened ProtocolProofs
  import opened Histories
  import opened Guarantees
  import opened Stores
  import opened Rings
  import Ingest
  import Bus

  // ----- Commands and what they are in the protocol -----

  /** A call of one of the objects' methods, with the clock readings it will get. */
  datatype Command =
    | CmdCreateRun(ttl: int, reading: Time)
    | CmdCreateIdentity(addr: string, mode: Mode, hasPersona: bool, reading: Time)
    | CmdAcquire(run: nat, identity: nat, ttl: int, reading: Time)
    | CmdSettleSeed(lease: nat, outcome: SeedState, reading: Time)
    | CmdRelease(lease: nat, reading: Time)
    | CmdSetCooldown(identity: nat, until: Time)
    | CmdEndRun(run: nat, state: RunState, reading: Time)
    | CmdExpireRuns(wall: nat -> Time)
    | CmdExpireLeases(first: Time, second: Time)
    | CmdDeliver(m: Message, blobsSynced: bool, trailWritten: bool, stopping: bool)
    | CmdSettle(msg: nat, fate: Ingest.Fate)
    | CmdRecover(fates: nat -> Ingest.Fate)

  /** Settling a message, handing its event over, and dispatching it. A message that is settled
      already makes all three do nothing. */
  function SettleActions(msg: nat, t: Option<ExtractionState>): seq<Action> {
    if t.None? then [] else [SettleMessage(msg, t.value), Publish(msg), Dispatch]
  }

  function RecoverActions(done: seq<nat>, fates: nat -> Ingest.Fate): seq<Action> {
    if done == [] then []
    else
      var n := |done| - 1;
      RecoverActions(done[..n], fates) + SettleActions(done[n], Ingest.Terminal(fates(done[n])))
  }

  /** The clock's stamp after a command, and the actions the command is. */
  datatype Entry = Entry(actions: seq<Action>, clock: Time)

  ghost predicate Does(db: Db, before: Time, cmd: Command, e: Entry) {
    match cmd
    case CmdCreateRun(ttl, reading) =>
      && e.actions == [Transact(OpCreateRun(ttl, e.clock))]
      && Ticked(before, e.clock, reading, Tables.CreateRun(db, ttl, e.clock).1.Ok?)
    case CmdCreateIdentity(addr, mode, hasPersona, reading) =>
      && e.actions == (if hasPersona == mode.Pooled? then [Transact(OpCreateIdentity(addr, mode))] else [])
      && Ticked(before, e.clock, reading, hasPersona == mode.Pooled? && Tables.CreateIdentity(db, addr, mode).1.Ok?)
    case CmdAcquire(run, identity, ttl, reading) =>
      && e.actions == [Transact(OpAcquire(run, identity, ttl, e.clock))]
      && Ticked(before, e.clock, reading, AcquireLease(db, run, identity, ttl, e.clock).1.Ok?)
    case CmdSettleSeed(lease, outcome, reading) =>
      && e.actions == [Transact(OpSettleSeed(lease, outcome, e.clock))]
      && Ticked(before, e.clock, reading, Tables.SettleSeed(db, lease, outcome, e.clock).1.Ok?)
    case CmdRelease(lease, reading) =>
      e.actions == [Transact(OpRelease(lease, e.clock))] && e.clock == NextStamp(before, reading)
    case CmdSetCooldown(identity, until) =>
      e.actions == [Transact(OpSetCooldown(identity, until))] && e.clock == before
    case CmdEndRun(run, state, reading) =>
      && e.actions == [Transact(OpEndRun(run, state, e.clock))]
      && e.clock == (if state.Active? then before else NextStamp(before, reading))
    case CmdExpireRuns(wall) =>
      var now := NextStamp(before, wall(0));
      e.clock >= now && exists stamps :: SweepsRuns(db, now, stamps, e.actions)
    case CmdExpireLeases(first, second) =>
      && e.clock == NextStamp(NextStamp(before, first), second)
      && e.actions == [Transact(OpExpireLeases(NextStamp(before, first), e.clock))]
    case CmdDeliver(m, blobsSynced, trailWritten, _) =>
      e.actions == (if blobsSynced && trailWritten then [Receive(m)] else []) && e.clock == before
    case CmdSettle(msg, fate) => e.actions == SettleActions(msg, Ingest.Terminal(fate)) && e.clock == before
    case CmdRecover(fates) => e.actions == RecoverActions(Ingest.Backlog(db.messages), fates) && e.clock == before
  }

  ghost predicate SweepsRuns(db: Db, now: Time, stamps: seq<Time>, actions: seq<Action>) {
    && |stamps| == |Overdue(db.runs, now)| && (forall k :: 0 <= k < |stamps| ==> stamps[k] > now)
    && actions == [Transact(OpExpireRuns(now, stamps))]
  }

  /** What arrives is pending, and what a settlement is about can be read. */
  predicate Possible(cmd: Command) {
    && (cmd.CmdDeliver? ==> cmd.m.state.Pending?)
    && (cmd.CmdSettle? ==> cmd.fate.readable)
  }

  function Flat(entries: seq<Entry>): seq<Action> {
    if entries == [] then [] else Flat(entries[..|entries| - 1]) + entries[|entries| - 1].actions
  }

  function ClockOf(entries: seq<Entry>): Time { if entries == [] then 0 else entries[|entries| - 1].clock }

  /** Every entry is what its command does in the state the entries before it lead to. */
  ghost predicate Traced(ttl: int, cmds: seq<Command>, entries: seq<Entry>)
    decreases |cmds|
  {
    && |cmds| == |entries|
    && (cmds != [] ==>
          var n := |cmds| - 1;
          && Traced(ttl, cmds[..n], entries[..n])
          && Does(Reached(ttl, Flat(entries[..n])).db, ClockOf(entries[..n]), cmds[n], entries[n]))
  }

  // ----- One command -----

  /** The objects hold what the state does, and nothing is between them. */
  ghost predicate Holds(s: State, store: Store, pipeline: Ingest.Pipeline)
    reads store, pipeline
  {
    && pipeline.store == store && s.db == store.State() && s.published == pipeline.announced
    && AtRest(s)
  }

  predicate AtRest(s: State) { s.calls == [] && s.outbox == {} && s.wire == [] && s.busUp }

  lemma OneAction(s: State, a: Action)
    ensures Execute(s, [a]) == Step(s, a)
  {
    ExecuteLast(s, [], a, [a]);
  }

  lemma SettlesAndAnnounces(s: State, msg: nat, t: Option<ExtractionState>)
    requires StateOk(s) && AtRest(s) && (t.Some? ==> !t.value.Pending?)
    ensures var u := Execute(s, SettleActions(msg, t));
            && u.db == s.db.(messages := Ingest.Settled(s.db.messages, msg, t))
            && u.published == s.published + Ingest.Announced(s.db.messages, msg, t) && AtRest(u)
  {
    if t.Some? {
      var a, b, c := SettleMessage(msg, t.value), Publish(msg), Dispatch;
      OneAction(s, a);
      ExecuteLast(s, [a], b, [a, b]);
      ExecuteLast(s, [a, b], c, [a, b, c]);
      SettleStep(s, msg, t.value);
      if msg < |s.db.messages| && s.db.messages[msg].state.Pending? {
        HandOver(Step(s, a), msg);
      }
    }
  }

  lemma SettleStep(s: State, msg: nat, terminal: ExtractionState)
    requires AtRest(s) && !terminal.Pending?
    ensures Step(s, SettleMessage(msg, terminal))
            == if msg < |s.db.messages| && s.db.messages[msg].state.Pending?
               then s.(db := s.db.(messages := Ingest.Settled(s.db.messages, msg, Some(terminal))), outbox := {msg}) else s
  {
  }

  lemma HandOver(s: State, msg: nat)
    requires s.calls == [] && s.outbox == {msg} && s.wire == [] && s.busUp
    ensures Step(Step(s, Publish(msg)), Dispatch) == s.(outbox := {}, published := s.published + [msg])
  {
    var mid := Step(s, Publish(msg));
    assert mid == s.(outbox := {}, wire := [msg], published := s.published + [msg]);
    assert Step(mid, Dispatch).calls == [];
  }

  /** The state after recovering some of the backlog, and nothing else. */
  ghost predicate RecoveredState(s: State, u: State, done: seq<nat>, fates: nat -> Ingest.Fate) {
    && u.db == s.db.(messages := u.db.messages) && Ingest.Recovered(s.db.messages, u.db.messages, done, fates)
    && u.published == s.published + Ingest.Heard(done, fates) && AtRest(u)
  }

  lemma RecoversOne(s: State, mid: State, front: seq<nat>, m: nat, fates: nat -> Ingest.Fate)
    requires StateOk(mid) && RecoveredState(s, mid, front, fates)
    requires m < |s.db.messages| && s.db.messages[m].state.Pending? && m !in front
    ensures RecoveredState(s, Execute(mid, SettleActions(m, Ingest.Terminal(fates(m)))), front + [m], fates)
  {
    SettlesAndAnnounces(mid, m, Ingest.Terminal(fates(m)));
    Ingest.RecoverStep(s.db.messages, mid.db.messages, front, m, fates);
  }

  lemma {:induction false} RecoversAll(s: State, done: seq<nat>, fates: nat -> Ingest.Fate)
    requires StateOk(s) && AtRest(s) && Distinct(done)
    requires forall m :: m in done ==> m < |s.db.messages| && s.db.messages[m].state.Pending?
    ensures RecoveredState(s, Execute(s, RecoverActions(done, fates)), done, fates)
    decreases |done|
  {
    if done != [] {
      var n := |done| - 1;
      var front, m := done[..n], done[n];
      assert done == front + [m] && m in done && m !in front;
      assert forall x :: x in front ==> x in done;
      RecoversAll(s, front, fates);
      ExecuteOk(s, RecoverActions(front, fates));
      RecoversOne(s, Execute(s, RecoverActions(front, fates)), front, m, fates);
      ExecuteAppend(s, RecoverActions(front, fates), SettleActions(m, Ingest.Terminal(fates(m))));
    }
  }

  /** What the protocol does for a settlement, said of the message alone: it becomes what its
      fate says and is published exactly when this moved it. */
  lemma SettleCommandFates(s: State, before: Time, msg: nat, fate: Ingest.Fate, e: Entry)
    requires StateOk(s) && AtRest(s) && Does(s.db, before, CmdSettle(msg, fate), e)
    ensures var t := Execute(s, e.actions);
            && t.db == s.db.(messages := t.db.messages) && s.published <= t.published
            && Ingest.OneFated(s.db.messages, t.db.messages, t.published[|s.published|..], msg, fate)
  {
    SettlesAndAnnounces(s, msg, Ingest.Terminal(fate));
    Ingest.SettledIsFated(s.db.messages, msg, fate);
  }

  /** The same for a recovery: every pending message becomes what its fate says, and those
      that moved are published, oldest first. */
  lemma RecoverCommandFates(s: State, before: Time, fates: nat -> Ingest.Fate, e: Entry)
    requires StateOk(s) && AtRest(s) && Does(s.db, before, CmdRecover(fates), e)
    ensures var t, scanned := Execute(s, e.actions), Ingest.Backlog(s.db.messages);
            && t.db == s.db.(messages := t.db.messages)
            && t.published == s.published + Ingest.Moved(s.db.messages, t.db.messages, scanned)
            && |t.db.messages| == |s.db.messages|
            && forall m: nat :: m < |s.db.messages| ==> Ingest.Fated(s.db.messages[m], t.db.messages[m], fates(m))
  {
    var t, scanned := Execute(s, e.actions), Ingest.Backlog(s.db.messages);
    Ingest.BacklogMeaning(s.db.messages);
    RecoversAll(s, scanned, fates);
    Ingest.RecoveredIsFated(s.db.messages, t.db.messages, scanned, fates);
    Ingest.HeardIsMoved(s.db.messages, t.db.messages, scanned, scanned, fates);
  }

  lemma RecoveredOnce(before: seq<Message>, a: seq<Message>, b: seq<Message>, done: seq<nat>, fates: nat -> Ingest.Fate)
    requires Ingest.Recovered(before, a, done, fates) && Ingest.Recovered(before, b, done, fates)
    ensures a == b
  {
  }

  /** Recovery leaves the protocol with these messages, whoever settled them. */
  lemma RecoverLeaves(s: State, fates: nat -> Ingest.Fate, messages: seq<Message>)
    requires StateOk(s) && AtRest(s) && Ingest.Recovered(s.db.messages, messages, Ingest.Backlog(s.db.messages), fates)
    ensures var done := Ingest.Backlog(s.db.messages);
            var t := Execute(s, RecoverActions(done, fates));
            t.db == s.db.(messages := messages) && t.published == s.published + Ingest.Heard(done, fates) && AtRest(t)
  {
    var done := Ingest.Backlog(s.db.messages);
    Ingest.BacklogMeaning(s.db.messages);
    RecoversAll(s, done, fates);
    RecoveredOnce(s.db.messages, Execute(s, RecoverActions(done, fates)).db.messages, messages, done, fates);
  }

  lemma Transacts(s: State, op: Op)
    ensures Execute(s, [Transact(op)]) == s.(db := Apply(s.db, op))
  {
    OneAction(s, Transact(op));
  }

  /** Runs and identities. */
  method Manage(store: Store, cmd: Command, ghost s: State) returns (ghost e: Entry)
    requires s.db == store.State() && (cmd.CmdCreateRun? || cmd.CmdCreateIdentity? || cmd.CmdSetCooldown? || cmd.CmdEndRun?)
    modifies store, store.clock
    ensures Does(s.db, old(store.clock.lastNow), cmd, e) && e.clock == store.clock.lastNow
    ensures Execute(s, e.actions) == s.(db := store.State())
  {
    ghost var op: Op;
    match cmd {
      case CmdCreateRun(ttl, reading) =>
        var _ := store.CreateRun(ttl, reading);
        op := OpCreateRun(ttl, store.clock.lastNow);
      case CmdCreateIdentity(addr, mode, hasPersona, reading) =>
        var _ := store.CreateIdentity(addr, mode, hasPersona, reading);
        if hasPersona != mode.Pooled? { return Entry([], store.clock.lastNow); }
        op := OpCreateIdentity(addr, mode);
      case CmdSetCooldown(identity, until) =>
        store.SetCooldown(identity, until);
        op := OpSetCooldown(identity, until);
      case CmdEndRun(run, state, reading) =>
        var _ := store.EndRun(run, state, reading);
        op := OpEndRun(run, state, store.clock.lastNow);
    }
    Transacts(s, op);
    e := Entry([Transact(op)], store.clock.lastNow);
  }

  /** Leases. */
  method Lend(store: Store, cmd: Command, ghost s: State) returns (ghost e: Entry)
    requires s.db == store.State() && (cmd.CmdAcquire? || cmd.CmdSettleSeed? || cmd.CmdRelease?)
    modifies store, store.clock
    ensures Does(s.db, old(store.clock.lastNow), cmd, e) && e.clock == store.clock.lastNow
    ensures Execute(s, e.actions) == s.(db := store.State())
  {
    ghost var op: Op;
    match cmd {
      case CmdAcquire(run, identity, ttl, reading) =>
        var _ := store.AcquireLease(run, identity, ttl, reading);
        op := OpAcquire(run, identity, ttl, store.clock.lastNow);
      case CmdSettleSeed(lease, outcome, reading) =>
        var _ := store.SettleSeed(lease, outcome, reading);
        op := OpSettleSeed(lease, outcome, store.clock.lastNow);
      case CmdRelease(lease, reading) =>
        var _ := store.ReleaseLease(lease, reading);
        op := OpRelease(lease, store.clock.lastNow);
    }
    Transacts(s, op);
    e := Entry([Transact(op)], store.clock.lastNow);
  }

  lemma SweepEntry(s: State, before: Time, wall: nat -> Time, stamps: seq<Time>, clock: Time)
    requires var now := NextStamp(before, wall(0));
             |stamps| == |Overdue(s.db.runs, now)| && clock >= now && forall k :: 0 <= k < |stamps| ==> stamps[k] > now
    ensures var now := NextStamp(before, wall(0));
            var e := Entry([Transact(OpExpireRuns(now, stamps))], clock);
            Does(s.db, before, CmdExpireRuns(wall), e) && Execute(s, e.actions) == s.(db := Lifecycle.ExpireRuns(s.db, now, stamps))
  {
    var now := NextStamp(before, wall(0));
    assert SweepsRuns(s.db, now, stamps, [Transact(OpExpireRuns(now, stamps))]);
    Transacts(s, OpExpireRuns(now, stamps));
  }

  /** The two halves of the sweep. */
  method ExpireRunsNow(store: Store, wall: nat -> Time, ghost s: State) returns (ghost e: Entry)
    requires s.db == store.State() && CoreInv(s.db)
    modifies store, store.clock
    ensures Does(s.db, old(store.clock.lastNow), CmdExpireRuns(wall), e) && e.clock == store.clock.lastNow
    ensures Execute(s, e.actions) == s.(db := store.State())
  {
    ghost var stamps: seq<Time>;
    var expired, now;
    expired, now, stamps := store.ExpireRuns(wall);
    SweepEntry(s, old(store.clock.lastNow), wall, stamps, store.clock.lastNow);
    e := Entry([Transact(OpExpireRuns(now, stamps))], store.clock.lastNow);
  }

  method ExpireLeasesNow(store: Store, first: Time, second: Time, ghost s: State) returns (ghost e: Entry)
    requires s.db == store.State()
    modifies store, store.clock
    ensures Does(s.db, old(store.clock.lastNow), CmdExpireLeases(first, second), e) && e.clock == store.clock.lastNow
    ensures Execute(s, e.actions) == s.(db := store.State())
  {
    ghost var op := OpExpireLeases(NextStamp(store.clock.lastNow, first), NextStamp(NextStamp(store.clock.lastNow, first), second));
    var _ := store.ExpireLeases(first, second);
    Transacts(s, op);
    e := Entry([Transact(op)], store.clock.lastNow);
  }

  /** Mail comes in. */
  method DeliverNow(pipeline: Ingest.Pipeline, m: Message, blobsSynced: bool, trailWritten: bool, stopping: bool, ghost s: State)
    returns (ghost e: Entry)
    requires BindingsOk(s.db) && Holds(s, pipeline.store, pipeline) && m.state.Pending?
    modifies pipeline, pipeline.store
    ensures Does(s.db, pipeline.store.clock.lastNow, CmdDeliver(m, blobsSynced, trailWritten, stopping), e)
    ensures e.clock == pipeline.store.clock.lastNow && Holds(Execute(s, e.actions), pipeline.store, pipeline)
  {
    var _ := pipeline.Deliver(m, blobsSynced, trailWritten, stopping);
    e := Entry(if blobsSynced && trailWritten then [Receive(m)] else [], pipeline.store.clock.lastNow);
    OneAction(s, Receive(m));
  }

  /** Mail is settled. */
  method SettleNow(pipeline: Ingest.Pipeline, msg: nat, fate: Ingest.Fate, ghost s: State) returns (ghost e: Entry)
    requires StateOk(s) && Holds(s, pipeline.store, pipeline) && fate.readable
    modifies pipeline, pipeline.store
    ensures Does(s.db, pipeline.store.clock.lastNow, CmdSettle(msg, fate), e)
    ensures e.clock == pipeline.store.clock.lastNow && Holds(Execute(s, e.actions), pipeline.store, pipeline)
  {
    SettlesAndAnnounces(s, msg, Ingest.Terminal(fate));
    pipeline.Settle(msg, fate);
    e := Entry(SettleActions(msg, Ingest.Terminal(fate)), pipeline.store.clock.lastNow);
  }

  /** The backlog is recovered. */
  method RecoverNow(pipeline: Ingest.Pipeline, fates: nat -> Ingest.Fate, ghost s: State) returns (ghost e: Entry)
    requires StateOk(s) && Holds(s, pipeline.store, pipeline)
    modifies pipeline, pipeline.store
    ensures Does(s.db, pipeline.store.clock.lastNow, CmdRecover(fates), e)
    ensures e.clock == pipeline.store.clock.lastNow && Holds(Execute(s, e.actions), pipeline.store, pipeline)
  {
    ghost var done := Ingest.Backlog(s.db.messages);
    var _ := pipeline.Recover(fates);
    e := Entry(RecoverActions(done, fates), pipeline.store.clock.lastNow);
    RecoverLeaves(s, fates, pipeline.store.messages);
  }

  /** One command: the objects do what the protocol's actions for it do. */
  method Perform(store: Store, pipeline: Ingest.Pipeline, cmd: Command, ghost s: State) returns (ghost e: Entry)
    requires StateOk(s) && Holds(s, store, pipeline) && Possible(cmd)
    modifies store, store.clock, pipeline
    ensures Does(s.db, old(store.clock.lastNow), cmd, e) && e.clock == store.clock.lastNow
    ensures Holds(Execute(s, e.actions), store, pipeline)
  {
    if cmd.CmdExpireRuns? {
      e := ExpireRunsNow(store, cmd.wall, s);
    } else if cmd.CmdExpireLeases? {
      e := ExpireLeasesNow(store, cmd.first, cmd.second, s);
    } else if cmd.CmdDeliver? {
      e := DeliverNow(pipeline, cmd.m, cmd.blobsSynced, cmd.trailWritten, cmd.stopping, s);
    } else if cmd.CmdSettle? {
      e := SettleNow(pipeline, cmd.msg, cmd.fate, s);
    } else if cmd.CmdRecover? {
      e := RecoverNow(pipeline, cmd.fates, s);
    } else if cmd.CmdAcquire? || cmd.CmdSettleSeed? || cmd.CmdRelease? {
      e := Lend(store, cmd, s);
    } else {
      e := Manage(store, cmd, s);
    }
  }

  // ----- Any series of commands -----

  lemma TracedSnoc(ttl: int, cmds: seq<Command>, front: seq<Entry>, e: Entry)
    requires cmds != [] && Traced(ttl, cmds[..|cmds| - 1], front)
    requires Does(Reached(ttl, Flat(front)).db, ClockOf(front), cmds[|cmds| - 1], e)
    ensures Traced(ttl, cmds, front + [e]) && Flat(front + [e]) == Flat(front) + e.actions && ClockOf(front + [e]) == e.clock
  {
    assert (front + [e])[..|front|] == front;
  }

  method Boot(ttl: int) returns (store: Store, pipeline: Ingest.Pipeline)
    ensures Holds(Reached(ttl, []), store, pipeline) && store.clock.lastNow == 0
    ensures fresh(store) && fresh(store.clock) && fresh(pipeline)
  {
    store := new Store();
    pipeline := new Ingest.Pipeline(store);
  }

  /** A new store and its pipeline, put through any series of commands, hold what the protocol
      reaches by the actions those commands are, and their clock stands where the commands
      left it. Whatever holds of every run holds of them. */
  method PerformAll(ttl: int, cmds: seq<Command>)
    returns (store: Store, pipeline: Ingest.Pipeline, ghost entries: seq<Entry>)
    requires forall k :: 0 <= k < |cmds| ==> Possible(cmds[k])
    ensures Traced(ttl, cmds, entries) && store.clock.lastNow == ClockOf(entries)
    ensures Holds(Reached(ttl, Flat(entries)), store, pipeline)
    ensures Inv(store.State()) && Distinct(pipeline.announced)
    ensures fresh(store) && fresh(store.clock) && fresh(pipeline)
  {
    if cmds == [] {
      store, pipeline := Boot(ttl);
      entries := [];
      ReachableOk(ttl, []);
      return;
    }
    store, pipeline, entries := PerformAll(ttl, cmds[..|cmds| - 1]);
    ghost var front := entries;
    ghost var e: Entry;
    e := PerformNext(ttl, store, pipeline, cmds[|cmds| - 1], front);
    TracedSnoc(ttl, cmds, front, e);
    entries := front + [e];
  }

  method PerformNext(ttl: int, store: Store, pipeline: Ingest.Pipeline, cmd: Command, ghost front: seq<Entry>) returns (ghost e: Entry)
    requires Possible(cmd) && Holds(Reached(ttl, Flat(front)), store, pipeline) && store.clock.lastNow == ClockOf(front)
    modifies store, store.clock, pipeline
    ensures Does(Reached(ttl, Flat(front)).db, ClockOf(front), cmd, e) && e.clock == store.clock.lastNow
    ensures Holds(Reached(ttl, Flat(front) + e.actions), store, pipeline)
    ensures Inv(store.State()) && Distinct(pipeline.announced)
  {
    ReachableOk(ttl, Flat(front));
    e := Perform(store, pipeline, cmd, Reached(ttl, Flat(front)));
    ExecuteAppend(Init(ttl), Flat(front), e.actions);
    ReachableOk(ttl, Flat(front) + e.actions);
  }

  // ----- The waiter -----

  /** The predicate a claim registers: an envelope recipient equal to the address. */
  function MatchAddr(addr: string): Event -> bool {
    (ev: Event) => ev.message.Some? && addr in ev.message.value.recipients
  }

  /** The event that announces a message. */
  ghost predicate Announces(db: Db, m: nat, ev: Event) {
    m < |db.messages| && ev.message == Some(MessageRef(m, db.messages[m].envelope))
  }

  /** The waiter is the slot of this call. */
  ghost predicate IsSlotOf(w: Bus.Waiter, db: Db, c: Call)
    reads w
  {
    && c.lease < |db.leases| && db.leases[c.lease].identity < |db.identities|
    && w.wants == MatchAddr(db.identities[db.leases[c.lease].identity].addr)
    && c.waiter == Slot(w.buffer.Some?)
  }

  /** The bus loop's treatment of one waiter is the protocol's hint. */
  method OfferHint(w: Bus.Waiter, ev: Event, ghost db: Db, ghost c: Call, ghost m: nat)
    requires w.open && IsSlotOf(w, db, c) && Announces(db, m, ev)
    modifies w`buffer
    ensures IsSlotOf(w, db, Notify(db, c, m))
  {
    if w.wants(ev) { w.Deliver(ev); }
  }

  /** A wait is the parked call's turn: woken it reads again with an empty slot, let go it makes
      its last attempt, and otherwise it sleeps on. */
  method Await(w: Bus.Waiter, expired: bool, deadlineFirst: bool, ghost db: Db, ghost ttl: int, ghost busUp: bool, ghost c: Call, ghost clock: Time)
    returns (r: Bus.Waited)
    requires IsSlotOf(w, db, c) && c.pc.Parked?
    modifies w`buffer
    ensures var next := NextCall(db, ttl, busUp, c, clock, r.Released?).call;
            && IsSlotOf(w, db, next)
            && next.pc == (match r case Woken(_) => Querying(false) case Released => Querying(true) case Parked => Pc.Parked)
  {
    r := w.Wait(expired, deadlineFirst);
  }
}
