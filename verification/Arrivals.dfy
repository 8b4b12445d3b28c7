/** Mail that arrives while its address is leased (internal/store/bindings.go): exactly when it
    binds, which clocks always let it bind, and a run in which it does not. */
module Arrivals {
  import opened Base
  import opened Clock
  import opened Tables
  import opened Invariants
  import opened Lifecycle
  import opened Correlation
  import opened Protocol
  import opened ProtocolProofs
  import opened Histories
  import opened Guarantees
  import opened Wakeups
  import opened Fleets

  ghost predicate BindsTo(db: Db, m: Message, lease: nat) {
    exists b :: b in Deliver(db, m).0.bindings && b !in db.bindings && b.lease == lease
  }

  /** The lease is held and the envelope names its address in some spelling. */
  predicate AddressedTo(db: Db, m: Message, lease: nat, addr: string) {
    && lease < |db.leases| && db.leases[lease].state.Held? && db.leases[lease].identity < |db.identities|
    && addr in m.envelope && addr != "" && SameAddress(db.identities[db.leases[lease].identity].addr, addr)
  }

  lemma OldRowsAreOld(db: Db)
    requires BindingsOk(db)
    ensures forall b :: b in db.bindings ==> b.msg < |db.messages|
  {
    forall b | b in db.bindings ensures b.msg < |db.messages| {
      var i :| 0 <= i < |db.bindings| && db.bindings[i] == b;
      assert BindingOk(db, db.bindings[i]);
    }
  }

  lemma OwnedIsBound(db: Db, m: Message, lease: nat, addr: string)
    requires Inv(db) && Deliver(db, m).1.Ok? && addr in m.envelope && addr != "" && OwnsAddress(db, lease, addr, m.received)
    ensures BindsTo(db, m, lease)
  {
    BindMeaning(db, |db.messages|, m, |m.envelope|);
    var bound := BindRecipients(db, |db.messages|, m, |m.envelope|).value;
    var k :| 0 <= k < |m.envelope| && m.envelope[k] == addr;
    assert HasOwner(db, addr, m.received) && Correlation.Answered(db, m, m.envelope[k], bound);
    var i :| 0 <= i < |bound.bindings| && bound.bindings[i].addr == addr;
    var b := bound.bindings[i];
    assert RightRow(db, |db.messages|, m, b);
    OneOwnerOfAddress(db, lease, b.lease, addr, b.addr, m.received);
    OldRowsAreOld(db);
    assert b in Deliver(db, m).0.bindings;
  }

  /** A message stored while a lease is held and naming its address is bound to it exactly when
      the lease did not begin after the message was received. */
  lemma HeldLeaseBinds(db: Db, m: Message, lease: nat, addr: string)
    requires Inv(db) && Deliver(db, m).1.Ok? && AddressedTo(db, m, lease, addr)
    ensures BindsTo(db, m, lease) <==> db.leases[lease].acquired <= m.received
  {
    assert LeaseOk(db, db.leases[lease]);
    if db.leases[lease].acquired <= m.received {
      OwnedIsBound(db, m, lease, addr);
    } else if BindsTo(db, m, lease) {
      var b :| b in Deliver(db, m).0.bindings && b !in db.bindings && b.lease == lease;
      CleanWasHeld(db, m, b);
    }
  }

  // ----- Stamps against readings -----

  /** A stamp is ahead of an instant exactly when the start or some reading pushed it there. */
  lemma StampAheadIff(last: Time, readings: seq<Time>, k: nat, at: Time)
    requires k < |readings|
    ensures Stamps(last, readings)[k] > at <==>
            last + k + 1 > at || exists j :: 0 <= j <= k && Pushed(readings, j, k) > at
  {
    StampFormula(last, readings, k);
    var stamp := Stamps(last, readings)[k];
    assert forall j :: 0 <= j <= k ==> stamp >= Pushed(readings, j, k);
    if stamp > at && stamp != last + k + 1 {
      var j :| 0 <= j <= k && stamp == Truncate(readings[j], MILLISECOND) + (k - j);
      assert Pushed(readings, j, k) > at;
    }
  }

  /** Where reading j leaves stamp k. */
  function Pushed(readings: seq<Time>, j: int, k: int): Time
    requires 0 <= j < |readings|
  {
    Truncate(readings[j], MILLISECOND) + (k - j)
  }

  ghost predicate Advancing(last: Time, readings: seq<Time>) {
    && (readings != [] ==> last < readings[0])
    && (forall j :: 0 <= j < |readings| - 1 ==> readings[j] < readings[j + 1])
  }

  lemma {:induction false} ReadingsSpread(last: Time, readings: seq<Time>, j: nat, k: nat)
    requires Advancing(last, readings) && j <= k < |readings|
    ensures readings[k] >= readings[j] + (k - j) && readings[k] > last + k
    decreases k
  {
    if k > 0 {
      ReadingsSpread(last, readings, if j < k then j else k - 1, k - 1);
    }
  }

  /** A clock that advances between readings never runs ahead of them. */
  lemma AdvancingNeverAhead(last: Time, readings: seq<Time>, k: nat)
    requires Advancing(last, readings) && k < |readings|
    ensures Stamps(last, readings)[k] <= readings[k]
  {
    StampAheadIff(last, readings, k, readings[k]);
    ReadingsSpread(last, readings, k, k);
    forall j | 0 <= j <= k ensures Pushed(readings, j, k) <= readings[k] { ReadingsSpread(last, readings, j, k); }
  }

  // ----- Over whole runs -----

  /** No stamp of the transaction is past the instant. */
  predicate StampedBy(op: Op, at: Time) {
    match op
    case OpAcquire(_, _, _, now) => now <= at
    case OpSettleSeed(_, _, now) => now <= at
    case OpRelease(_, now) => now <= at
    case OpEndRun(_, _, now) => now <= at
    case OpExpireRuns(_, stamps) => forall k :: 0 <= k < |stamps| ==> stamps[k] <= at
    case OpExpireLeases(expired, _) => expired <= at
    case _ => true
  }

  predicate LeasesBy(leases: seq<Lease>, at: Time) {
    forall i :: 0 <= i < |leases| ==> leases[i].acquired <= at && (leases[i].released.Some? ==> leases[i].released.value <= at)
  }

  lemma {:induction false} EndRunsBy(db: Db, ids: seq<nat>, stamps: seq<Time>, at: Time)
    requires |ids| == |stamps| && LeasesBy(db.leases, at) && forall k :: 0 <= k < |stamps| ==> stamps[k] <= at
    ensures LeasesBy(EndRuns(db, ids, stamps).leases, at)
    decreases |ids|
  {
    if ids != [] { EndRunsBy(db, ids[..|ids| - 1], stamps[..|ids| - 1], at); }
  }

  lemma ApplyLeasesBy(db: Db, op: Op, at: Time)
    requires LeasesBy(db.leases, at) && StampedBy(op, at)
    ensures LeasesBy(Apply(db, op).leases, at)
  {
    if op.OpExpireRuns? && |op.stamps| == |Overdue(db.runs, op.now)| { EndRunsBy(db, Overdue(db.runs, op.now), op.stamps, at); }
  }

  predicate AllStampedBy(actions: seq<Action>, at: Time) {
    forall k :: 0 <= k < |actions| && actions[k].Transact? ==> StampedBy(actions[k].op, at)
  }

  lemma TurnLeases(db: Db, ttl: int, busUp: bool, c: Call, clock: Time, stop: bool)
    ensures NextCall(db, ttl, busUp, c, clock, stop).db.leases == db.leases
  {
  }

  lemma StepLeasesBy(s: State, a: Action, at: Time)
    requires LeasesBy(s.db.leases, at) && (a.Transact? ==> StampedBy(a.op, at))
    ensures LeasesBy(Step(s, a).db.leases, at)
  {
    match a
    case Transact(op) => ApplyLeasesBy(s.db, op, at);
    case StepCall(i, clock, stop) => if i < |s.calls| { TurnLeases(s.db, s.ttl, s.busUp, s.calls[i], clock, stop); }
    case _ =>
  }

  lemma {:induction false} ExecuteLeasesBy(s: State, actions: seq<Action>, at: Time)
    requires LeasesBy(s.db.leases, at) && AllStampedBy(actions, at)
    ensures LeasesBy(Execute(s, actions).db.leases, at)
    decreases |actions|
  {
    if actions != [] {
      var front, a := actions[..|actions| - 1], actions[|actions| - 1];
      ExecuteLeasesBy(s, front, at);
      StepLeasesBy(Execute(s, front), a, at);
      ExecuteLast(s, front, a, actions);
    }
  }

  /** In every run whose stamps so far are not past the receive time, mail for a held lease is
      bound to it; with AdvancingNeverAhead, a clock that advances is enough. */
  lemma HeldMailBinds(ttl: int, actions: seq<Action>, m: Message, lease: nat, addr: string)
    requires AllStampedBy(actions, m.received)
    requires Deliver(Reached(ttl, actions).db, m).1.Ok? && AddressedTo(Reached(ttl, actions).db, m, lease, addr)
    ensures BindsTo(Reached(ttl, actions).db, m, lease)
  {
    ReachableOk(ttl, actions);
    ExecuteLeasesBy(Init(ttl), actions, m.received);
    HeldLeaseBinds(Reached(ttl, actions).db, m, lease, addr);
  }

  /** The store clock of one server start: the stamp it began after and what it read. */
  datatype Process = Process(last: Time, readings: seq<Time>)

  /** The clock advanced between readings, and none of them is past the instant. */
  ghost predicate AdvancedTo(p: Process, at: Time) {
    Advancing(p.last, p.readings) && forall k :: 0 <= k < |p.readings| ==> p.readings[k] <= at
  }

  ghost predicate StampOf(processes: seq<Process>, stamp: Time) {
    exists p: nat, k: nat :: p < |processes| && k < |processes[p].readings| && Stamps(processes[p].last, processes[p].readings)[k] == stamp
  }

  /** The transaction took its stamps from these clocks. */
  ghost predicate Stamped(op: Op, processes: seq<Process>) {
    match op
    case OpCreateRun(_, now) => StampOf(processes, now)
    case OpAcquire(_, _, _, now) => StampOf(processes, now)
    case OpSettleSeed(_, _, now) => StampOf(processes, now)
    case OpRelease(_, now) => StampOf(processes, now)
    case OpEndRun(_, _, now) => StampOf(processes, now)
    case OpExpireRuns(now, stamps) => StampOf(processes, now) && forall k :: 0 <= k < |stamps| ==> StampOf(processes, stamps[k])
    case OpExpireLeases(expired, now) => StampOf(processes, expired) && StampOf(processes, now)
    case _ => true
  }

  ghost predicate AllStamped(actions: seq<Action>, processes: seq<Process>) {
    forall k :: 0 <= k < |actions| && actions[k].Transact? ==> Stamped(actions[k].op, processes)
  }

  lemma StampNotPast(processes: seq<Process>, stamp: Time, at: Time)
    requires StampOf(processes, stamp) && forall p :: 0 <= p < |processes| ==> AdvancedTo(processes[p], at)
    ensures stamp <= at
  {
    var p: nat, k: nat :| p < |processes| && k < |processes[p].readings| && Stamps(processes[p].last, processes[p].readings)[k] == stamp;
    AdvancingNeverAhead(processes[p].last, processes[p].readings, k);
  }

  lemma StampedNotPast(op: Op, processes: seq<Process>, at: Time)
    requires Stamped(op, processes) && forall p :: 0 <= p < |processes| ==> AdvancedTo(processes[p], at)
    ensures StampedBy(op, at)
  {
    forall stamp | StampOf(processes, stamp) ensures stamp <= at { StampNotPast(processes, stamp, at); }
  }

  /** Clocks that advance between readings never lose mail: in every run whose stamps come from
      such clocks, over any number of restarts, a message received no earlier than the last
      reading and addressed to a held lease is bound to it. */
  lemma AdvancingClocksBind(ttl: int, actions: seq<Action>, processes: seq<Process>, m: Message, lease: nat, addr: string)
    requires AllStamped(actions, processes) && forall p :: 0 <= p < |processes| ==> AdvancedTo(processes[p], m.received)
    requires Deliver(Reached(ttl, actions).db, m).1.Ok? && AddressedTo(Reached(ttl, actions).db, m, lease, addr)
    ensures BindsTo(Reached(ttl, actions).db, m, lease)
  {
    forall k | 0 <= k < |actions| && actions[k].Transact? ensures StampedBy(actions[k].op, m.received) {
      StampedNotPast(actions[k].op, processes, m.received);
    }
    HeldMailBinds(ttl, actions, m, lease, addr);
  }

  // ----- A run that misses its mail -----

  /** Three readings of one instant, at the start of a millisecond. */
  const TICK: seq<Time> := [1_000_000, 1_000_000, 1_000_000]

  lemma StampsNext(last: Time, front: seq<Time>, reading: Time)
    ensures Stamps(last, front + [reading])
            == Stamps(last, front) + [NextStamp(if front == [] then last else Stamps(last, front)[|front| - 1], reading)]
  {
    assert (front + [reading])[..|front|] == front;
  }

  lemma TickStamps()
    ensures Stamps(0, TICK) == [1_000_000, 1_000_001, 1_000_002]
  {
    var r := 1_000_000;
    StampsNext(0, [], r);
    assert [] + [r] == [r] && Stamps(0, [r]) == [r];
    StampsNext(0, [r], r);
    assert [r] + [r] == [r, r] && Stamps(0, [r, r]) == [r, r + 1];
    StampsNext(0, [r, r], r);
    assert [r, r] + [r] == TICK;
  }

  /** The run, the identity and the lease each take one of the stamps. */
  function Quick(): seq<Action> {
    [Transact(OpCreateRun(9_000_000, 1_000_000)), Transact(OpCreateIdentity("a@x", Pooled)), Transact(OpAcquire(0, 0, 500, 1_000_002))]
  }

  /** The wall has moved on by a nanosecond when the mail comes in. */
  const EARLY: Message := Message(["a@x"], 1_000_001, Some(1_000_001), false, true, true, Pending)

  lemma QuickState(ttl: int)
    ensures var db := Reached(ttl, Quick()).db;
            && db.identities == [Identity("a@x", Pooled, None)] && db.bindings == [] && db.messages == []
            && db.leases == [Lease(0, 0, Held, SeedPending, 1_000_002, 1_000_502, None, false)]
  {
    var ops := Quick();
    Three(Init(ttl), ops[0], ops[1], ops[2]);
  }

  lemma EarlyUnbound(db: Db)
    requires db.identities == [Identity("a@x", Pooled, None)] && db.bindings == [] && db.messages == []
    requires db.leases == [Lease(0, 0, Held, SeedPending, 1_000_002, 1_000_502, None, false)]
    ensures Deliver(db, EARLY).1.Ok? && Deliver(db, EARLY).0.bindings == []
  {
    var m := EARLY;
    assert !OwnsAt(db.leases[0], 1_000_001);
    assert LeaseAt(db, 1, "a@x", 1_000_001) == None;
    assert m.envelope[0] == "a@x" && m.envelope[..0] == [] && [] + ["a@x"] == ["a@x"];
    assert BindRecipients(db, 0, m, 0) == Some(Bound([], []));
    assert BindOne(db, 0, m, 0, Bound([], [])) == Some(Bound([], ["a@x"]));
    assert BindRecipients(db, 0, m, 1) == Some(Bound([], ["a@x"]));
  }

  /** No reading went backwards, the lease is held and the mail names its address, and it is
      bound to nobody: stamps that collide run ahead of the wall by a nanosecond each, and the
      receive time is the wall's. */
  lemma MailMissed(ttl: int)
    ensures var db := Reached(ttl, Quick()).db;
            && (forall k :: 0 <= k < |TICK| ==> TICK[k] < EARLY.received)
            && Stamps(0, TICK)[2] == 1_000_002
            && AddressedTo(db, EARLY, 0, "a@x") && Deliver(db, EARLY).1.Ok? && !BindsTo(db, EARLY, 0)
            && Deliver(db, EARLY).0.bindings == []
  {
    TickStamps();
    QuickState(ttl);
    EarlyUnbound(Reached(ttl, Quick()).db);
    assert SameAddress("a@x", "a@x");
  }
}
