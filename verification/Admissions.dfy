/** From mail to its answer: a message for a lease that may claim ends in claim_ok for whoever
    asks first, whatever happened before; and runs in which every kind of lease gets there. */
module Admissions {
  import opened Base
  import opened Clock
  import opened Tables
  import opened Invariants
  import opened Candidates
  import opened Lifecycle
  import opened Correlation
  import opened Rules
  import opened Protocol
  import opened ProtocolProofs
  import opened Histories
  import opened Guarantees
  import opened Wakeups
  import opened Fleets
  import opened Turns
  import opened Arrivals

  // ----- A call with a fresh key -----

  /** The lease may claim: held, its seed settled well, its run active, and neither over yet. */
  predicate MayClaim(db: Db, lease: nat, clock: Time) {
    && lease < |db.leases| && db.leases[lease].run < |db.runs|
    && db.leases[lease].state.Held? && db.leases[lease].seed in {Seeded, Skipped} && clock < db.leases[lease].expires
    && db.runs[db.leases[lease].run].state.Active? && clock < db.runs[db.leases[lease].run].expires
  }

  /** Nobody has used this key of the lease. */
  predicate FreshKey(db: Db, lease: nat, key: string) {
    key != "" && forall k :: 0 <= k < |db.claims| ==> db.claims[k].lease != lease || db.claims[k].key != key
  }

  lemma TurnThenAnswer(s: State, i: nat, clock: Time, next: Call)
    requires i < |s.calls| && NextCall(s.db, s.ttl, s.busUp, s.calls[i], clock, false) == Turn(s.db, next, None)
    requires next.lease == s.calls[i].lease && next.kind == s.calls[i].kind && next.key == s.calls[i].key
    requires CanAnswer(WithCall(s, i, next), i)
    ensures CanAnswer(s, i)
  {
    var a := StepCall(i, clock, false);
    OneStep(s, a);
    assert Step(s, a) == WithCall(s, i, next);
    AnswerLater(s, [a], i);
  }

  lemma ReadThenAnswer(s: State, i: nat, m: nat, clock: Time)
    requires Inv(s.db) && i < |s.calls| && s.calls[i].pc == Querying(false) && InGrant(s, s.calls[i], clock)
    requires Takeable(s.db, s.calls[i].lease, s.calls[i].kind, m)
    ensures CanAnswer(s, i)
  {
    var c, a := s.calls[i], StepCall(i, clock, false);
    OneStep(s, a);
    ReadTurn(s, i, false, clock);
    ReadOffers(s.db, c.lease, c.kind, m);
    var t := Step(s, a);
    TakesOffer(t, i, t.calls[i].pc.rest, clock);
    AnswerLater(s, [a], i);
  }

  /** The turns from the start of a call to its first read. */
  lemma EarlyTurns(s: State, i: nat, clock: Time)
    requires i < |s.calls| && MayClaim(s.db, s.calls[i].lease, clock) && FreshKey(s.db, s.calls[i].lease, s.calls[i].key)
    requires s.calls[i].waits ==> s.busUp
    ensures var c, row := s.calls[i], s.db.leases[s.calls[i].lease];
            && NextCall(s.db, s.ttl, s.busUp, c.(pc := Begin), clock, false) == Turn(s.db, c.(pc := HaveLease(row)), None)
            && NextCall(s.db, s.ttl, s.busUp, c.(pc := HaveLease(row)), clock, false) == Turn(s.db, c.(pc := Admitted), None)
            && NextCall(s.db, s.ttl, s.busUp, c.(pc := Admitted), clock, false) == Turn(s.db, c.(pc := Registering), None)
            && NextCall(s.db, s.ttl, s.busUp, c.(pc := Registering), clock, false)
               == Turn(s.db, c.(pc := Querying(false), waiter := if c.waits then Slot(false) else c.waiter), None)
  {
    var c := s.calls[i];
    forall k: nat ensures !RecordedAs(s.db, c, k) {}
    NoKeyTurn(s.db, c, clock);
  }

  lemma FreshCallAnswers(s: State, i: nat, m: nat, clock: Time)
    requires Inv(s.db) && s.ttl > 0 && i < |s.calls| && s.calls[i].pc.Begin? && (s.calls[i].waits ==> s.busUp)
    requires MayClaim(s.db, s.calls[i].lease, clock) && FreshKey(s.db, s.calls[i].lease, s.calls[i].key)
    requires Takeable(s.db, s.calls[i].lease, s.calls[i].kind, m)
    ensures CanAnswer(s, i)
  {
    var c, row := s.calls[i], s.db.leases[s.calls[i].lease];
    EarlyTurns(s, i, clock);
    var reading := c.(pc := Querying(false), waiter := if c.waits then Slot(false) else c.waiter);
    ReadThenAnswer(WithCall(s, i, reading), i, m, clock);
    WithTwice(s, i, c.(pc := Registering), reading);
    TurnThenAnswer(WithCall(s, i, c.(pc := Registering)), i, clock, reading);
    WithTwice(s, i, c.(pc := Admitted), c.(pc := Registering));
    TurnThenAnswer(WithCall(s, i, c.(pc := Admitted)), i, clock, c.(pc := Registering));
    WithTwice(s, i, c.(pc := HaveLease(row)), c.(pc := Admitted));
    TurnThenAnswer(WithCall(s, i, c.(pc := HaveLease(row))), i, clock, c.(pc := Admitted));
    TurnThenAnswer(s, i, clock, c.(pc := HaveLease(row)));
  }

  lemma WithTwice(s: State, i: nat, c: Call, d: Call)
    requires i < |s.calls|
    ensures WithCall(WithCall(s, i, c), i, d) == WithCall(s, i, d)
  {
    assert s.calls[i := c][i := d] == s.calls[i := d];
  }

  // ----- Mail for a lease that may claim -----

  /** The message is for the lease, of its time, and beyond doubt: a lease taken in a cooldown is
      doubted for good, and one of a pooled address wants an origin no older than the second it
      began in. */
  predicate MeantFor(db: Db, m: Message, lease: nat, addr: string) {
    && lease < |db.leases| && db.leases[lease].identity < |db.identities| && db.leases[lease].run < |db.runs|
    && var l, i := db.leases[lease], db.identities[db.leases[lease].identity];
       && addr in m.envelope && addr != "" && SameAddress(i.addr, addr)
       && l.acquired <= m.received && db.runs[l.run].checkpoint <= m.received
       && !l.inCooldown && !m.quarantined && m.extractionOpens
       && (i.mode.Pooled? ==> m.origin.Some? && l.acquired - l.acquired % 1_000_000_000 <= m.origin.value)
  }

  /** The message is stored, then settled with this result, and a call asks for it. */
  function Asking(n: nat, m: Message, v: Extraction, lease: nat, kind: Kind, key: string, waits: bool): seq<Action> {
    [Receive(m), SettleMessage(n, Success(v)), StartCall(lease, kind, key, waits)]
  }

  lemma StoredClean(db: Db, m: Message, lease: nat, addr: string)
    requires Inv(db) && Deliver(db, m).1.Ok? && MeantFor(db, m, lease, addr) && db.leases[lease].state.Held?
    ensures CleanlyBound(Deliver(db, m).0, |db.messages|, lease)
  {
    HeldLeaseBinds(db, m, lease, addr);
    var b :| b in Deliver(db, m).0.bindings && b !in db.bindings && b.lease == lease;
    DeliveryJudges(db, m, b);
    assert LeaseOk(db, db.leases[lease]);
    var i :| 0 <= i < |Deliver(db, m).0.bindings| && Deliver(db, m).0.bindings[i] == b;
  }

  lemma NotYetClaimed(db: Db, kind: Kind)
    requires ClaimsOk(db)
    ensures !IsClaimed(db.claims, |db.messages|, kind)
  {
    forall k | 0 <= k < |db.claims| ensures db.claims[k].msg < |db.messages| { assert ClaimOk(db, db.claims[k]); }
  }

  lemma StoredIsTakeable(db: Db, m: Message, v: Extraction, lease: nat, addr: string, kind: Kind)
    requires Inv(db) && Deliver(db, m).1.Ok? && MeantFor(db, m, lease, addr) && db.leases[lease].state.Held?
    requires ValueFor(v, kind) != ""
    ensures var after := SettleExtraction(Deliver(db, m).0, |db.messages|, Success(v)).0;
            Takeable(after, lease, kind, |db.messages|)
  {
    StoredClean(db, m, lease, addr);
    NotYetClaimed(db, kind);
  }

  lemma DeliveredPending(db: Db, m: Message, v: Extraction)
    requires Deliver(db, m).1.Ok?
    ensures var stored := Deliver(db, m).0;
            && SettleExtraction(stored, |db.messages|, Success(v)).1.Ok?
            && var t := SettleExtraction(stored, |db.messages|, Success(v)).0;
               t.leases == db.leases && t.runs == db.runs && t.claims == db.claims && t.identities == db.identities
  {
  }

  lemma StartLeaves(s: State, lease: nat, kind: Kind, key: string, waits: bool)
    requires lease < |s.db.leases| && key != ""
    ensures var t := Step(s, StartCall(lease, kind, key, waits));
            && t.db == s.db && t.ttl == s.ttl && t.busUp == s.busUp && t.given == s.given
            && |t.calls| == |s.calls| + 1 && t.calls[|s.calls|] == Call(lease, kind, key, waits, Begin, NoWaiter, s.db)
  {
  }

  lemma MailStepLeaves(s: State, a: Action)
    requires a.Receive? || a.SettleMessage?
    ensures var t := Step(s, a); t.calls == s.calls && t.ttl == s.ttl && t.busUp == s.busUp && t.given == s.given
    ensures a.Receive? && Deliver(s.db, a.m).1.Ok? ==> Step(s, a).db == Deliver(s.db, a.m).0
    ensures a.SettleMessage? && SettleExtraction(s.db, a.msg, a.terminal).1.Ok? ==> Step(s, a).db == SettleExtraction(s.db, a.msg, a.terminal).0
  {
  }

  lemma AskingLeaves(s: State, m: Message, v: Extraction, lease: nat, kind: Kind, key: string, waits: bool)
    requires Deliver(s.db, m).1.Ok? && lease < |s.db.leases| && key != ""
    ensures var t := Execute(s, Asking(|s.db.messages|, m, v, lease, kind, key, waits));
            && t.db == SettleExtraction(Deliver(s.db, m).0, |s.db.messages|, Success(v)).0
            && t.db.leases == s.db.leases && t.db.runs == s.db.runs && t.db.claims == s.db.claims && t.db.identities == s.db.identities
            && t.ttl == s.ttl && t.busUp == s.busUp && t.given == s.given
            && |t.calls| == |s.calls| + 1 && t.calls[|s.calls|] == Call(lease, kind, key, waits, Begin, NoWaiter, t.db)
  {
    var acts := Asking(|s.db.messages|, m, v, lease, kind, key, waits);
    Three(s, acts[0], acts[1], acts[2]);
    DeliveredPending(s.db, m, v);
    MailStepLeaves(s, acts[0]);
    MailStepLeaves(Step(s, acts[0]), acts[1]);
    StartLeaves(Step(Step(s, acts[0]), acts[1]), lease, kind, key, waits);
  }

  lemma UnclashedDelivers(db: Db, m: Message)
    requires Inv(db) && !ClashWithin(db, m, |m.envelope|)
    ensures Deliver(db, m).1.Ok?
  {
    BindRefusedIff(db, |db.messages|, m, |m.envelope|);
  }

  /** In every run: a message that arrives for a lease that may claim, is meant for it and
      settles with a value can be claimed by a fresh key until lease or run expire, unless its
      envelope names one leased address in two spellings. The call's own turns end in claim_ok:
      with this message, or with an older one nobody had taken. */
  lemma MailIsClaimed(ttl: int, actions: seq<Action>, m: Message, v: Extraction, lease: nat, addr: string,
                      kind: Kind, key: string, waits: bool, clock: Time)
    requires ttl > 0
    requires var s := Reached(ttl, actions);
             && !ClashWithin(s.db, m, |m.envelope|) && MeantFor(s.db, m, lease, addr) && MayClaim(s.db, lease, clock)
             && FreshKey(s.db, lease, key) && (waits ==> s.busUp)
    requires (if kind.EmailOTP? then v.otpBest else v.verifyLinkBest) != ""
    ensures var s := Reached(ttl, actions);
            var t := Reached(ttl, actions + Asking(|s.db.messages|, m, v, lease, kind, key, waits));
            CanAnswer(t, |s.calls|) && !KeyUsed(t.db.claims, lease, key)
  {
    var s := Reached(ttl, actions);
    var acts := Asking(|s.db.messages|, m, v, lease, kind, key, waits);
    ReachableOk(ttl, actions);
    UnclashedDelivers(s.db, m);
    ReachableOk(ttl, actions + acts);
    ReachedTtl(Init(ttl), actions);
    ExecuteAppend(Init(ttl), actions, acts);
    AskingLeaves(s, m, v, lease, kind, key, waits);
    StoredIsTakeable(s.db, m, v, lease, addr, kind);
    FreshCallAnswers(Reached(ttl, actions + acts), |s.calls|, |s.db.messages|, clock);
  }

  // ----- Every kind of lease gets there -----

  const HALF_PAST: Time := 5_500_000_000

  /** One lease of one address, with its seed settled, that began half way through a second. */
  function Grant(mode: Mode, seed: SeedState): seq<Action> {
    [Transact(OpCreateRun(10_000_000_000, 1)), Transact(OpCreateIdentity("a@x", mode)),
     Transact(OpAcquire(0, 0, 10_000_000_000, HALF_PAST)), Transact(OpSettleSeed(0, seed, HALF_PAST + 1))]
  }

  function Granted(mode: Mode, seed: SeedState): Db {
    EMPTY.(runs := [Run(Active, 1, 10_000_000_001, None)], identities := [Identity("a@x", mode, None)],
           leases := [Lease(0, 0, Held, seed, HALF_PAST, 15_500_000_000, None, false)])
  }

  lemma Grants(ttl: int, mode: Mode, seed: SeedState)
    requires seed in {Seeded, Skipped}
    ensures var s := Reached(ttl, Grant(mode, seed)); s == Init(ttl).(db := Granted(mode, seed))
  {
    var ops, s := Grant(mode, seed), Init(ttl);
    Three(s, ops[0], ops[1], ops[2]);
    ExecuteLast(s, [ops[0], ops[1], ops[2]], ops[3], ops);
    var run := [Run(Active, 1, 10_000_000_001, None)];
    assert Step(s, ops[0]).db == EMPTY.(runs := run);
    assert Step(Step(s, ops[0]), ops[1]).db == EMPTY.(runs := run, identities := [Identity("a@x", mode, None)]);
    assert PreviousLease([], 0, 0) == None;
  }

  /** Mail dated by the second in which the lease began. */
  function Dated(state: ExtractionState): Message {
    Message(["a@x"], HALF_PAST + 2, Some(5_000_000_000), false, true, true, state)
  }

  lemma DatedBinds(mode: Mode, seed: SeedState)
    ensures Deliver(Granted(mode, seed), Dated(Pending)).1.Ok?
  {
    var db, m := Granted(mode, seed), Dated(Pending);
    assert BindRecipients(db, 0, m, 0) == Some(Bound([], []));
  }

  lemma OwnStepKeeps(s: State, a: Action, i: nat)
    requires Own(a, i)
    ensures Step(s, a).db.leases == s.db.leases && Step(s, a).db.identities == s.db.identities
  {
  }

  lemma {:induction false} OwnKeeps(s: State, schedule: seq<Action>, i: nat)
    requires OwnAll(schedule, i)
    ensures Execute(s, schedule).db.leases == s.db.leases && Execute(s, schedule).db.identities == s.db.identities
    decreases |schedule|
  {
    if schedule != [] {
      var n := |schedule| - 1;
      OwnKeeps(s, schedule[..n], i);
      OwnStepKeeps(Execute(s, schedule[..n]), schedule[n], i);
    }
  }

  ghost predicate Wins(ttl: int, actions: seq<Action>, mode: Mode, seed: SeedState, kind: Kind) {
    var s := Reached(ttl, actions);
    && |s.given| == 1 && s.given[0].outcome.reason.ClaimOK? && s.given[0].kind == kind && s.given[0].lease == 0
    && |s.db.identities| == 1 && s.db.identities[0].mode == mode && |s.db.leases| == 1 && s.db.leases[0].seed == seed
  }

  /** The store with its one lease, the message settled, and the call about to start. */
  function GrantAndAsk(mode: Mode, seed: SeedState, kind: Kind, waits: bool): seq<Action> {
    Grant(mode, seed) + Asking(0, Dated(Pending), Extraction("482913", "https://x"), 0, kind, "k", waits)
  }

  lemma CanWin(ttl: int, mode: Mode, seed: SeedState, kind: Kind, waits: bool)
    requires ttl > 0 && seed in {Seeded, Skipped}
    ensures var t := Reached(ttl, GrantAndAsk(mode, seed, kind, waits)); CanAnswer(t, 0) && !KeyUsed(t.db.claims, 0, "k")
  {
    Grants(ttl, mode, seed);
    DatedBinds(mode, seed);
    assert SameAddress("a@x", "a@x");
    MailIsClaimed(ttl, Grant(mode, seed), Dated(Pending), Extraction("482913", "https://x"), 0, "a@x", kind, "k", waits, HALF_PAST + 3);
  }

  lemma Asks(ttl: int, mode: Mode, seed: SeedState, kind: Kind, waits: bool)
    requires seed in {Seeded, Skipped}
    ensures var t := Reached(ttl, GrantAndAsk(mode, seed, kind, waits));
            && t.given == [] && t.db.leases == Granted(mode, seed).leases && t.db.identities == Granted(mode, seed).identities
            && |t.calls| == 1 && t.calls[0].lease == 0 && t.calls[0].kind == kind && t.calls[0].key == "k"
  {
    var v := Extraction("482913", "https://x");
    Grants(ttl, mode, seed);
    DatedBinds(mode, seed);
    ExecuteAppend(Init(ttl), Grant(mode, seed), Asking(0, Dated(Pending), v, 0, kind, "k", waits));
    AskingLeaves(Reached(ttl, Grant(mode, seed)), Dated(Pending), v, 0, kind, "k", waits);
  }

  /** A claim under a lease of an ephemeral or a pooled address, seeded or not, does end in
      claim_ok, with mail dated no earlier than the second the lease began in. */
  lemma EveryGrantWins(ttl: int, mode: Mode, seed: SeedState, kind: Kind, waits: bool)
    requires ttl > 0 && seed in {Seeded, Skipped}
    ensures exists actions: seq<Action> :: Wins(ttl, actions, mode, seed, kind)
  {
    var front := GrantAndAsk(mode, seed, kind, waits);
    CanWin(ttl, mode, seed, kind, waits);
    Asks(ttl, mode, seed, kind, waits);
    var t := Reached(ttl, front);
    var schedule: seq<Action> :| AnsweredBy(t, schedule, 0);
    ExecuteAppend(Init(ttl), front, schedule);
    OwnKeeps(t, schedule, 0);
    assert Wins(ttl, front + schedule, mode, seed, kind);
  }
}
