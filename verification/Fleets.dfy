/** Runs of the protocol built up action by action: any number of leases, one message to all
    of them, and calls that each take a few turns. */
module Fleets {
  import opened Base
  import opened Clock
  import opened Tables
  import opened Invariants
  import opened Candidates
  import opened Lifecycle
  import opened Correlation
  import opened Protocol
  import opened ProtocolProofs
  import opened Histories
  import opened Guarantees
  import opened Wakeups

  // ----- Leases -----

  /** Addresses no two of which the collation equates. */
  predicate Spread(addrs: seq<string>) {
    && (forall i :: 0 <= i < |addrs| ==> addrs[i] != "")
    && (forall i, j :: 0 <= i < j < |addrs| ==> !SameAddress(addrs[i], addrs[j]))
  }

  /** One active run holds one claimable lease per address. */
  predicate Fleet(db: Db, addrs: seq<string>) {
    && db.runs == [Run(Active, 1, 1001, None)]
    && |db.identities| == |db.leases| == |addrs|
    && (forall i :: 0 <= i < |addrs| ==> db.identities[i] == Identity(addrs[i], Ephemeral, None))
    && (forall i: nat :: i < |addrs| ==> db.leases[i] == Rented(i))
  }

  function Rented(i: nat): Lease { Lease(0, i, Held, Skipped, 10, 510, None, false) }

  predicate NoMail(db: Db) { db.messages == [] && db.bindings == [] && db.claims == [] }

  predicate Idle(s: State, ttl: int) { s == State(s.db, ttl, [], [], {}, [], [], {}, true, []) }

  function Rent(n: nat, addr: string): seq<Action> {
    [Transact(OpCreateIdentity(addr, Ephemeral)), Transact(OpAcquire(0, n, 500, 10)), Transact(OpSettleSeed(n, Skipped, 11))]
  }

  function OpenFleet(addrs: seq<string>): seq<Action> {
    if addrs == [] then [Transact(OpCreateRun(1000, 1))]
    else OpenFleet(addrs[..|addrs| - 1]) + Rent(|addrs| - 1, addrs[|addrs| - 1])
  }

  lemma Two(s: State, a: Action, b: Action)
    ensures Execute(s, [a, b]) == Step(Step(s, a), b)
  {
    OneStep(s, a);
    ExecuteLast(s, [a], b, [a, b]);
  }

  lemma Three(s: State, a: Action, b: Action, c: Action)
    ensures Execute(s, [a, b, c]) == Step(Step(Step(s, a), b), c)
  {
    Two(s, a, b);
    ExecuteLast(s, [a, b], c, [a, b, c]);
  }

  lemma NewIdentity(db: Db, addrs: seq<string>, addr: string)
    requires Fleet(db, addrs) && Spread(addrs + [addr])
    ensures Apply(db, OpCreateIdentity(addr, Ephemeral)) == db.(identities := db.identities + [Identity(addr, Ephemeral, None)])
  {
    assert (addrs + [addr])[|addrs|] == addr;
    forall i | 0 <= i < |addrs| ensures !SameAddress(db.identities[i].addr, addr) { assert (addrs + [addr])[i] == addrs[i]; }
  }

  lemma NewLease(db: Db, n: nat)
    requires db.runs == [Run(Active, 1, 1001, None)] && |db.leases| == n && |db.identities| == n + 1
    requires db.identities[n].cooldownUntil == None && forall i :: 0 <= i < n ==> db.leases[i].identity == i
    ensures Apply(db, OpAcquire(0, n, 500, 10)) == db.(leases := db.leases + [Rented(n).(seed := SeedPending)])
  {
    assert PreviousLease(db.leases, |db.leases|, n) == None;
  }

  lemma Rents(s: State, addrs: seq<string>, addr: string, ttl: int)
    requires Fleet(s.db, addrs) && NoMail(s.db) && Idle(s, ttl) && Spread(addrs + [addr])
    ensures var t := Execute(s, Rent(|addrs|, addr)); Fleet(t.db, addrs + [addr]) && NoMail(t.db) && Idle(t, ttl)
  {
    var n, ops := |addrs|, Rent(|addrs|, addr);
    Three(s, ops[0], ops[1], ops[2]);
    NewIdentity(s.db, addrs, addr);
    var d1 := Apply(s.db, OpCreateIdentity(addr, Ephemeral));
    NewLease(d1, n);
    var d2 := Apply(d1, OpAcquire(0, n, 500, 10));
    assert d2.leases[n := Rented(n)] == s.db.leases + [Rented(n)];
    assert Apply(d2, OpSettleSeed(n, Skipped, 11)) == d2.(leases := s.db.leases + [Rented(n)]);
  }

  lemma {:induction false} Opened(ttl: int, addrs: seq<string>)
    requires Spread(addrs)
    ensures var t := Execute(Init(ttl), OpenFleet(addrs)); Fleet(t.db, addrs) && NoMail(t.db) && Idle(t, ttl)
    decreases |addrs|
  {
    if addrs == [] {
      OneStep(Init(ttl), Transact(OpCreateRun(1000, 1)));
    } else {
      var n := |addrs| - 1;
      assert addrs == addrs[..n] + [addrs[n]];
      Opened(ttl, addrs[..n]);
      Rents(Execute(Init(ttl), OpenFleet(addrs[..n])), addrs[..n], addrs[n], ttl);
      ExecuteAppend(Init(ttl), OpenFleet(addrs[..n]), Rent(n, addrs[n]));
    }
  }

  /** As many addresses as wanted: of different lengths, so never equated. */
  function Names(n: nat): seq<string> { seq(n, i requires 0 <= i < n => Name(i)) }

  function Name(i: nat): string { seq(i + 1, _ => 'a') }

  lemma NamesSpread(n: nat)
    ensures Spread(Names(n))
  {
    forall i: nat, j: nat | i < j < n ensures !SameAddress(Names(n)[i], Names(n)[j]) {
      assert |Fold(Name(i))| == i + 1 && |Fold(Name(j))| == j + 1;
    }
  }

  // ----- Mail -----

  function Mail(envelope: seq<string>, state: ExtractionState): Message {
    Message(envelope, 20, None, false, true, true, state)
  }

  /** One recipient per lease, each in some spelling of its address. */
  predicate Spelt(addrs: seq<string>, envelope: seq<string>) {
    |envelope| == |addrs| && forall i :: 0 <= i < |addrs| ==> SameAddress(addrs[i], envelope[i])
  }

  function Row(envelope: seq<string>, i: nat): Binding
    requires i < |envelope|
  {
    Binding(0, i, 0, i, envelope[i], Clean)
  }

  function RowsTo(envelope: seq<string>, k: nat): seq<Binding>
    requires k <= |envelope|
  {
    seq(k, i requires 0 <= i < k => Row(envelope, i))
  }

  predicate Mailed(db: Db, envelope: seq<string>, state: ExtractionState) {
    && db.messages == [Mail(envelope, state)]
    && db.bindings == RowsTo(envelope, |envelope|)
  }

  lemma SpeltApart(addrs: seq<string>, envelope: seq<string>, i: nat, j: nat)
    requires Spread(addrs) && Spelt(addrs, envelope) && i < |addrs| && j < |addrs| && SameAddress(addrs[i], envelope[j])
    ensures i == j && envelope[j] != ""
  {
    assert SameAddress(addrs[i], addrs[j]);
    assert |Fold(envelope[j])| == |Fold(addrs[j])|;
  }

  lemma OwnerIs(db: Db, addrs: seq<string>, envelope: seq<string>, k: nat)
    requires Fleet(db, addrs) && Spread(addrs) && Spelt(addrs, envelope) && k < |addrs|
    ensures LeaseAt(db, |db.leases|, envelope[k], 20) == Some(k)
  {
    assert db.leases[k] == Rented(k) && OwnsAddress(db, k, envelope[k], 20);
    var o := LeaseAt(db, |db.leases|, envelope[k], 20);
    assert o.Some?;
    assert db.leases[o.value] == Rented(o.value);
    SpeltApart(addrs, envelope, o.value, k);
  }

  lemma BindsNext(db: Db, addrs: seq<string>, envelope: seq<string>, k: nat)
    requires Fleet(db, addrs) && Spread(addrs) && Spelt(addrs, envelope) && k < |addrs|
    ensures BindOne(db, 0, Mail(envelope, Pending), k, Bound(RowsTo(envelope, k), [])) == Some(Bound(RowsTo(envelope, k + 1), []))
  {
    var m := Mail(envelope, Pending);
    OwnerIs(db, addrs, envelope, k);
    SpeltApart(addrs, envelope, k, k);
    forall i | 0 <= i < k ensures envelope[i] != envelope[k] {
      if envelope[i] == envelope[k] { SpeltApart(addrs, envelope, i, k); }
    }
    assert RowFor(db, 0, m, envelope[k], k) == Row(envelope, k);
    assert RowsTo(envelope, k) + [Row(envelope, k)] == RowsTo(envelope, k + 1);
  }

  lemma BindsNone(db: Db, m: Message, envelope: seq<string>)
    ensures BindRecipients(db, 0, m, 0) == Some(Bound(RowsTo(envelope, 0), []))
  {
    assert RowsTo(envelope, 0) == [];
  }

  lemma {:induction false} BindsAll(db: Db, addrs: seq<string>, envelope: seq<string>, k: nat)
    requires Fleet(db, addrs) && Spread(addrs) && Spelt(addrs, envelope) && k <= |addrs|
    ensures BindRecipients(db, 0, Mail(envelope, Pending), k) == Some(Bound(RowsTo(envelope, k), []))
  {
    if k == 0 {
      BindsNone(db, Mail(envelope, Pending), envelope);
    } else {
      BindsAll(db, addrs, envelope, k - 1);
      BindsNext(db, addrs, envelope, k - 1);
    }
  }

  function Arrive(envelope: seq<string>, state: ExtractionState): seq<Action> {
    [Receive(Mail(envelope, Pending)), SettleMessage(0, state)]
  }

  lemma Arrives(s: State, addrs: seq<string>, envelope: seq<string>, state: ExtractionState)
    requires Fleet(s.db, addrs) && NoMail(s.db) && Spread(addrs) && Spelt(addrs, envelope) && !state.Pending?
    ensures var t := Execute(s, Arrive(envelope, state));
            Fleet(t.db, addrs) && Mailed(t.db, envelope, state) && t.db.claims == []
            && t == s.(db := t.db, acked := s.acked + {0}, outbox := s.outbox + {0})
  {
    var m := Mail(envelope, Pending);
    BindsAll(s.db, addrs, envelope, |addrs|);
    var stored := Deliver(s.db, m).0;
    assert stored == s.db.(messages := [m], bindings := RowsTo(envelope, |envelope|)) && Deliver(s.db, m).1 == Ok(0);
    assert SettleExtraction(stored, 0, state).0 == stored.(messages := [Mail(envelope, state)]);
    Two(s, Receive(m), SettleMessage(0, state));
  }

  // ----- Calls -----

  /** The n-th call starts and takes its turns up to its first read. */
  function Calls(n: nat, lease: nat, kind: Kind, key: string, waits: bool): seq<Action> {
    [StartCall(lease, kind, key, waits)] + Turns(n, 4)
  }

  function Turns(n: nat, count: nat): seq<Action> { seq(count, _ => StepCall(n, 50, false)) }

  function Ready(s: State, c: Call): State { s.(calls := s.calls + [c]) }

  lemma TurnsFirst(s: State, n: nat, count: nat)
    ensures Execute(s, Turns(n, count + 1)) == Execute(Step(s, StepCall(n, 50, false)), Turns(n, count))
  {
    var a := StepCall(n, 50, false);
    OneStep(s, a);
    ExecuteAppend(s, [a], Turns(n, count));
    assert [a] + Turns(n, count) == Turns(n, count + 1);
  }

  lemma NoTurns(s: State, n: nat)
    ensures Execute(s, Turns(n, 0)) == s
  {
    assert Turns(n, 0) == [];
  }

  lemma OneTurn(s: State, c: Call, next: Call)
    requires c.lease < |s.db.leases| && NextCall(s.db, s.ttl, s.busUp, c, 50, false) == Turn(s.db, next, None)
    ensures Step(Ready(s, c), StepCall(|s.calls|, 50, false)) == Ready(s, next)
  {
    assert (s.calls + [c])[|s.calls| := next] == s.calls + [next];
  }

  lemma Started(s: State, lease: nat, kind: Kind, key: string, waits: bool)
    requires key != "" && lease < |s.db.leases|
    ensures Step(s, StartCall(lease, kind, key, waits)) == Ready(s, Call(lease, kind, key, waits, Begin, NoWaiter, s.db))
  {
  }

  lemma FirstTurns(db: Db, addrs: seq<string>, c: Call, ttl: int, busUp: bool)
    requires Fleet(db, addrs) && c.lease < |addrs|
    ensures NextCall(db, ttl, busUp, c.(pc := Begin), 50, false) == Turn(db, c.(pc := HaveLease(Rented(c.lease))), None)
    ensures NextCall(db, ttl, busUp, c.(pc := HaveLease(Rented(c.lease))), 50, false) == Turn(db, c.(pc := Admitted), None)
  {
  }

  lemma AdmittedTurns(db: Db, addrs: seq<string>, c: Call, ttl: int)
    requires Fleet(db, addrs) && c.lease < |addrs| && !KeyUsed(db.claims, c.lease, c.key) && c.waiter.NoWaiter?
    ensures NextCall(db, ttl, true, c.(pc := Admitted), 50, false) == Turn(db, c.(pc := Registering), None)
    ensures NextCall(db, ttl, true, c.(pc := Registering), 50, false)
            == Turn(db, c.(pc := Querying(false), waiter := if c.waits then Slot(false) else NoWaiter), None)
  {
  }

  lemma CallReads(s: State, addrs: seq<string>, lease: nat, kind: Kind, key: string, waits: bool)
    requires Fleet(s.db, addrs) && lease < |addrs| && s.busUp && key != "" && !KeyUsed(s.db.claims, lease, key)
    ensures Execute(s, Calls(|s.calls|, lease, kind, key, waits))
            == Ready(s, Call(lease, kind, key, waits, Querying(false), if waits then Slot(false) else NoWaiter, s.db))
  {
    var n, c := |s.calls|, Call(lease, kind, key, waits, Begin, NoWaiter, s.db);
    var start := StartCall(lease, kind, key, waits);
    Started(s, lease, kind, key, waits);
    OneStep(s, start);
    ExecuteAppend(s, [start], Turns(n, 4));
    FirstTurns(s.db, addrs, c, s.ttl, s.busUp);
    AdmittedTurns(s.db, addrs, c, s.ttl);
    FourTurns(s, c, c.(pc := HaveLease(Rented(lease))), c.(pc := Admitted), c.(pc := Registering),
              c.(pc := Querying(false), waiter := if waits then Slot(false) else NoWaiter));
  }

  lemma ThreeTurns(s: State, c0: Call, c1: Call, c2: Call, c3: Call)
    requires c0.lease == c1.lease == c2.lease < |s.db.leases|
    requires NextCall(s.db, s.ttl, s.busUp, c0, 50, false) == Turn(s.db, c1, None)
    requires NextCall(s.db, s.ttl, s.busUp, c1, 50, false) == Turn(s.db, c2, None)
    requires NextCall(s.db, s.ttl, s.busUp, c2, 50, false) == Turn(s.db, c3, None)
    ensures Execute(Ready(s, c0), Turns(|s.calls|, 3)) == Ready(s, c3)
  {
    var n := |s.calls|;
    OneTurn(s, c0, c1);
    OneTurn(s, c1, c2);
    OneTurn(s, c2, c3);
    TurnsFirst(Ready(s, c0), n, 2);
    TurnsFirst(Ready(s, c1), n, 1);
    TurnsFirst(Ready(s, c2), n, 0);
    NoTurns(Ready(s, c3), n);
  }

  lemma FourTurns(s: State, c0: Call, c1: Call, c2: Call, c3: Call, c4: Call)
    requires c0.lease == c1.lease == c2.lease == c3.lease < |s.db.leases|
    requires NextCall(s.db, s.ttl, s.busUp, c0, 50, false) == Turn(s.db, c1, None)
    requires NextCall(s.db, s.ttl, s.busUp, c1, 50, false) == Turn(s.db, c2, None)
    requires NextCall(s.db, s.ttl, s.busUp, c2, 50, false) == Turn(s.db, c3, None)
    requires NextCall(s.db, s.ttl, s.busUp, c3, 50, false) == Turn(s.db, c4, None)
    ensures Execute(Ready(s, c0), Turns(|s.calls|, 4)) == Ready(s, c4)
  {
    OneTurn(s, c0, c1);
    TurnsFirst(Ready(s, c0), |s.calls|, 3);
    ThreeTurns(s, c1, c2, c3, c4);
  }

  // ----- A store whose one message carries both secrets -----

  const SECRETS: ExtractionState := Success(Extraction("123456", "https://x"))

  function Secret(kind: Kind): string { if kind.EmailOTP? then "123456" else "https://x" }

  /** Leases, the message to all of them, and the claims and answers so far. */
  predicate Sitting(s: State, addrs: seq<string>, ttl: int, n: nat, claims: seq<Claim>, given: seq<Given>) {
    && Fleet(s.db, addrs) && Mailed(s.db, addrs, SECRETS) && s.db.claims == claims
    && s.given == given && |s.calls| == n && s.busUp && s.ttl == ttl
  }

  lemma SpeltSame(addrs: seq<string>)
    ensures Spelt(addrs, addrs)
  {
  }

  function Seat(addrs: seq<string>): seq<Action> { OpenFleet(addrs) + Arrive(addrs, SECRETS) }

  lemma Seated(ttl: int, addrs: seq<string>)
    requires Spread(addrs)
    ensures Sitting(Reached(ttl, Seat(addrs)), addrs, ttl, 0, [], [])
  {
    Opened(ttl, addrs);
    SpeltSame(addrs);
    Arrives(Execute(Init(ttl), OpenFleet(addrs)), addrs, addrs, SECRETS);
    ExecuteAppend(Init(ttl), OpenFleet(addrs), Arrive(addrs, SECRETS));
  }

  /** The read of the one message offers it first. */
  lemma FirstOffer(db: Db, addrs: seq<string>, lease: nat, kind: Kind)
    requires Fleet(db, addrs) && Mailed(db, addrs, SECRETS) && lease < |addrs| && !IsClaimed(db.claims, 0, kind)
    ensures var offers := Offers(db, ReadLease(db, lease, kind, Some(Lower(db, lease))).out, kind);
            offers != [] && offers[0] == Offer(0, Secret(kind))
  {
    var out := ReadLease(db, lease, kind, Some(Lower(db, lease))).out;
    CandidatesMeaning(db, lease, kind, Some(Lower(db, lease)));
    assert db.leases[lease] == Rented(lease) && db.bindings[lease] == Row(addrs, lease);
    assert CleanlyBound(db, 0, lease) && 0 in out;
    assert out[0] in out;
  }

  function TakenRow(ttl: int, lease: nat, kind: Kind, key: string): Claim {
    Tables.Claim(lease, 0, kind, 0, key, 50, if 510 < 50 + ttl then 510 else 50 + ttl)
  }

  lemma TakesFirst(db: Db, addrs: seq<string>, ttl: int, c: Call, offers: seq<Offer>)
    requires Fleet(db, addrs) && c.lease < |addrs| && c.key != "" && ttl > 0 && offers != [] && offers[0] == Offer(0, Secret(c.kind))
    requires !IsClaimed(db.claims, 0, c.kind) && !KeyUsed(db.claims, c.lease, c.key)
    ensures var t := Take(db, ttl, c, offers, false, 50);
            && t.db == db.(claims := db.claims + [TakenRow(ttl, c.lease, c.kind, c.key)])
            && t.answer == Some(Outcome(ClaimOK, |db.claims|, 0, Secret(c.kind)))
  {
    assert db.leases[c.lease] == Rented(c.lease);
  }

  /** A call that reads the one message takes it. */
  function TakeCall(n: nat, lease: nat, kind: Kind, key: string): seq<Action> { Calls(n, lease, kind, key, false) + Turns(n, 2) }

  lemma CallTakes(s: State, addrs: seq<string>, ttl: int, claims: seq<Claim>, given: seq<Given>, lease: nat, kind: Kind, key: string)
    requires Sitting(s, addrs, ttl, |s.calls|, claims, given) && lease < |addrs| && key != "" && ttl > 0
    requires !IsClaimed(claims, 0, kind) && !KeyUsed(claims, lease, key)
    ensures Sitting(Execute(s, TakeCall(|s.calls|, lease, kind, key)), addrs, ttl, |s.calls| + 1, claims + [TakenRow(ttl, lease, kind, key)],
                    given + [Given(lease, kind, key, Outcome(ClaimOK, |claims|, 0, Secret(kind)))])
  {
    var n, c := |s.calls|, Call(lease, kind, key, false, Querying(false), NoWaiter, s.db);
    CallReads(s, addrs, lease, kind, key, false);
    ExecuteAppend(s, Calls(n, lease, kind, key, false), Turns(n, 2));
    FirstOffer(s.db, addrs, lease, kind);
    var offers := Offers(s.db, ReadLease(s.db, lease, kind, Some(Lower(s.db, lease))).out, kind);
    OneTurn(s, c, c.(pc := Taking(offers, false), view := s.db));
    TurnsFirst(Ready(s, c), n, 1);
    TakesNow(s, addrs, ttl, claims, given, c.(pc := Taking(offers, false), view := s.db), offers);
  }

  lemma TakesNow(s: State, addrs: seq<string>, ttl: int, claims: seq<Claim>, given: seq<Given>, c: Call, offers: seq<Offer>)
    requires Sitting(s, addrs, ttl, |s.calls|, claims, given) && c.lease < |addrs| && c.key != "" && ttl > 0
    requires c.pc == Taking(offers, false) && offers != [] && offers[0] == Offer(0, Secret(c.kind))
    requires !IsClaimed(claims, 0, c.kind) && !KeyUsed(claims, c.lease, c.key)
    ensures Sitting(Execute(Ready(s, c), Turns(|s.calls|, 1)), addrs, ttl, |s.calls| + 1, claims + [TakenRow(ttl, c.lease, c.kind, c.key)],
                    given + [Given(c.lease, c.kind, c.key, Outcome(ClaimOK, |claims|, 0, Secret(c.kind)))])
  {
    var n := |s.calls|;
    TurnsFirst(Ready(s, c), n, 0);
    NoTurns(Step(Ready(s, c), StepCall(n, 50, false)), n);
    TakesFirst(s.db, addrs, ttl, c, offers);
  }

  /** A call whose key is recorded replays the recorded message's value of its own kind. */
  function ReplayCall(n: nat, lease: nat, kind: Kind, key: string): seq<Action> { [StartCall(lease, kind, key, false)] + Turns(n, 3) }

  lemma CallReplays(s: State, addrs: seq<string>, ttl: int, claims: seq<Claim>, given: seq<Given>, lease: nat, kind: Kind, key: string, row: nat)
    requires Sitting(s, addrs, ttl, |s.calls|, claims, given) && lease < |addrs| && key != "" && ttl > 0
    requires ClaimByKey(claims, |claims|, lease, key) == Some(row) && claims[row].msg == 0 && claims[row].expires > 50
    ensures Sitting(Execute(s, ReplayCall(|s.calls|, lease, kind, key)), addrs, ttl, |s.calls| + 1, claims,
                    given + [Given(lease, kind, key, Outcome(ClaimOK, row, 0, Secret(kind)))])
  {
    var n, c := |s.calls|, Call(lease, kind, key, false, Begin, NoWaiter, s.db);
    var start := StartCall(lease, kind, key, false);
    Started(s, lease, kind, key, false);
    OneStep(s, start);
    ExecuteAppend(s, [start], Turns(n, 3));
    FirstTurns(s.db, addrs, c, s.ttl, s.busUp);
    OneTurn(s, c, c.(pc := HaveLease(Rented(lease))));
    OneTurn(s, c.(pc := HaveLease(Rented(lease))), c.(pc := Admitted));
    TurnsFirst(Ready(s, c), n, 2);
    TurnsFirst(Ready(s, c.(pc := HaveLease(Rented(lease)))), n, 1);
    ReplaysNow(s, addrs, ttl, claims, given, c.(pc := Admitted), row);
  }

  lemma AnswerStep(s: State, c: Call, o: Outcome)
    requires NextCall(s.db, s.ttl, s.busUp, c, 50, false) == Answer(s.db, c, o)
    ensures Step(Ready(s, c), StepCall(|s.calls|, 50, false))
            == Ready(s, c.(pc := Done, waiter := NoWaiter)).(given := s.given + [Given(c.lease, c.kind, c.key, o)], answeredAt := s.answeredAt + [50])
  {
    var d := c.(pc := Done, waiter := NoWaiter);
    assert (s.calls + [c])[|s.calls| := d] == s.calls + [d];
  }

  lemma ReplaysNow(s: State, addrs: seq<string>, ttl: int, claims: seq<Claim>, given: seq<Given>, c: Call, row: nat)
    requires Sitting(s, addrs, ttl, |s.calls|, claims, given) && c.lease < |addrs| && c.pc == Admitted
    requires ClaimByKey(claims, |claims|, c.lease, c.key) == Some(row) && claims[row].msg == 0 && claims[row].expires > 50
    ensures Sitting(Execute(Ready(s, c), Turns(|s.calls|, 1)), addrs, ttl, |s.calls| + 1, claims,
                    given + [Given(c.lease, c.kind, c.key, Outcome(ClaimOK, row, 0, Secret(c.kind)))])
  {
    var n := |s.calls|;
    TurnsFirst(Ready(s, c), n, 0);
    NoTurns(Step(Ready(s, c), StepCall(n, 50, false)), n);
    ReplayTurn(s.db, addrs, c, row, s.ttl, s.busUp);
    AnswerStep(s, c, Outcome(ClaimOK, row, 0, Secret(c.kind)));
  }

  lemma ReplayTurn(db: Db, addrs: seq<string>, c: Call, row: nat, ttl: int, busUp: bool)
    requires Fleet(db, addrs) && Mailed(db, addrs, SECRETS) && c.lease < |addrs| && c.pc == Admitted
    requires ClaimByKey(db.claims, |db.claims|, c.lease, c.key) == Some(row) && db.claims[row].msg == 0 && db.claims[row].expires > 50
    ensures NextCall(db, ttl, busUp, c, 50, false) == Answer(db, c, Outcome(ClaimOK, row, 0, Secret(c.kind)))
  {
    assert Replay(db, c.lease, c.key, c.kind, 50) == Some(Outcome(ClaimOK, row, 0, Secret(c.kind)));
  }
}
