/** Runs that reach what two comments say cannot be: a lease marked as taken in a cooldown that
    had ended, and a timeout over mail that has settled. */
module Witnesses {
  import opened Base
  import opened Clock
  import opened Tables
  import opened Invariants
  import opened Candidates
  import opened Lifecycle
  import opened Correlation
  import opened Protocol
  import opened ProtocolProofs
  import opened Histories
  import opened Guarantees
  import opened Wakeups
  import opened Fleets

  // ----- A lease marked after its cooldown ended -----

  /** An acquire whose reading is past the identity's cooldown records a lease that is marked
      as taken inside it. */
  ghost predicate MarkedLate(ttl: int, before: seq<Action>, run: nat, identity: nat, grant: int, last: Time, reading: Time) {
    var s := Reached(ttl, before);
    && identity < |s.db.identities| && s.db.identities[identity].cooldownUntil.Some?
    && s.db.identities[identity].cooldownUntil.value <= reading
    && var (db, r) := AcquireLease(s.db, run, identity, grant, NextStamp(last, reading));
       r.Ok? && r.value < |db.leases| && db.leases[r.value].inCooldown
  }

  function Pool(): seq<Action> {
    [Transact(OpCreateRun(1000, 1)), Transact(OpCreateIdentity("a@x", Pooled)), Transact(OpSetCooldown(0, 1_500_000))]
  }

  lemma Pools(ttl: int)
    ensures var db := Reached(ttl, Pool()).db;
            && db.runs == [Run(Active, 1, 1001, None)] && db.identities == [Identity("a@x", Pooled, Some(1_500_000))] && db.leases == []
  {
    var ops := Pool();
    Three(Init(ttl), ops[0], ops[1], ops[2]);
  }

  /** It happens: the store clock is cut to a millisecond and the cooldown is not. What such
      a lease is bound to is refused for good, see MarkedLeaseIsBarren. */
  lemma MarkedLateHappens(ttl: int)
    ensures exists before: seq<Action>, last: Time, reading: Time :: MarkedLate(ttl, before, 0, 0, 1000, last, reading)
  {
    Pools(ttl);
    assert NextStamp(1, 1_600_000) == 1_000_000;
    assert MarkedLate(ttl, Pool(), 0, 0, 1000, 1, 1_600_000);
  }

  /** And nothing ever comes of it. */
  lemma MarkedLateIsBarren(ttl: int, before: seq<Action>, run: nat, identity: nat, grant: int, last: Time, reading: Time, back: seq<Action>)
    requires MarkedLate(ttl, before, run, identity, grant, last, reading)
    ensures var lease := |Reached(ttl, before).db.leases|;
            var t := Reached(ttl, before + [Transact(OpAcquire(run, identity, grant, NextStamp(last, reading)))] + back);
            && (forall i :: 0 <= i < |t.db.claims| ==> t.db.claims[i].lease != lease)
            && (forall i: nat :: OkAnswer(t, i) ==> t.given[i].lease != lease)
  {
    var a := Transact(OpAcquire(run, identity, grant, NextStamp(last, reading)));
    ExecuteLast(Init(ttl), before, a, before + [a]);
    MarkedLeaseIsBarren(ttl, before + [a], back, |Reached(ttl, before).db.leases|);
  }

  // ----- A timeout over settled mail -----

  const NOTHING: ExtractionState := Success(Extraction("", ""))

  lemma {:induction false} SkipsAll(s: State, i: nat, rest: seq<Offer>, final: bool)
    requires i < |s.calls| && s.calls[i].pc == Taking(rest, final) && s.calls[i].lease < |s.db.leases|
    requires forall k :: 0 <= k < |rest| ==> rest[k].value == ""
    ensures Execute(s, Turns(i, |rest|)) == WithCall(s, i, s.calls[i].(pc := Taking([], final)))
    decreases |rest|
  {
    if rest == [] {
      NoTurns(s, i);
    } else {
      SkipTurn(s, i, rest, final, 50);
      TurnsFirst(s, i, |rest| - 1);
      SkipsAll(Step(s, StepCall(i, 50, false)), i, rest[1..], final);
    }
  }

  function Offering(db: Db, c: Call): seq<Offer>
    requires c.lease < |db.leases|
  {
    Offers(db, ReadLease(db, c.lease, c.kind, Some(Lower(db, c.lease))).out, c.kind)
  }

  lemma Valueless(db: Db, c: Call, envelope: seq<string>)
    requires Mailed(db, envelope, NOTHING) && c.lease < |db.leases|
    ensures forall k :: 0 <= k < |Offering(db, c)| ==> Offering(db, c)[k].value == ""
  {
  }

  lemma SkipsAfter(s: State, i: nat, rest: seq<Offer>, final: bool, t: State)
    requires i < |t.calls| && t.calls[i].pc == Taking(rest, final) && t.calls[i].lease < |t.db.leases|
    requires forall k :: 0 <= k < |rest| ==> rest[k].value == ""
    requires Step(s, StepCall(i, 50, false)) == t
    ensures Execute(s, Turns(i, |rest| + 1)) == WithCall(t, i, t.calls[i].(pc := Taking([], final)))
  {
    TurnsFirst(s, i, |rest|);
    SkipsAll(t, i, rest, final);
  }

  /** From a read over valueless mail to its used-up offers. */
  lemma ReadsAndSkips(s: State, i: nat, final: bool, envelope: seq<string>)
    requires i < |s.calls| && s.calls[i].pc == Querying(final) && s.calls[i].lease < |s.db.leases| && Mailed(s.db, envelope, NOTHING)
    ensures Execute(s, Turns(i, |Offering(s.db, s.calls[i])| + 1)) == WithCall(s, i, s.calls[i].(pc := Taking([], final), view := s.db))
  {
    var c, rest := s.calls[i], Offering(s.db, s.calls[i]);
    var t := WithCall(s, i, c.(pc := Taking(rest, final), view := s.db));
    ReadTurn(s, i, final, 50);
    Valueless(s.db, c, envelope);
    SkipsAfter(s, i, rest, final, t);
    assert s.calls[i := t.calls[i]][i := t.calls[i].(pc := Taking([], final))] == s.calls[i := c.(pc := Taking([], final), view := s.db)];
  }

  ghost predicate CanTimeOut(s: State) { exists turns: nat :: TimedOut(Execute(s, Turns(0, turns))) }

  /** The one answer is a bare timeout, and no message is pending or quarantined. */
  predicate TimedOut(s: State) {
    && |s.given| == 1 && s.given[0].outcome.reason.Timeout?
    && (forall m :: 0 <= m < |s.db.messages| ==> !s.db.messages[m].state.Pending? && !s.db.messages[m].quarantined)
  }

  lemma TurnsAppend(s: State, n: nat, front: nat, back: nat)
    ensures Execute(s, Turns(n, front + back)) == Execute(Execute(s, Turns(n, front)), Turns(n, back))
  {
    ExecuteAppend(s, Turns(n, front), Turns(n, back));
    assert Turns(n, front) + Turns(n, back) == Turns(n, front + back);
  }

  lemma TimesOutLater(s: State, front: nat)
    requires CanTimeOut(Execute(s, Turns(0, front)))
    ensures CanTimeOut(s)
  {
    var back: nat :| TimedOut(Execute(Execute(s, Turns(0, front)), Turns(0, back)));
    TurnsAppend(s, 0, front, back);
    assert TimedOut(Execute(s, Turns(0, front + back)));
  }

  lemma ExplanationIsTimeout(db: Db, kind: Kind, addr: string)
    requires Fleet(db, [addr]) && Mailed(db, [addr], NOTHING) && db.claims == [] && BindingsOk(db)
    ensures Explain(ReadLease(db, 0, kind, Some(Lower(db, 0))).refused) == Timeout
  {
    assert db.bindings == [Row([addr], 0)] && db.leases[0] == Rented(0);
    assert Row([addr], 0) in db.bindings;
    ExplainMeaning(db, 0, kind, Some(Lower(db, 0)));
  }

  lemma ExplainTurn(db: Db, ttl: int, busUp: bool, c: Call)
    requires c.lease < |db.leases| && c.pc == Taking([], true) && c.view == db
    ensures NextCall(db, ttl, busUp, c, 50, false)
            == Answer(db, c, Refuse(Explain(ReadLease(db, c.lease, c.kind, Some(Lower(db, c.lease))).refused)))
  {
  }

  lemma AnswerTurn(s: State, c: Call, o: Outcome)
    requires s.calls == [c] && NextCall(s.db, s.ttl, s.busUp, c, 50, false) == Answer(s.db, c, o)
    ensures Step(s, StepCall(0, 50, false))
            == s.(calls := [c.(pc := Done, waiter := NoWaiter)], given := s.given + [Given(c.lease, c.kind, c.key, o)],
               answeredAt := s.answeredAt + [50])
  {
    assert s.calls[0] == c && s.calls[0 := c.(pc := Done, waiter := NoWaiter)] == [c.(pc := Done, waiter := NoWaiter)];
  }

  lemma LastTurn(s: State, c: Call)
    requires s.calls == [c] && c.lease < |s.db.leases| && c.pc == Taking([], true) && c.view == s.db
    requires Explain(ReadLease(s.db, c.lease, c.kind, Some(Lower(s.db, c.lease))).refused) == Timeout
    ensures Execute(s, Turns(0, 1))
            == s.(calls := [c.(pc := Done, waiter := NoWaiter)], given := s.given + [Given(c.lease, c.kind, c.key, Refuse(Timeout))],
               answeredAt := s.answeredAt + [50])
  {
    ExplainTurn(s.db, s.ttl, s.busUp, c);
    AnswerTurn(s, c, Refuse(Timeout));
    TurnsFirst(s, 0, 0);
    NoTurns(Step(s, StepCall(0, 50, false)), 0);
  }

  /** The last turn: one binding was seen, and the read could use it. */
  lemma ExplainsTimeout(s: State, c: Call, addr: string)
    requires Fleet(s.db, [addr]) && Mailed(s.db, [addr], NOTHING) && s.db.claims == [] && BindingsOk(s.db)
    requires s.calls == [c] && s.given == [] && c.lease == 0 && c.pc == Taking([], true) && c.view == s.db
    ensures CanTimeOut(s)
  {
    ExplanationIsTimeout(s.db, c.kind, addr);
    LastTurn(s, c);
    assert TimedOut(Execute(s, Turns(0, 1)));
  }

  lemma ReadsFinally(s: State, c: Call, addr: string)
    requires Fleet(s.db, [addr]) && Mailed(s.db, [addr], NOTHING) && s.db.claims == [] && BindingsOk(s.db)
    requires s.calls == [c] && s.given == [] && c.lease == 0 && c.pc == Querying(true)
    ensures CanTimeOut(s)
  {
    var count := |Offering(s.db, c)| + 1;
    var next := c.(pc := Taking([], true), view := s.db);
    ReadsAndSkips(s, 0, true, [addr]);
    assert WithCall(s, 0, next).calls == [next];
    ExplainsTimeout(WithCall(s, 0, next), next, addr);
    TimesOutLater(s, count);
  }

  /** Without a waiter the call goes straight to its explanation. */
  lemma GivesUp(s: State, c: Call)
    requires s.calls == [c] && c.lease < |s.db.leases| && c.pc == Taking([], false) && c.waiter.NoWaiter?
    ensures Execute(s, Turns(0, 1)) == s.(calls := [c.(pc := Querying(true))])
  {
    TurnsFirst(s, 0, 0);
    NoTurns(Step(s, StepCall(0, 50, false)), 0);
    assert [c][0 := c.(pc := Querying(true))] == [c.(pc := Querying(true))];
  }

  /** A call about to make its first read, over one settled message without a value. */
  ghost predicate Asks(s: State, addr: string) {
    && Fleet(s.db, [addr]) && Mailed(s.db, [addr], NOTHING) && s.db.claims == [] && BindingsOk(s.db)
    && |s.calls| == 1 && s.given == [] && s.calls[0].lease == 0 && s.calls[0].pc == Querying(false) && s.calls[0].waiter.NoWaiter?
  }

  lemma ReadsFirst(s: State, addr: string)
    requires Asks(s, addr)
    ensures CanTimeOut(s)
  {
    var c := s.calls[0];
    var next := c.(pc := Taking([], false), view := s.db);
    ReadsAndSkips(s, 0, false, [addr]);
    var t := s.(calls := [next]);
    assert WithCall(s, 0, next) == t;
    GivesUp(t, next);
    ReadsFinally(t.(calls := [next.(pc := Querying(true))]), next.(pc := Querying(true)), addr);
    TimesOutLater(t, 1);
    TimesOutLater(s, |Offering(s.db, c)| + 1);
  }

  function AskNothing(kind: Kind, key: string): seq<Action> {
    OpenFleet(["a@x"]) + Arrive(["a@x"], NOTHING) + Calls(0, 0, kind, key, false)
  }

  lemma Nothing(ttl: int)
    ensures var s := Reached(ttl, OpenFleet(["a@x"]) + Arrive(["a@x"], NOTHING));
            && Fleet(s.db, ["a@x"]) && Mailed(s.db, ["a@x"], NOTHING) && s.db.claims == [] && BindingsOk(s.db)
            && s.calls == [] && s.given == [] && s.busUp
  {
    Opened(ttl, ["a@x"]);
    SpeltSame(["a@x"]);
    Arrives(Reached(ttl, OpenFleet(["a@x"])), ["a@x"], ["a@x"], NOTHING);
    ExecuteAppend(Init(ttl), OpenFleet(["a@x"]), Arrive(["a@x"], NOTHING));
    ReachableOk(ttl, OpenFleet(["a@x"]) + Arrive(["a@x"], NOTHING));
  }

  lemma AsksNothing(ttl: int, kind: Kind, key: string)
    requires key != ""
    ensures Asks(Reached(ttl, AskNothing(kind, key)), "a@x")
  {
    Nothing(ttl);
    var s := Reached(ttl, OpenFleet(["a@x"]) + Arrive(["a@x"], NOTHING));
    CallReads(s, ["a@x"], 0, kind, key, false);
    ExecuteAppend(Init(ttl), OpenFleet(["a@x"]) + Arrive(["a@x"], NOTHING), Calls(0, 0, kind, key, false));
  }

  /** A claim can be told it ran out of time although everything bound has settled: the mail
      just carries nothing of the kind. */
  lemma TimeoutOverSettledMail(ttl: int)
    ensures exists actions: seq<Action> :: TimedOut(Reached(ttl, actions))
  {
    var front := AskNothing(EmailOTP, "k");
    AsksNothing(ttl, EmailOTP, "k");
    ReadsFirst(Reached(ttl, front), "a@x");
    var turns: nat :| TimedOut(Execute(Reached(ttl, front), Turns(0, turns)));
    ExecuteAppend(Init(ttl), front, Turns(0, turns));
    assert TimedOut(Reached(ttl, front + Turns(0, turns)));
  }
}
