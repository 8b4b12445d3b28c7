/** From a sleeping claim to its answer: the hint of a settled message arrives, wakes the
    claim, and the read it wakes to leads to an answer. */
module Wakeups {
  import opened Base
  import opened Clock
  import opened Tables
  import opened Invariants
  import opened Candidates
  import opened Protocol
  import opened ProtocolProofs
  import opened Histories
  import opened Guarantees

  // ----- The hint -----

  /** Nothing has changed for the call but that its buffer holds a hint. */
  predicate Hinted(s: State, t: State, i: nat) {
    && t.db == s.db && t.ttl == s.ttl && t.given == s.given && t.busUp
    && i < |s.calls| && i < |t.calls| && t.calls[i] == s.calls[i].(waiter := Slot(true))
  }

  /** Ingest handing over what it settled, and the bus dispatching. */
  predicate HandsOver(a: Action) { a.Publish? || a.Dispatch? }

  predicate HandsOverAll(schedule: seq<Action>) { forall k :: 0 <= k < |schedule| ==> HandsOver(schedule[k]) }

  ghost predicate HintedBy(s: State, schedule: seq<Action>, i: nat) {
    HandsOverAll(schedule) && Hinted(s, Execute(s, schedule), i)
  }

  ghost predicate CanHint(s: State, i: nat) { exists schedule: seq<Action> :: HintedBy(s, schedule, i) }

  /** Nothing has changed for the call. */
  predicate Undisturbed(s: State, t: State, i: nat) {
    && t.db == s.db && t.ttl == s.ttl && t.given == s.given && t.busUp
    && i < |s.calls| && i < |t.calls| && t.calls[i] == s.calls[i]
  }

  lemma HintLater(s: State, a: Action, i: nat)
    requires HandsOver(a) && Undisturbed(s, Step(s, a), i) && CanHint(Step(s, a), i)
    ensures CanHint(s, i)
  {
    var schedule: seq<Action> :| HintedBy(Step(s, a), schedule, i);
    ExecuteLast(s, [], a, [a]);
    ExecuteAppend(s, [a], schedule);
    assert HintedBy(s, [a] + schedule, i);
  }

  lemma HintNow(s: State, a: Action, i: nat)
    requires HandsOver(a) && Hinted(s, Step(s, a), i)
    ensures CanHint(s, i)
  {
    ExecuteLast(s, [], a, [a]);
    assert HintedBy(s, [a], i);
  }

  lemma DispatchMoves(s: State, i: nat)
    requires Asleep(s, i) && s.wire != []
    ensures var t := Step(s, Dispatch);
            && t.wire == s.wire[1..] && t.outbox == s.outbox
            && if Matches(s.db, s.calls[i].lease, s.wire[0]) then Hinted(s, t, i) else Undisturbed(s, t, i)
  {
  }

  /** A matching message on the publish channel hints the sleeper after at most as many
      dispatches as there are events on the channel. */
  lemma {:induction false} HintArrives(s: State, i: nat, m: nat)
    requires Asleep(s, i) && m in s.wire && Matches(s.db, s.calls[i].lease, m)
    ensures CanHint(s, i)
    decreases |s.wire|
  {
    DispatchMoves(s, i);
    if Matches(s.db, s.calls[i].lease, s.wire[0]) {
      HintNow(s, Dispatch, i);
    } else {
      assert s.wire == [s.wire[0]] + s.wire[1..];
      HintArrives(Step(s, Dispatch), i, m);
      HintLater(s, Dispatch, i);
    }
  }

  /** So does one whose publish is still blocked by a full channel. */
  lemma {:induction false} HintFromFlight(s: State, i: nat, m: nat)
    requires Asleep(s, i) && Flight(s, m) && Matches(s.db, s.calls[i].lease, m)
    ensures CanHint(s, i)
    decreases |s.wire|
  {
    if m in s.wire {
      HintArrives(s, i, m);
    } else if |s.wire| < PUBLISH_BUFFER {
      HintArrives(Step(s, Publish(m)), i, m);
      HintLater(s, Publish(m), i);
    } else {
      DispatchMoves(s, i);
      if Matches(s.db, s.calls[i].lease, s.wire[0]) {
        HintNow(s, Dispatch, i);
      } else {
        HintFromFlight(Step(s, Dispatch), i, m);
        HintLater(s, Dispatch, i);
      }
    }
  }

  // ----- Every schedule -----

  /** What takes a sleeper out of its sleep other than a hint. */
  predicate Leaves(a: Action, i: nat) {
    || a.StopBus? || a.Crash?
    || (a.AbortCall? && a.call == i)
    || (a.StepCall? && a.call == i && a.stop)
  }

  predicate HasHint(s: State, i: nat) { i < |s.calls| && s.calls[i].pc.Parked? && s.calls[i].waiter == Slot(true) }

  /** The sleeper got its hint by action k, or that action ended its sleep. */
  ghost predicate RousedAt(ttl: int, actions: seq<Action>, i: nat, k: nat) {
    && k < |actions| && Asleep(Reached(ttl, actions[..k]), i)
    && (HasHint(Reached(ttl, actions[..k + 1]), i) || Leaves(actions[k], i))
  }

  ghost predicate RousedBetween(ttl: int, actions: seq<Action>, i: nat, from: nat) {
    exists k: nat :: from <= k && RousedAt(ttl, actions, i, k)
  }

  /** One action leaves the message in flight and the sleeper asleep, hints it, or is one of
      those that end a sleep. */
  lemma StepRouses(s: State, a: Action, i: nat, m: nat)
    requires StateOk(s) && Asleep(s, i) && Flight(s, m) && Matches(s.db, s.calls[i].lease, m)
    ensures var t := Step(s, a);
            || Leaves(a, i) || HasHint(t, i)
            || (Asleep(t, i) && Flight(t, m) && t.calls[i].lease == s.calls[i].lease)
  {
    assert CallOk(s.db, s.calls[i]);
  }

  lemma MatchesLater(a: Db, b: Db, lease: nat, m: nat)
    requires Extends(a, b) && Matches(a, lease, m)
    ensures Matches(b, lease, m)
  {
    assert LeaseMoves(a.leases[lease], b.leases[lease]);
    assert IdentityMoves(a.identities[a.leases[lease].identity], b.identities[a.leases[lease].identity]);
    assert MessageMoves(a.messages[m], b.messages[m]);
  }

  ghost predicate StillWaiting(t: State, i: nat, m: nat) {
    Asleep(t, i) && Flight(t, m) && Matches(t.db, t.calls[i].lease, m)
  }

  ghost predicate WaitsOr(t: State, a: Action, i: nat, m: nat) { Leaves(a, i) || HasHint(t, i) || StillWaiting(t, i, m) }

  lemma StepWaits(s: State, a: Action, i: nat, m: nat)
    requires StateOk(s) && StillWaiting(s, i, m)
    ensures WaitsOr(Step(s, a), a, i, m)
  {
    StepRouses(s, a, i, m);
    StepExtends(s, a);
    MatchesLater(s.db, Step(s, a).db, s.calls[i].lease, m);
  }

  lemma WaitsAfter(ttl: int, front: seq<Action>, a: Action, actions: seq<Action>, i: nat, m: nat)
    requires actions == front + [a] && StillWaiting(Reached(ttl, front), i, m)
    ensures WaitsOr(Reached(ttl, actions), a, i, m)
  {
    ReachableOk(ttl, front);
    StepWaits(Reached(ttl, front), a, i, m);
    ExecuteLast(Init(ttl), front, a, actions);
  }

  lemma RousedLater(ttl: int, front: seq<Action>, actions: seq<Action>, i: nat, from: nat)
    requires front <= actions && RousedBetween(ttl, front, i, from)
    ensures RousedBetween(ttl, actions, i, from)
  {
    var k: nat :| from <= k && RousedAt(ttl, front, i, k);
    assert front[..k] == actions[..k] && front[..k + 1] == actions[..k + 1];
    assert RousedAt(ttl, actions, i, k);
  }

  lemma RousedNow(ttl: int, front: seq<Action>, a: Action, actions: seq<Action>, i: nat, m: nat, from: nat)
    requires actions == front + [a] && from <= |front| && StillWaiting(Reached(ttl, front), i, m)
    requires WaitsOr(Reached(ttl, actions), a, i, m)
    ensures RousedBetween(ttl, actions, i, from) || StillWaiting(Reached(ttl, actions), i, m)
  {
    var n := |front|;
    assert actions[..n] == front && actions[..n + 1] == actions && actions[n] == a;
    if !StillWaiting(Reached(ttl, actions), i, m) { assert RousedAt(ttl, actions, i, n); }
  }

  lemma {:induction false} RousedOrWaiting(ttl: int, actions: seq<Action>, from: nat, i: nat, m: nat)
    requires from <= |actions| && StillWaiting(Reached(ttl, actions[..from]), i, m)
    ensures RousedBetween(ttl, actions, i, from) || StillWaiting(Reached(ttl, actions), i, m)
    decreases |actions|
  {
    if from == |actions| {
      assert actions[..from] == actions;
    } else {
      var front, a := actions[..|actions| - 1], actions[|actions| - 1];
      assert front[..from] == actions[..from] && actions == front + [a];
      RousedOrWaiting(ttl, front, from, i, m);
      if RousedBetween(ttl, front, i, from) {
        RousedLater(ttl, front, actions, i, from);
      } else {
        WaitsAfter(ttl, front, a, actions, i, m);
        RousedNow(ttl, front, a, actions, i, m, from);
      }
    }
  }

  /** No run lets a matching message pass a sleeper by: by the time the message is no longer on
      its way, the sleeper has had a hint, or its sleep was ended by a deadline, an abort, a
      stopped bus or a crash. */
  lemma EveryScheduleRouses(ttl: int, actions: seq<Action>, from: nat, i: nat, m: nat)
    requires from <= |actions|
    requires var s := Reached(ttl, actions[..from]); Asleep(s, i) && Flight(s, m) && Matches(s.db, s.calls[i].lease, m)
    requires !Flight(Reached(ttl, actions), m)
    ensures RousedBetween(ttl, actions, i, from)
  {
    RousedOrWaiting(ttl, actions, from, i, m);
  }

  // ----- The answer -----

  /** The bus, and the call's own turns before its deadline. */
  predicate Own(a: Action, i: nat) { HandsOver(a) || (a.StepCall? && a.call == i && !a.stop) }

  predicate OwnAll(schedule: seq<Action>, i: nat) { forall k :: 0 <= k < |schedule| ==> Own(schedule[k], i) }

  predicate SameCall(s: State, t: State, i: nat) {
    && i < |s.calls| && i < |t.calls|
    && t.calls[i].lease == s.calls[i].lease && t.calls[i].kind == s.calls[i].kind && t.calls[i].key == s.calls[i].key
  }

  /** The call is done with one answer more, its own; when its key was unused it is claim_ok. */
  predicate Answered(s: State, t: State, i: nat) {
    && SameCall(s, t, i) && t.calls[i].pc.Done?
    && |t.given| == |s.given| + 1 && s.given <= t.given
    && var c, g := s.calls[i], t.given[|s.given|];
       g.lease == c.lease && g.kind == c.kind && g.key == c.key
       && (!KeyUsed(s.db.claims, c.lease, c.key) ==> g.outcome.reason.ClaimOK?)
  }

  ghost predicate AnsweredBy(s: State, schedule: seq<Action>, i: nat) { OwnAll(schedule, i) && Answered(s, Execute(s, schedule), i) }

  ghost predicate CanAnswer(s: State, i: nat) { exists schedule: seq<Action> :: AnsweredBy(s, schedule, i) }

  lemma AnswerLater(s: State, schedule: seq<Action>, i: nat)
    requires OwnAll(schedule, i) && SameCall(s, Execute(s, schedule), i)
    requires Execute(s, schedule).given == s.given && Execute(s, schedule).db == s.db && CanAnswer(Execute(s, schedule), i)
    ensures CanAnswer(s, i)
  {
    var mid := Execute(s, schedule);
    var rest: seq<Action> :| AnsweredBy(mid, rest, i);
    ExecuteAppend(s, schedule, rest);
    assert AnsweredBy(s, schedule + rest, i);
  }

  /** The call with its lease and run in place, and a clock inside the grant. */
  predicate InGrant(s: State, c: Call, clock: Time) {
    && c.lease < |s.db.leases| && s.db.leases[c.lease].run < |s.db.runs| && c.key != "" && s.ttl > 0
    && clock < GrantEnd(s.db, c.lease)
  }

  predicate Unclaimed(s: State, kind: Kind, rest: seq<Offer>) {
    forall k :: 0 <= k < |rest| ==> !IsClaimed(s.db.claims, rest[k].msg, kind)
  }

  predicate SomeValue(rest: seq<Offer>) { exists k :: 0 <= k < |rest| && rest[k].value != "" }

  function WithCall(s: State, i: nat, c: Call): State
    requires i < |s.calls|
  {
    s.(calls := s.calls[i := c])
  }

  lemma SkipTurn(s: State, i: nat, rest: seq<Offer>, final: bool, clock: Time)
    requires i < |s.calls| && s.calls[i].pc == Taking(rest, final) && s.calls[i].lease < |s.db.leases|
    requires rest != [] && rest[0].value == ""
    ensures Step(s, StepCall(i, clock, false)) == WithCall(s, i, s.calls[i].(pc := Taking(rest[1..], final)))
  {
  }

  lemma TakingStep(s: State, i: nat, rest: seq<Offer>, clock: Time)
    requires i < |s.calls| && s.calls[i].pc == Taking(rest, false) && InGrant(s, s.calls[i], clock)
    requires rest != [] && rest[0].value != "" && !IsClaimed(s.db.claims, rest[0].msg, s.calls[i].kind)
    ensures var t := Step(s, StepCall(i, clock, false));
            if KeyUsed(s.db.claims, s.calls[i].lease, s.calls[i].key)
            then t == WithCall(s, i, s.calls[i].(pc := Losing(rest, false)))
            else Answered(s, t, i)
  {
  }

  lemma LosingStep(s: State, i: nat, rest: seq<Offer>, clock: Time)
    requires i < |s.calls| && s.calls[i].pc == Losing(rest, false) && InGrant(s, s.calls[i], clock)
    requires KeyUsed(s.db.claims, s.calls[i].lease, s.calls[i].key)
    ensures Answered(s, Step(s, StepCall(i, clock, false)), i)
  {
    assert Replay(s.db, s.calls[i].lease, s.calls[i].key, s.calls[i].kind, clock).Some?;
  }

  lemma OneStep(s: State, a: Action)
    ensures Execute(s, [a]) == Step(s, a)
  {
    ExecuteLast(s, [], a, [a]);
  }

  /** Walking the offers reaches an answer. */
  lemma {:induction false} TakesOffer(s: State, i: nat, rest: seq<Offer>, clock: Time)
    requires i < |s.calls| && s.calls[i].pc == Taking(rest, false) && InGrant(s, s.calls[i], clock)
    requires Unclaimed(s, s.calls[i].kind, rest) && SomeValue(rest)
    ensures CanAnswer(s, i)
    decreases |rest|
  {
    var c, a := s.calls[i], StepCall(i, clock, false);
    var t := Step(s, a);
    OneStep(s, a);
    if rest[0].value == "" {
      SkipTurn(s, i, rest, false, clock);
      TakesOffer(t, i, rest[1..], clock);
      AnswerLater(s, [a], i);
    } else {
      TakingStep(s, i, rest, clock);
      if KeyUsed(s.db.claims, c.lease, c.key) {
        LosingStep(t, i, rest, clock);
        OneStep(t, a);
        assert AnsweredBy(t, [a], i);
        AnswerLater(s, [a], i);
      } else {
        assert AnsweredBy(s, [a], i);
      }
    }
  }

  lemma WakeTurn(s: State, i: nat, clock: Time)
    requires i < |s.calls| && s.calls[i].pc.Parked? && s.calls[i].waiter == Slot(true) && s.calls[i].lease < |s.db.leases|
    ensures Step(s, StepCall(i, clock, false)) == WithCall(s, i, s.calls[i].(pc := Querying(false), waiter := Slot(false)))
  {
  }

  lemma ReadTurn(s: State, i: nat, final: bool, clock: Time)
    requires i < |s.calls| && s.calls[i].pc == Querying(final) && s.calls[i].lease < |s.db.leases|
    ensures var c := s.calls[i];
            var out := ReadLease(s.db, c.lease, c.kind, Some(Lower(s.db, c.lease))).out;
            Step(s, StepCall(i, clock, false)) == WithCall(s, i, c.(pc := Taking(Offers(s.db, out, c.kind), final), view := s.db))
  {
  }

  /** A hinted sleeper's next two turns are a fresh read. */
  lemma WakesAndReads(s: State, i: nat, clock: Time)
    requires i < |s.calls| && s.calls[i].pc.Parked? && s.calls[i].waiter == Slot(true) && s.calls[i].lease < |s.db.leases|
    ensures var c := s.calls[i];
            var out := ReadLease(s.db, c.lease, c.kind, Some(Lower(s.db, c.lease))).out;
            Execute(s, [StepCall(i, clock, false), StepCall(i, clock, false)])
            == WithCall(s, i, c.(pc := Taking(Offers(s.db, out, c.kind), false), waiter := Slot(false), view := s.db))
  {
    var a := StepCall(i, clock, false);
    OneStep(s, a);
    ExecuteLast(s, [a], a, [a, a]);
    WakeTurn(s, i, clock);
    ReadTurn(Step(s, a), i, false, clock);
  }

  /** What the fresh read offers, when something can be taken. */
  lemma ReadOffers(db: Db, lease: nat, kind: Kind, m: nat)
    requires Inv(db) && lease < |db.leases| && Takeable(db, lease, kind, m)
    ensures var rest := Offers(db, ReadLease(db, lease, kind, Some(Lower(db, lease))).out, kind);
            SomeValue(rest) && forall k :: 0 <= k < |rest| ==> !IsClaimed(db.claims, rest[k].msg, kind)
  {
    OffersSound(db, lease, kind);
    var out := ReadLease(db, lease, kind, Some(Lower(db, lease))).out;
    var rest := Offers(db, out, kind);
    CandidatesMeaning(db, lease, kind, Some(Lower(db, lease)));
    forall k | 0 <= k < |rest| ensures !IsClaimed(db.claims, rest[k].msg, kind) { assert out[k] in out; }
    assert Settled(db, m);
    var k :| 0 <= k < |rest| && rest[k].msg == m;
    assert OfferOk(db, lease, kind, rest[k]);
  }

  lemma HintedAnswers(s: State, i: nat, m: nat)
    requires StateOk(s) && s.ttl > 0 && HasHint(s, i) && Takeable(s.db, s.calls[i].lease, s.calls[i].kind, m)
    ensures CanAnswer(s, i)
  {
    assert CallOk(s.db, s.calls[i]) && LeaseOk(s.db, s.db.leases[s.calls[i].lease]);
    HintedInGrant(s, i, m, GrantEnd(s.db, s.calls[i].lease) - 1);
  }

  lemma HintedInGrant(s: State, i: nat, m: nat, clock: Time)
    requires Inv(s.db) && HasHint(s, i) && InGrant(s, s.calls[i], clock) && Takeable(s.db, s.calls[i].lease, s.calls[i].kind, m)
    ensures CanAnswer(s, i)
  {
    var c := s.calls[i];
    var schedule := [StepCall(i, clock, false), StepCall(i, clock, false)];
    WakesAndReads(s, i, clock);
    ReadOffers(s.db, c.lease, c.kind, m);
    var t := Execute(s, schedule);
    TakesOffer(t, i, t.calls[i].pc.rest, clock);
    AnswerLater(s, schedule, i);
  }

  lemma FlightAnswers(s: State, i: nat, m: nat, n: nat)
    requires StateOk(s) && s.ttl > 0 && Asleep(s, i) && Takeable(s.db, s.calls[i].lease, s.calls[i].kind, m)
    requires Flight(s, n) && Matches(s.db, s.calls[i].lease, n)
    ensures CanAnswer(s, i)
  {
    HintFromFlight(s, i, n);
    var schedule: seq<Action> :| HintedBy(s, schedule, i);
    ExecuteOk(s, schedule);
    HintedAnswers(Execute(s, schedule), i, m);
    AnswerLater(s, schedule, i);
  }

  // ----- Nothing else wakes it -----

  ghost predicate NothingComing(s: State, i: nat) {
    i < |s.calls| && forall n: nat :: Flight(s, n) ==> !Matches(s.db, s.calls[i].lease, n)
  }

  ghost predicate Unmoved(s: State, t: State, i: nat) {
    && Asleep(t, i) && NothingComing(t, i) && t.given == s.given && t.db == s.db && t.calls[i].lease < |t.db.leases|
  }

  lemma FlightShrinks(s: State, a: Action, i: nat)
    requires (HandsOver(a) || a.StepCall?) && NothingComing(s, i) && Step(s, a).db == s.db
    requires i < |Step(s, a).calls| && Step(s, a).calls[i].lease == s.calls[i].lease
    ensures NothingComing(Step(s, a), i)
  {
    forall n: nat | Flight(Step(s, a), n) ensures Flight(s, n) {}
  }

  lemma OwnTurnSleeps(s: State, clock: Time, i: nat)
    requires Asleep(s, i) && s.calls[i].lease < |s.db.leases|
    ensures var t := Step(s, StepCall(i, clock, false)); Asleep(t, i) && t.calls[i] == s.calls[i] && t.given == s.given && t.db == s.db
  {
  }

  lemma DispatchSleeps(s: State, i: nat)
    requires Asleep(s, i) && NothingComing(s, i)
    ensures var t := Step(s, Dispatch); Asleep(t, i) && t.calls[i] == s.calls[i] && t.given == s.given && t.db == s.db
  {
    if s.wire != [] {
      assert Flight(s, s.wire[0]);
      DispatchMoves(s, i);
    }
  }

  lemma OwnStepSleeps(s: State, a: Action, i: nat)
    requires Asleep(s, i) && NothingComing(s, i) && Own(a, i) && s.calls[i].lease < |s.db.leases|
    ensures Unmoved(s, Step(s, a), i)
  {
    if a.Dispatch? { DispatchSleeps(s, i); }
    if a.StepCall? { OwnTurnSleeps(s, a.clock, i); }
    FlightShrinks(s, a, i);
  }

  lemma {:induction false} OwnScheduleSleeps(s: State, schedule: seq<Action>, i: nat)
    requires Asleep(s, i) && NothingComing(s, i) && OwnAll(schedule, i) && s.calls[i].lease < |s.db.leases|
    ensures Unmoved(s, Execute(s, schedule), i)
    decreases |schedule|
  {
    if schedule != [] {
      var n := |schedule| - 1;
      OwnScheduleSleeps(s, schedule[..n], i);
      OwnStepSleeps(Execute(s, schedule[..n]), schedule[n], i);
      ExecuteLast(s, schedule[..n], schedule[n], schedule);
    }
  }

  /** Waiting pays off exactly when something is coming: a sleeping claim that could take a
      settled message can be run to an answer before its deadline, by the bus and its own
      turns alone, if and only if some message addressed to its address is on its way to the
      bus. Unless its key was recorded meanwhile that answer is a claim_ok. */
  lemma WakeupEndsInAnswer(ttl: int, actions: seq<Action>, i: nat, m: nat)
    requires ttl > 0
    requires var s := Reached(ttl, actions); Asleep(s, i) && Takeable(s.db, s.calls[i].lease, s.calls[i].kind, m)
    ensures CanAnswer(Reached(ttl, actions), i) <==> !NothingComing(Reached(ttl, actions), i)
  {
    var s := Reached(ttl, actions);
    ReachableOk(ttl, actions);
    ReachedTtl(Init(ttl), actions);
    assert CallOk(s.db, s.calls[i]);
    if NothingComing(s, i) {
      forall schedule: seq<Action> ensures !AnsweredBy(s, schedule, i) {
        if OwnAll(schedule, i) { OwnScheduleSleeps(s, schedule, i); }
      }
    } else {
      var n: nat :| Flight(s, n) && Matches(s.db, s.calls[i].lease, n);
      FlightAnswers(s, i, m, n);
    }
  }
}
