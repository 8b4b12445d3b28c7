/** What each turn of a claim call decides (internal/personas/claim.go), in every reachable state
    and in the fields of the rows it looks at. */
module Turns {
  import opened Base
  import opened Clock
  import opened Tables
  import opened Invariants
  import opened Candidates
  import opened Lifecycle
  import opened Protocol
  import opened ProtocolProofs
  import opened Histories
  import opened Guarantees

  /** The states before and after a turn of call i that ends a run of actions. */
  ghost predicate TurnTakes(ttl: int, actions: seq<Action>, i: nat, clock: Time, stop: bool, s: State, t: State) {
    s == Reached(ttl, actions) && i < |s.calls| && t == Reached(ttl, actions + [StepCall(i, clock, stop)])
  }

  /** One answer more, and it is this one. */
  predicate GivesOne(s: State, t: State, c: Call, o: Outcome) {
    |t.given| == |s.given| + 1 && s.given <= t.given && t.given[|s.given|] == Given(c.lease, c.kind, c.key, o)
  }

  /** The turn gives this answer, and the tables stay. */
  predicate Gives(s: State, t: State, c: Call, o: Outcome) { t.db == s.db && GivesOne(s, t, c, o) }

  predicate Refuses(s: State, t: State, c: Call, reason: Reason) { Gives(s, t, c, Outcome(reason, 0, 0, "")) }

  /** The turn takes the call here without an answer, and the tables stay. */
  predicate MovesTo(s: State, t: State, i: nat, pc: Pc) {
    i < |s.calls| && i < |t.calls| && t.db == s.db && t.given == s.given && t.calls[i].pc == pc
  }

  /** A call's lease and run exist, and the row it read is an earlier form of its lease's. */
  predicate Anchored(db: Db, c: Call) {
    && c.lease < |db.leases| && db.leases[c.lease].run < |db.runs| && c.key != ""
    && (c.pc.HaveLease? ==> c.pc.row.run == db.leases[c.lease].run)
    && (c.pc.Losing? ==> c.pc.rest != [])
  }

  /** What a turn of the machine leaves. */
  predicate Follows(s: State, t: State, i: nat, n: Turn) {
    && i < |s.calls| && |t.calls| == |s.calls| && t.db == n.db && t.calls[i] == n.call
    && (n.answer.None? ==> t.given == s.given) && (n.answer.Some? ==> GivesOne(s, t, s.calls[i], n.answer.value))
  }

  lemma TurnFollows(ttl: int, actions: seq<Action>, i: nat, clock: Time, stop: bool, s: State, t: State)
    requires TurnTakes(ttl, actions, i, clock, stop, s, t)
    ensures s.ttl == ttl && Anchored(s.db, s.calls[i])
    ensures Follows(s, t, i, NextCall(s.db, s.ttl, s.busUp, s.calls[i], clock, stop))
  {
    SoundCall(ttl, actions, i);
    ReachedTtl(Init(ttl), actions);
    CallIsAnchored(s.db, s.calls[i]);
    ExecuteLast(Init(ttl), actions, StepCall(i, clock, stop), actions + [StepCall(i, clock, stop)]);
  }

  lemma CallIsAnchored(db: Db, c: Call)
    requires Inv(db) && CallOk(db, c)
    ensures Anchored(db, c)
  {
    assert LeaseOk(db, db.leases[c.lease]);
  }

  // ----- The gate -----

  /** The gate admits a call exactly when the run is active and the lease it read was held with
      its seed seeded or skipped; otherwise it refuses, the run first, then the hold, then the
      seed. */
  lemma GateDecides(ttl: int, actions: seq<Action>, i: nat, clock: Time, stop: bool, s: State, t: State)
    requires TurnTakes(ttl, actions, i, clock, stop, s, t) && s.calls[i].pc.HaveLease?
    ensures var c := s.calls[i];
            var l := c.pc.row;
            && l.run < |s.db.runs|
            && var live, held, settled := s.db.runs[l.run].state.Active?, l.state.Held?, l.seed in {Seeded, Skipped};
               && (MovesTo(s, t, i, Admitted) <==> live && held && settled)
               && (Refuses(s, t, c, RunNotRunning) <==> !live)
               && (Refuses(s, t, c, NotHeld) <==> live && !held)
               && (Refuses(s, t, c, SeedNotReady) <==> live && held && !settled)
  {
    TurnFollows(ttl, actions, i, clock, stop, s, t);
  }

  // ----- A recorded key -----

  predicate RecordedAs(db: Db, c: Call, k: nat) { k < |db.claims| && db.claims[k].lease == c.lease && db.claims[k].key == c.key }

  lemma RecordedOnce(db: Db, c: Call, k: nat)
    requires ClaimsOk(db) && RecordedAs(db, c, k)
    ensures ClaimByKey(db.claims, |db.claims|, c.lease, c.key) == Some(k)
  {
    var j := ClaimByKey(db.claims, |db.claims|, c.lease, c.key);
    assert j.Some?;
    assert j.value == k;
  }

  /** The message can still be read in whole. */
  predicate Readable(m: Message) { !m.quarantined && m.bodyOpens && m.extractionOpens && m.state.Success? }

  function Carried(m: Message, kind: Kind): string
    requires m.state.Success?
  {
    if kind.EmailOTP? then m.state.result.otpBest else m.state.result.verifyLinkBest
  }

  lemma KeyTurn(db: Db, c: Call, clock: Time, k: nat)
    requires ClaimsOk(db) && RecordedAs(db, c, k)
    ensures var claim := db.claims[k];
            && claim.msg < |db.messages|
            && var m := db.messages[claim.msg];
               Replay(db, c.lease, c.key, c.kind, clock)
               == Some(if claim.expires <= clock then Outcome(ClaimExpired, k, 0, "")
                       else if Readable(m) && Carried(m, c.kind) != "" then Outcome(ClaimOK, k, claim.msg, Carried(m, c.kind))
                       else Outcome(ExtractionFail, k, 0, ""))
  {
    RecordedOnce(db, c, k);
    assert ClaimOk(db, db.claims[k]);
  }

  /** A call whose key is recorded, be it found at once or after losing its insert to it, is
      given the recorded claim, message and value until that claim expires, as long as the
      message can be read and carries a value of the kind asked for. */
  lemma RecordedKeyDecides(ttl: int, actions: seq<Action>, i: nat, clock: Time, stop: bool, s: State, t: State, k: nat)
    requires TurnTakes(ttl, actions, i, clock, stop, s, t) && (s.calls[i].pc.Admitted? || s.calls[i].pc.Losing?)
    requires RecordedAs(s.db, s.calls[i], k)
    ensures var c, claim := s.calls[i], s.db.claims[k];
            && claim.msg < |s.db.messages|
            && var m := s.db.messages[claim.msg];
               if claim.expires <= clock then Gives(s, t, c, Outcome(ClaimExpired, k, 0, ""))
               else if Readable(m) && Carried(m, c.kind) != "" then Gives(s, t, c, Outcome(ClaimOK, k, claim.msg, Carried(m, c.kind)))
               else Gives(s, t, c, Outcome(ExtractionFail, k, 0, ""))
  {
    TurnFollows(ttl, actions, i, clock, stop, s, t);
    SoundCall(ttl, actions, i);
    KeyTurn(s.db, s.calls[i], clock, k);
  }

  lemma NoKeyTurn(db: Db, c: Call, clock: Time)
    requires forall k: nat :: !RecordedAs(db, c, k)
    ensures Replay(db, c.lease, c.key, c.kind, clock) == None
  {
    var j := ClaimByKey(db.claims, |db.claims|, c.lease, c.key);
    if j.Some? { assert RecordedAs(db, c, j.value); }
  }

  /** Without one a call goes on: to its waiter, or to the offer behind the one it lost. */
  lemma FreshKeyDecides(ttl: int, actions: seq<Action>, i: nat, clock: Time, stop: bool, s: State, t: State)
    requires TurnTakes(ttl, actions, i, clock, stop, s, t) && forall k: nat :: !RecordedAs(s.db, s.calls[i], k)
    ensures s.calls[i].pc.Admitted? ==> MovesTo(s, t, i, Registering)
    ensures s.calls[i].pc.Losing? ==>
              var lost := s.calls[i].pc;
              lost.rest != [] && MovesTo(s, t, i, Taking(lost.rest[1..], lost.final))
  {
    TurnFollows(ttl, actions, i, clock, stop, s, t);
    NoKeyTurn(s.db, s.calls[i], clock);
  }

  // ----- Registering and reading -----

  /** A waiter is registered before the first read, by those that wait, while the bus is up. */
  lemma RegisteringDecides(ttl: int, actions: seq<Action>, i: nat, clock: Time, stop: bool, s: State, t: State)
    requires TurnTakes(ttl, actions, i, clock, stop, s, t) && s.calls[i].pc.Registering?
    ensures var waits := s.calls[i].waits;
            && (MovesTo(s, t, i, Querying(false)) <==> !waits || s.busUp)
            && (MovesTo(s, t, i, Done) <==> waits && !s.busUp)
            && (waits && s.busUp ==> t.calls[i].waiter == Slot(false)) && (!waits ==> t.calls[i].waiter == s.calls[i].waiter)
  {
    TurnFollows(ttl, actions, i, clock, stop, s, t);
  }

  /** The message could be offered: clean, not held back, not claimed for this kind, fresh
      enough for run and lease, settled well, and openable. */
  ghost predicate OnOffer(db: Db, c: Call, m: nat) {
    && c.lease < |db.leases| && db.leases[c.lease].run < |db.runs| && m < |db.messages|
    && (exists b :: b in db.bindings && b.msg == m && b.lease == c.lease && b.suspect.Clean?)
    && !db.messages[m].quarantined && db.messages[m].state.Success? && db.messages[m].extractionOpens
    && (forall k :: 0 <= k < |db.claims| ==> db.claims[k].msg != m || db.claims[k].kind != c.kind)
    && db.messages[m].received >= db.leases[c.lease].acquired
    && db.messages[m].received >= db.runs[db.leases[c.lease].run].checkpoint
  }

  lemma CleanRowsAre(db: Db, m: nat, lease: nat)
    ensures CleanlyBound(db, m, lease) <==> exists b :: b in db.bindings && b.msg == m && b.lease == lease && b.suspect.Clean?
  {
    if b :| b in db.bindings && b.msg == m && b.lease == lease && b.suspect.Clean? {
      var k :| 0 <= k < |db.bindings| && db.bindings[k] == b;
    }
  }

  /** A read offers exactly what could be offered then, oldest first, each with its value. */
  lemma ReadingDecides(ttl: int, actions: seq<Action>, i: nat, clock: Time, stop: bool, s: State, t: State)
    requires TurnTakes(ttl, actions, i, clock, stop, s, t) && s.calls[i].pc.Querying?
    ensures t.db == s.db && t.given == s.given && i < |t.calls|
    ensures var pc := t.calls[i].pc;
            && pc.Taking? && pc.final == s.calls[i].pc.final
            && (forall m: nat :: Offered(pc.rest, m) <==> OnOffer(s.db, s.calls[i], m))
            && (forall k :: 0 <= k < |pc.rest| ==>
                  pc.rest[k].msg < |s.db.messages| && s.db.messages[pc.rest[k].msg].state.Success?
                  && pc.rest[k].value == Carried(s.db.messages[pc.rest[k].msg], s.calls[i].kind))
            && InOrder(s.db, pc.rest)
  {
    TurnFollows(ttl, actions, i, clock, stop, s, t);
    OffersAt(ttl, actions, i);
  }

  /** What a read in this state offers. */
  function OfferedNow(db: Db, c: Call): seq<Offer>
    requires c.lease < |db.leases|
  {
    Offers(db, ReadLease(db, c.lease, c.kind, Some(Lower(db, c.lease))).out, c.kind)
  }

  lemma OffersAt(ttl: int, actions: seq<Action>, i: nat)
    requires i < |Reached(ttl, actions).calls|
    ensures var s := Reached(ttl, actions);
            var db, c := s.db, s.calls[i];
            && c.lease < |db.leases|
            && var rest := OfferedNow(db, c);
               && (forall m: nat :: Offered(rest, m) <==> OnOffer(db, c, m)) && InOrder(db, rest)
               && forall k :: 0 <= k < |rest| ==>
                    rest[k].msg < |db.messages| && db.messages[rest[k].msg].state.Success? && rest[k].value == Carried(db.messages[rest[k].msg], c.kind)
  {
    SoundCall(ttl, actions, i);
    var db, c := Reached(ttl, actions).db, Reached(ttl, actions).calls[i];
    CallIsAnchored(db, c);
    OffersAre(db, c, ReadLease(db, c.lease, c.kind, Some(Lower(db, c.lease))).out, OfferedNow(db, c));
  }

  lemma OffersAre(db: Db, c: Call, out: seq<nat>, rest: seq<Offer>)
    requires c.lease < |db.leases| && db.leases[c.lease].run < |db.runs|
    requires out == ReadLease(db, c.lease, c.kind, Some(Lower(db, c.lease))).out && rest == Offers(db, out, c.kind)
    ensures forall m: nat :: Offered(rest, m) <==> OnOffer(db, c, m)
    ensures forall k :: 0 <= k < |rest| ==>
              rest[k].msg < |db.messages| && db.messages[rest[k].msg].state.Success? && rest[k].value == Carried(db.messages[rest[k].msg], c.kind)
    ensures InOrder(db, rest)
  {
    CandidatesMeaning(db, c.lease, c.kind, Some(Lower(db, c.lease)));
    forall m: nat ensures Offered(rest, m) <==> OnOffer(db, c, m) {
      CleanRowsAre(db, m, c.lease);
      OfferedIsOut(db, out, c.kind, m);
    }
    forall k | 0 <= k < |rest|
      ensures rest[k].msg < |db.messages| && db.messages[rest[k].msg].state.Success? && rest[k].value == Carried(db.messages[rest[k].msg], c.kind)
    {
      assert out[k] in out;
    }
  }

  lemma OfferedIsOut(db: Db, out: seq<nat>, kind: Kind, m: nat)
    ensures Offered(Offers(db, out, kind), m) <==> m in out
  {
    var rest := Offers(db, out, kind);
    if m in out {
      var k :| 0 <= k < |out| && out[k] == m;
      assert rest[k].msg == m;
    }
  }

  // ----- Taking -----

  /** An offer without a value is passed over; one with a value is recorded and answered, unless
      the grant has ended, or the message or the key has been claimed meanwhile. */
  lemma TakingDecides(ttl: int, actions: seq<Action>, i: nat, clock: Time, stop: bool, s: State, t: State)
    requires ttl > 0 && TurnTakes(ttl, actions, i, clock, stop, s, t) && s.calls[i].pc.Taking? && s.calls[i].pc.rest != []
    ensures var c := s.calls[i];
            && c.lease < |s.db.leases| && s.db.leases[c.lease].run < |s.db.runs|
            && var o, rest, l := c.pc.rest[0], c.pc.rest, s.db.leases[c.lease];
            var open := clock < l.expires && clock < s.db.runs[l.run].expires;
               if o.value == "" then MovesTo(s, t, i, Taking(rest[1..], c.pc.final))
               else if !open then Refuses(s, t, c, NotHeld)
               else if IsClaimed(s.db.claims, o.msg, c.kind) || KeyUsed(s.db.claims, c.lease, c.key) then MovesTo(s, t, i, Losing(rest, c.pc.final))
               else && GivesOne(s, t, c, Outcome(ClaimOK, |s.db.claims|, o.msg, o.value))
                    && t.db == s.db.(claims := s.db.claims + [Tables.Claim(c.lease, l.run, c.kind, o.msg, c.key, clock,
                                                               Min(clock + ttl, Min(l.expires, s.db.runs[l.run].expires)))])
  {
    TurnFollows(ttl, actions, i, clock, stop, s, t);
  }

  /** With its offers used up a call reads once more at its deadline, or at once when it does
      not wait, and sleeps otherwise. */
  lemma UsedUpDecides(ttl: int, actions: seq<Action>, i: nat, clock: Time, stop: bool, s: State, t: State)
    requires TurnTakes(ttl, actions, i, clock, stop, s, t) && s.calls[i].pc == Taking([], false)
    ensures MovesTo(s, t, i, Querying(true)) <==> stop || s.calls[i].waiter.NoWaiter?
    ensures MovesTo(s, t, i, Parked) <==> !stop && s.calls[i].waiter.Slot?
  {
    TurnFollows(ttl, actions, i, clock, stop, s, t);
  }

  /** A sleeper reads again when hinted, reads for the last time at its deadline, and sleeps on
      otherwise. */
  lemma SleepingDecides(ttl: int, actions: seq<Action>, i: nat, clock: Time, stop: bool, s: State, t: State)
    requires TurnTakes(ttl, actions, i, clock, stop, s, t) && s.calls[i].pc.Parked?
    ensures var hinted := s.calls[i].waiter == Slot(true);
            && (MovesTo(s, t, i, Querying(true)) <==> stop)
            && (MovesTo(s, t, i, Querying(false)) <==> !stop && hinted)
            && (MovesTo(s, t, i, Parked) <==> !stop && !hinted)
            && (!stop && hinted ==> t.calls[i].waiter == Slot(false))
  {
    TurnFollows(ttl, actions, i, clock, stop, s, t);
  }

  // ----- Mail -----

  /** Mail is acknowledged exactly when it was stored, under the id it was stored with. */
  lemma ReceivingDecides(s: State, m: Message)
    ensures var t := Step(s, Receive(m));
            && t == s.(db := t.db, acked := t.acked)
            && if Deliver(s.db, m).1.Ok? then t.db == Deliver(s.db, m).0 && t.acked == s.acked + {|s.db.messages|} else t == s
  {
  }

  /** A pending message takes the terminal state and waits to be announced; any other stays. */
  lemma SettlingDecides(s: State, msg: nat, terminal: ExtractionState)
    requires !terminal.Pending?
    ensures var t := Step(s, SettleMessage(msg, terminal));
            if msg < |s.db.messages| && s.db.messages[msg].state.Pending?
            then && |t.db.messages| == |s.db.messages| && t == s.(db := s.db.(messages := t.db.messages), outbox := s.outbox + {msg})
                 && t.db.messages[msg] == s.db.messages[msg].(state := terminal)
                 && forall k :: 0 <= k < |s.db.messages| && k != msg ==> t.db.messages[k] == s.db.messages[k]
            else t == s
  {
  }

  // ----- Handing over -----

  /** A settled message is handed over exactly while the bus runs and fewer than 64 events wait
      for it; a full channel keeps it back, and a stopped bus drops it. */
  lemma PublishDecides(s: State, msg: nat)
    requires msg in s.outbox
    ensures var t := Step(s, Publish(msg));
            && (msg in t.outbox <==> s.busUp && |s.wire| >= 64)
            && t.wire == (if s.busUp && |s.wire| < 64 then s.wire + [msg] else s.wire)
            && t.published == (if s.busUp && |s.wire| < 64 then s.published + [msg] else s.published)
            && t.db == s.db && t.calls == s.calls && t.given == s.given
  {
  }

  /** A stopped bus keeps nothing and wakes nobody; a crash forgets the calls and what was on its
      way, and keeps the tables, the acknowledgements and what was answered and published. */
  lemma StopDecides(s: State)
    ensures var t := Step(s, StopBus); !t.busUp && t.wire == [] && t == s.(busUp := t.busUp, wire := t.wire)
    ensures var t := Step(s, Crash);
            && t.calls == [] && t.outbox == {} && t.wire == [] && t.busUp
            && t == s.(calls := t.calls, outbox := t.outbox, wire := t.wire, busUp := t.busUp)
  {
  }

  // ----- The last answer -----

  /** A message bound to the lease, and what the last read held against it. */
  predicate Doubted(db: Db, b: Binding) { b.msg < |db.messages| && !db.messages[b.msg].quarantined && !b.suspect.Clean? }

  predicate Trusted(db: Db, b: Binding) { b.msg < |db.messages| && !db.messages[b.msg].quarantined && b.suspect.Clean? }

  predicate GivenAway(db: Db, b: Binding, kind: Kind) {
    Trusted(db, b) && exists k :: 0 <= k < |db.claims| && db.claims[k].msg == b.msg && db.claims[k].kind == kind
  }

  predicate TooOld(db: Db, b: Binding, kind: Kind, notBefore: Time) {
    Trusted(db, b) && !GivenAway(db, b, kind) && db.messages[b.msg].received < notBefore
  }

  predicate NotExtracted(db: Db, b: Binding, kind: Kind, notBefore: Time) {
    && Trusted(db, b) && !GivenAway(db, b, kind) && db.messages[b.msg].received >= notBefore
    && (db.messages[b.msg].state.ExtractionFailed? || (db.messages[b.msg].state.Success? && !db.messages[b.msg].extractionOpens))
  }

  ghost predicate SomeDoubted(db: Db, lease: nat) { exists b :: b in db.bindings && b.lease == lease && Doubted(db, b) }

  ghost predicate SomeGivenAway(db: Db, lease: nat, kind: Kind) {
    exists b :: b in db.bindings && b.lease == lease && GivenAway(db, b, kind)
  }

  ghost predicate SomeTooOld(db: Db, lease: nat, kind: Kind, notBefore: Time) {
    exists b :: b in db.bindings && b.lease == lease && TooOld(db, b, kind, notBefore)
  }

  ghost predicate SomeNotExtracted(db: Db, lease: nat, kind: Kind, notBefore: Time) {
    exists b :: b in db.bindings && b.lease == lease && NotExtracted(db, b, kind, notBefore)
  }

  ghost predicate ReasonFor(db: Db, lease: nat, kind: Kind, notBefore: Time, reason: Reason) {
    if SomeDoubted(db, lease) then reason.SuspectBinding?
    else if SomeGivenAway(db, lease, kind) then reason.ClaimedAlready?
    else if SomeTooOld(db, lease, kind, notBefore) then reason.StaleFiltered?
    else if SomeNotExtracted(db, lease, kind, notBefore) then reason.ExtractionFail?
    else if AnyBound(db, lease) then reason.Timeout? else reason.NoBinding?
  }

  lemma VerdictIs(db: Db, b: Binding, kind: Kind, notBefore: Time)
    requires b.msg < |db.messages|
    ensures var v := Classify(db, b, kind, Some(notBefore));
            && (v.Suspected? <==> Doubted(db, b)) && (v.AlreadyClaimed? <==> GivenAway(db, b, kind))
            && (v.Stale? <==> TooOld(db, b, kind, notBefore))
            && (v.Unextracted? || v.Unreadable? <==> NotExtracted(db, b, kind, notBefore))
  {
  }

  ghost predicate SomeJudged(db: Db, lease: nat, kind: Kind, notBefore: Time, v: Verdict) {
    exists b :: b in db.bindings && b.lease == lease && b.msg < |db.messages| && Classify(db, b, kind, Some(notBefore)) == v
  }

  lemma CountedAs(db: Db, lease: nat, kind: Kind, notBefore: Time, v: Verdict)
    requires BindingsOk(db)
    ensures forall b :: b in Rows(db, lease) ==> b.msg < |db.messages|
    ensures Count(db, Rows(db, lease), kind, Some(notBefore), v) > 0 <==> SomeJudged(db, lease, kind, notBefore, v)
  {
    RowsOfLease(db, lease);
    CountPositive(db, Rows(db, lease), kind, Some(notBefore), v);
    if SomeJudged(db, lease, kind, notBefore, v) {
      var b :| b in db.bindings && b.lease == lease && b.msg < |db.messages| && Classify(db, b, kind, Some(notBefore)) == v;
      assert b in Rows(db, lease);
    }
  }

  lemma SomeAre(db: Db, lease: nat, kind: Kind, notBefore: Time)
    requires BindingsOk(db)
    ensures SomeJudged(db, lease, kind, notBefore, Suspected) <==> SomeDoubted(db, lease)
    ensures SomeJudged(db, lease, kind, notBefore, AlreadyClaimed) <==> SomeGivenAway(db, lease, kind)
    ensures SomeJudged(db, lease, kind, notBefore, Stale) <==> SomeTooOld(db, lease, kind, notBefore)
    ensures SomeJudged(db, lease, kind, notBefore, Unextracted) || SomeJudged(db, lease, kind, notBefore, Unreadable)
            <==> SomeNotExtracted(db, lease, kind, notBefore)
  {
    forall b: Binding | b.msg < |db.messages|
      ensures var v := Classify(db, b, kind, Some(notBefore));
              && (v.Suspected? <==> Doubted(db, b)) && (v.AlreadyClaimed? <==> GivenAway(db, b, kind))
              && (v.Stale? <==> TooOld(db, b, kind, notBefore))
              && (v.Unextracted? || v.Unreadable? <==> NotExtracted(db, b, kind, notBefore))
    {
      VerdictIs(db, b, kind, notBefore);
    }
  }

  lemma CountedIff(db: Db, lease: nat, kind: Kind, notBefore: Time)
    requires BindingsOk(db)
    ensures var r := ReadLease(db, lease, kind, Some(notBefore)).refused;
            && (r.suspect > 0 <==> SomeDoubted(db, lease))
            && (r.alreadyClaimed > 0 <==> SomeGivenAway(db, lease, kind))
            && (r.stale > 0 <==> SomeTooOld(db, lease, kind, notBefore))
            && (r.extractionFail > 0 <==> SomeNotExtracted(db, lease, kind, notBefore))
            && (r.bindings > 0 <==> AnyBound(db, lease))
  {
    RowsOfLease(db, lease);
    CountedAs(db, lease, kind, notBefore, Suspected);
    CountedAs(db, lease, kind, notBefore, AlreadyClaimed);
    CountedAs(db, lease, kind, notBefore, Stale);
    CountedAs(db, lease, kind, notBefore, Unextracted);
    CountedAs(db, lease, kind, notBefore, Unreadable);
    SomeAre(db, lease, kind, notBefore);
  }

  /** The reason a claim ends with when there was nothing to take is the most telling thing its
      last read saw: a doubt, a claim, an age, a failure, mail at all, or nothing. */
  lemma LastAnswerDecides(ttl: int, actions: seq<Action>, i: nat, clock: Time, stop: bool, s: State, t: State)
    requires TurnTakes(ttl, actions, i, clock, stop, s, t) && s.calls[i].pc == Taking([], true)
    ensures var c := s.calls[i];
            && c.lease < |s.db.leases| && s.db.leases[c.lease].run < |s.db.runs|
            && var notBefore := Max(s.db.leases[c.lease].acquired, s.db.runs[s.db.leases[c.lease].run].checkpoint);
               exists reason :: Refuses(s, t, c, reason) && ReasonFor(c.view, c.lease, c.kind, notBefore, reason)
  {
    TurnFollows(ttl, actions, i, clock, stop, s, t);
    var c := s.calls[i];
    var notBefore := Max(s.db.leases[c.lease].acquired, s.db.runs[s.db.leases[c.lease].run].checkpoint);
    assert Lower(s.db, c.lease) == notBefore;
    SoundCall(ttl, actions, i);
    CountedIff(c.view, c.lease, c.kind, notBefore);
    var reason := Explain(ReadLease(c.view, c.lease, c.kind, Some(notBefore)).refused);
    assert Refuses(s, t, c, reason);
  }
}
