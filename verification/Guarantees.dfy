/** What the protocol promises in every interleaving: isolation, exactly-once claims, no lost
    wakeup, honest refusals, and acknowledged mail that survives crashes. */
module Guarantees {
  import opened Base
  import opened Clock
  import opened Tables
  import opened Invariants
  import opened Candidates
  import opened Lifecycle
  import opened Correlation
  import opened Protocol
  import opened ProtocolProofs
  import opened Histories

  /** The state a run of actions reaches from an empty store. */
  function Reached(ttl: int, actions: seq<Action>): State { Execute(Init(ttl), actions) }

  // ----- Isolation -----

  predicate CleanRow(db: Db, b: Binding, c: Claim) {
    && b.msg == c.msg && b.lease == c.lease && b.run == c.run && b.suspect.Clean?
    && b.msg < |db.messages| && b.addr in db.messages[b.msg].envelope
    && b.identity < |db.identities| && SameAddress(db.identities[b.identity].addr, b.addr)
    && b.lease < |db.leases| && b.identity == db.leases[b.lease].identity
  }

  /** A claim hands over a secret of its own run's mail, inside its own grant. */
  ghost predicate Isolated(s: State, c: Claim) {
    && c.lease < |s.db.leases| && c.run < |s.db.runs| && c.msg < |s.db.messages|
    && var l := s.db.leases[c.lease];
       var run := s.db.runs[c.run];
       var m := s.db.messages[c.msg];
       && l.run == c.run && l.identity < |s.db.identities|
       && (exists b :: b in s.db.bindings && CleanRow(s.db, b, c))
       && !m.quarantined && m.state.Success? && ValueFor(m.state.result, c.kind) != ""
       && run.checkpoint <= m.received && l.acquired <= m.received
       && !l.inCooldown
       && (s.db.identities[l.identity].mode.Pooled? ==> m.origin.Some? && Truncate(l.acquired, SECOND) <= m.origin.value)
       && c.claimed < c.expires && c.expires <= l.expires && c.expires <= run.expires && c.expires <= c.claimed + s.ttl
  }

  lemma ClaimRow(db: Db, c: Claim) returns (b: Binding)
    requires Inv(db) && ClaimOk(db, c)
    ensures b in db.bindings && CleanRow(db, b, c) && BindingOk(db, b)
  {
    var i :| 0 <= i < |db.bindings| && db.bindings[i].msg == c.msg && db.bindings[i].lease == c.lease && db.bindings[i].suspect.Clean?;
    b := db.bindings[i];
    assert BindingOk(db, b);
  }

  lemma ClaimIsolated(s: State, i: nat)
    requires Inv(s.db) && WindowsOk(s.db, s.ttl) && i < |s.db.claims|
    ensures Isolated(s, s.db.claims[i])
  {
    var c := s.db.claims[i];
    assert ClaimOk(s.db, c);
    var b := ClaimRow(s.db, c);
  }

  /** Isolation: every claim recorded in any interleaving is isolated. */
  lemma Isolation(ttl: int, actions: seq<Action>, i: nat)
    requires i < |Reached(ttl, actions).db.claims|
    ensures Isolated(Reached(ttl, actions), Reached(ttl, actions).db.claims[i])
  {
    ReachableOk(ttl, actions);
    ClaimIsolated(Reached(ttl, actions), i);
  }

  /** At the step that stored the claimed message, the claim's lease was held by its active
      run, owned the address, and was the only lease that did. */
  ghost predicate OwnedOnArrival(db: Db, m: Message, addr: string, lease: nat) {
    && OwnsAddress(db, lease, addr, m.received) && addr in m.envelope
    && db.leases[lease].state.Held? && db.leases[lease].run < |db.runs| && db.runs[db.leases[lease].run].state.Active?
    && (forall l: nat :: OwnsAddress(db, l, addr, m.received) ==> l == lease)
  }

  lemma ClaimedMailWasOwned(ttl: int, actions: seq<Action>, i: nat)
    requires i < |Reached(ttl, actions).db.claims|
    ensures var c := Reached(ttl, actions).db.claims[i];
            exists k: nat, addr :: k < |actions| && actions[k].Receive?
              && |Reached(ttl, actions[..k]).db.messages| == c.msg
              && OwnedOnArrival(Reached(ttl, actions[..k]).db, actions[k].m, addr, c.lease)
  {
    var s := Reached(ttl, actions);
    var c := s.db.claims[i];
    ReachableOk(ttl, actions);
    var b := ClaimRow(s.db, c);
    EveryBindingArrived(Init(ttl), actions, b);
    var k: nat :| BoundBy(Init(ttl), actions, k, b);
    BoundWasOwned(Reached(ttl, actions[..k]).db, actions[k], b);
    assert OwnedOnArrival(Reached(ttl, actions[..k]).db, actions[k].m, b.addr, c.lease);
  }

  lemma BoundWasOwned(db: Db, a: Action, b: Binding)
    requires BoundIn(db, a, b) && b.suspect.Clean?
    ensures b.msg == |db.messages| && OwnedOnArrival(db, a.m, b.addr, b.lease)
  {
    CleanWasHeld(db, a.m, b);
    BindMeaning(db, |db.messages|, a.m, |a.m.envelope|);
    assert LeaseOk(db, db.leases[b.lease]);
    assert a.m.envelope[..|a.m.envelope|] == a.m.envelope;
  }

  // ----- Exactly once -----

  /** At most one claim per message and kind, and per lease and key, in every interleaving. */
  lemma ClaimedOnce(ttl: int, actions: seq<Action>, i: nat, j: nat)
    requires i < j < |Reached(ttl, actions).db.claims|
    ensures var a, b := Reached(ttl, actions).db.claims[i], Reached(ttl, actions).db.claims[j];
            && (a.msg != b.msg || a.kind != b.kind) && (a.lease != b.lease || a.key != b.key)
  {
    ReachableOk(ttl, actions);
  }

  predicate OkAnswer(s: State, i: nat) { i < |s.given| && s.given[i].outcome.reason.ClaimOK? }

  /** All successful answers to one lease and key name one claim and one message, and carry
      one value per kind, across retries, races and crashes. */
  lemma AnswersAgree(ttl: int, actions: seq<Action>, i: nat, j: nat)
    requires OkAnswer(Reached(ttl, actions), i) && OkAnswer(Reached(ttl, actions), j)
    requires Reached(ttl, actions).given[i].lease == Reached(ttl, actions).given[j].lease
    requires Reached(ttl, actions).given[i].key == Reached(ttl, actions).given[j].key
    ensures var a, b := Reached(ttl, actions).given[i], Reached(ttl, actions).given[j];
            && a.outcome.claim == b.outcome.claim && a.outcome.msg == b.outcome.msg
            && (a.kind == b.kind ==> a.outcome == b.outcome)
  {
    var s := Reached(ttl, actions);
    ReachableOk(ttl, actions);
    assert GivenOk(s.db, s.given[i]) && GivenOk(s.db, s.given[j]);
    var a, b := s.given[i].outcome.claim, s.given[j].outcome.claim;
    if a < b { ClaimedOnce(ttl, actions, a, b); } else if b < a { ClaimedOnce(ttl, actions, b, a); }
  }

  /** Every successful answer, first or replayed, and whatever kinds its key was used for,
      carries a value of a message that an isolated claim of the asking lease rests on. */
  lemma AnswerIsolated(ttl: int, actions: seq<Action>, i: nat)
    requires OkAnswer(Reached(ttl, actions), i)
    ensures var s, g := Reached(ttl, actions), Reached(ttl, actions).given[i];
            && g.outcome.claim < |s.db.claims|
            && var c := s.db.claims[g.outcome.claim];
               Isolated(s, c) && c.lease == g.lease && c.key == g.key && c.msg == g.outcome.msg
               && g.outcome.value == ValueFor(s.db.messages[c.msg].state.result, g.kind) && g.outcome.value != ""
  {
    var s := Reached(ttl, actions);
    ReachableOk(ttl, actions);
    assert GivenOk(s.db, s.given[i]);
    ClaimIsolated(s, s.given[i].outcome.claim);
  }

  /** Every successful answer, replays included, was given at a reading before its claim
      expired, so inside the lease and the run it was granted under. */
  lemma AnsweredInWindow(ttl: int, actions: seq<Action>, i: nat)
    requires OkAnswer(Reached(ttl, actions), i)
    ensures var s := Reached(ttl, actions);
            && i < |s.answeredAt| && s.given[i].outcome.claim < |s.db.claims|
            && var c := s.db.claims[s.given[i].outcome.claim];
               && s.answeredAt[i] < c.expires && c.lease < |s.db.leases| && c.run < |s.db.runs|
               && s.answeredAt[i] < s.db.leases[c.lease].expires && s.answeredAt[i] < s.db.runs[c.run].expires
  {
    var s := Reached(ttl, actions);
    ReachableOk(ttl, actions);
    assert InWindow(s.db, s.given[i].outcome, s.answeredAt[i]);
    ClaimIsolated(s, s.given[i].outcome.claim);
  }

  // ----- Oldest first -----

  /** A turn records at most the first offer on its list. */
  lemma RecordsFirst(db: Db, ttl: int, busUp: bool, c: Call, clock: Time, stop: bool)
    requires c.lease < |db.leases|
    ensures var t := NextCall(db, ttl, busUp, c, clock, stop);
            t.db.claims != db.claims ==>
              && c.pc.Taking? && c.pc.rest != [] && |t.db.claims| == |db.claims| + 1
              && t.db.claims[|db.claims|].msg == c.pc.rest[0].msg
              && t.db.claims[|db.claims|].lease == c.lease && t.db.claims[|db.claims|].kind == c.kind
  {
  }

  /** The duplicate rule: when a call records a claim, every older message that its last read
      saw settled and that could back the claim has been claimed by somebody else. */
  lemma OldestTaken(ttl: int, actions: seq<Action>, i: nat, clock: Time, stop: bool, m: nat)
    requires var s, t := Reached(ttl, actions), Step(Reached(ttl, actions), StepCall(i, clock, stop));
             && i < |s.calls| && |t.db.claims| > |s.db.claims|
             && Settled(s.calls[i].view, m) && Claimable(s.db, s.calls[i].lease, s.calls[i].kind, m)
             && Before(s.db, m, t.db.claims[|s.db.claims|].msg) && m != t.db.claims[|s.db.claims|].msg
    ensures var s := Reached(ttl, actions); IsClaimed(s.db.claims, m, s.calls[i].kind)
  {
    var s := Reached(ttl, actions);
    var c := s.calls[i];
    ReachableOk(ttl, actions);
    assert CallOk(s.db, c);
    RecordsFirst(s.db, s.ttl, s.busUp, c, clock, stop);
    FirstIsOldest(s.db, c.view, c.lease, c.kind, c.pc.rest, m);
  }

  lemma FirstIsOldest(db: Db, view: Db, lease: nat, kind: Kind, rest: seq<Offer>, m: nat)
    requires OffersOk(db, view, lease, kind, rest) && rest != []
    requires Settled(view, m) && Claimable(db, lease, kind, m) && Before(db, m, rest[0].msg) && m != rest[0].msg
    ensures IsClaimed(db.claims, m, kind)
  {
    assert Takeable(db, lease, kind, m) ==> Offered(rest, m);
  }

  /** A lease acquired in cooldown never backs a claim or an answer, then or in any later
      state. */
  lemma MarkedLeaseIsBarren(ttl: int, front: seq<Action>, back: seq<Action>, lease: nat)
    requires lease < |Reached(ttl, front).db.leases| && Reached(ttl, front).db.leases[lease].inCooldown
    ensures var t := Reached(ttl, front + back);
            && (forall i :: 0 <= i < |t.db.claims| ==> t.db.claims[i].lease != lease)
            && (forall i: nat :: OkAnswer(t, i) ==> t.given[i].lease != lease)
  {
    var s, t := Reached(ttl, front), Reached(ttl, front + back);
    ReachableOk(ttl, front);
    ExecuteAppend(Init(ttl), front, back);
    LaterExtends(s, back);
    assert LeaseMoves(s.db.leases[lease], t.db.leases[lease]);
    forall i: nat | i < |t.db.claims| ensures t.db.claims[i].lease != lease { Isolation(ttl, front + back, i); }
    forall i: nat | OkAnswer(t, i) ensures t.given[i].lease != lease { AnswerIsolated(ttl, front + back, i); }
  }

  /** No caller uses one key of a lease for two kinds; a call without a key is refused. */
  predicate OneKindPerKey(actions: seq<Action>) {
    forall i, j :: 0 <= i < |actions| && 0 <= j < |actions| && actions[i].StartCall? && actions[j].StartCall? && actions[i].key != ""
                   && actions[i].lease == actions[j].lease && actions[i].key == actions[j].key
                   ==> actions[i].kind == actions[j].kind
  }

  lemma AskedKind(actions: seq<Action>, lease: nat, key: string, a: Kind, b: Kind)
    requires OneKindPerKey(actions) && Asked(actions, lease, key, a) && Asked(actions, lease, key, b)
    ensures a == b
  {
  }

  /** With one kind per key, an answer is backed by the claim row of the very secret it
      carries. */
  lemma AnswerOwnsSecret(ttl: int, actions: seq<Action>, i: nat)
    requires OneKindPerKey(actions) && OkAnswer(Reached(ttl, actions), i)
    ensures var s, g := Reached(ttl, actions), Reached(ttl, actions).given[i];
            && g.outcome.claim < |s.db.claims|
            && s.db.claims[g.outcome.claim].msg == g.outcome.msg && s.db.claims[g.outcome.claim].kind == g.kind
            && s.db.claims[g.outcome.claim].lease == g.lease && s.db.claims[g.outcome.claim].key == g.key
  {
    var s := Reached(ttl, actions);
    ReachableOk(ttl, actions);
    ReachableAsked(ttl, actions);
    var g := s.given[i];
    assert GivenOk(s.db, g);
    AskedKind(actions, g.lease, g.key, s.db.claims[g.outcome.claim].kind, g.kind);
  }

  /** Exactly once: with one kind per key, a secret is never handed to two requests. Any two
      successful answers that carry the same message's secret of one kind answer the same
      lease and key with the same claim and value. */
  lemma SecretHandedOnce(ttl: int, actions: seq<Action>, i: nat, j: nat)
    requires OneKindPerKey(actions) && OkAnswer(Reached(ttl, actions), i) && OkAnswer(Reached(ttl, actions), j)
    requires Reached(ttl, actions).given[i].outcome.msg == Reached(ttl, actions).given[j].outcome.msg
    requires Reached(ttl, actions).given[i].kind == Reached(ttl, actions).given[j].kind
    ensures Reached(ttl, actions).given[i] == Reached(ttl, actions).given[j]
  {
    AnswerOwnsSecret(ttl, actions, i);
    AnswerOwnsSecret(ttl, actions, j);
    var s := Reached(ttl, actions);
    var a, b := s.given[i].outcome.claim, s.given[j].outcome.claim;
    if a < b { ClaimedOnce(ttl, actions, a, b); } else if b < a { ClaimedOnce(ttl, actions, b, a); }
    AnswersAgree(ttl, actions, i, j);
  }

  // ----- No lost wakeup -----

  /** A call asleep with nothing in its buffer, on a running bus. */
  predicate Asleep(s: State, i: nat) {
    i < |s.calls| && s.busUp && s.calls[i].pc.Parked? && s.calls[i].waiter == Slot(false)
  }

  /** No lost wakeup: whatever an unhinted sleeping call could take, and was addressed to its
      address, is still on its way to the bus. */
  lemma NoLostWakeup(ttl: int, actions: seq<Action>, i: nat, m: nat)
    requires var s := Reached(ttl, actions);
             Asleep(s, i) && Takeable(s.db, s.calls[i].lease, s.calls[i].kind, m) && Matches(s.db, s.calls[i].lease, m)
    ensures Flight(Reached(ttl, actions), m)
  {
    var s := Reached(ttl, actions);
    ReachableOk(ttl, actions);
    var c := s.calls[i];
    assert CallOk(s.db, c) && HeardOf(s, c);
    assert Listening(c) && Settled(s.db, m);
    assert NothingElse(s.db, c.view, c.lease, c.kind, []);
  }

  /** A sleeper's settled mail was visible to its last read or is in flight, whether or not
      it could be taken. */
  lemma SeenOrInFlight(ttl: int, actions: seq<Action>, i: nat, m: nat)
    requires var s := Reached(ttl, actions); Asleep(s, i) && Settled(s.db, m) && Matches(s.db, s.calls[i].lease, m)
    ensures var s := Reached(ttl, actions); Settled(s.calls[i].view, m) || Flight(s, m)
  {
    var s := Reached(ttl, actions);
    ReachableOk(ttl, actions);
    assert HeardOf(s, s.calls[i]);
    assert Listening(s.calls[i]);
  }

  // ----- Honest refusals -----

  /** A call about to answer from the refusal counts of its final read. */
  predicate Explaining(s: State, i: nat) { i < |s.calls| && s.calls[i].pc == Taking([], true) && s.calls[i].lease < |s.db.leases| }

  function Explanation(s: State, i: nat): Option<Outcome>
    requires Explaining(s, i)
  {
    NextCall(s.db, s.ttl, s.busUp, s.calls[i], 0, false).answer
  }

  ghost predicate Excused(s: State, c: Call, b: Binding) {
    && b.msg < |c.view.messages|
    && (c.view.messages[b.msg].quarantined || c.view.messages[b.msg].state.Pending?
        || CandidateValue(c.view.messages[b.msg], c.kind) == "" || IsClaimed(s.db.claims, b.msg, c.kind))
  }

  lemma SoundCall(ttl: int, actions: seq<Action>, i: nat)
    requires i < |Reached(ttl, actions).calls|
    ensures Inv(Reached(ttl, actions).db) && CallOk(Reached(ttl, actions).db, Reached(ttl, actions).calls[i])
  {
    ReachableOk(ttl, actions);
  }

  lemma ExplanationIs(s: State, i: nat)
    requires Explaining(s, i)
    ensures var c := s.calls[i];
            Explanation(s, i) == Some(Refuse(Explain(ReadLease(c.view, c.lease, c.kind, Some(Lower(s.db, c.lease))).refused)))
  {
  }

  /** A call answers "nothing bound" exactly when its final read saw no binding, and a bare
      timeout only when it saw one and every message it saw bound was quarantined, pending,
      without a value of the kind, or has been claimed by another request. */
  lemma ExplanationHonest(ttl: int, actions: seq<Action>, i: nat)
    requires Explaining(Reached(ttl, actions), i)
    ensures var s := Reached(ttl, actions);
            var c, answer := s.calls[i], Explanation(s, i);
            && answer.Some? && !answer.value.reason.ClaimOK?
            && (answer.value.reason.NoBinding? <==> !AnyBound(c.view, c.lease))
            && (answer.value.reason.Timeout? ==>
                  AnyBound(c.view, c.lease) && forall b :: b in c.view.bindings && b.lease == c.lease ==> Excused(s, c, b))
  {
    var s := Reached(ttl, actions);
    SoundCall(ttl, actions, i);
    var c := s.calls[i];
    ExplanationIs(s, i);
    ExplainMeaning(c.view, c.lease, c.kind, Some(Lower(s.db, c.lease)));
    if Explanation(s, i).value.reason.Timeout? { SeenIsExcused(s, c); }
  }

  lemma SeenIsExcused(s: State, c: Call)
    requires Inv(s.db) && CallOk(s.db, c) && c.pc == Taking([], true) && AllOpen(c.view, c.lease, c.kind, Some(Lower(s.db, c.lease)))
    ensures forall b :: b in c.view.bindings && b.lease == c.lease ==> Excused(s, c, b)
  {
    forall b | b in c.view.bindings && b.lease == c.lease ensures Excused(s, c, b) {
      assert Open(c.view, b, c.kind, Some(Lower(s.db, c.lease)));
      UsableWasLost(s, c, b);
    }
  }

  /** No refusal contradicts the store: when a call answers from its final read, no message
      that read could see settled can still be taken. */
  lemma LastReadExhausted(ttl: int, actions: seq<Action>, i: nat, m: nat)
    requires Explaining(Reached(ttl, actions), i) && Settled(Reached(ttl, actions).calls[i].view, m)
    ensures var s := Reached(ttl, actions); !Takeable(s.db, s.calls[i].lease, s.calls[i].kind, m)
  {
    var s := Reached(ttl, actions);
    ReachableOk(ttl, actions);
    assert CallOk(s.db, s.calls[i]);
    assert NothingElse(s.db, s.calls[i].view, s.calls[i].lease, s.calls[i].kind, []);
  }

  /** What the final read could use is claimed by the time its offers are used up. */
  lemma UsableWasLost(s: State, c: Call, b: Binding)
    requires Inv(s.db) && CallOk(s.db, c) && c.pc == Taking([], true)
    requires b in c.view.bindings && b.lease == c.lease && Open(c.view, b, c.kind, Some(Lower(s.db, c.lease)))
    ensures Excused(s, c, b)
  {
    if Classify(c.view, b, c.kind, Some(Lower(s.db, c.lease))).Usable? && CandidateValue(c.view.messages[b.msg], c.kind) != "" {
      assert LeaseOk(c.view, c.view.leases[c.lease]) && LeaseMoves(c.view.leases[c.lease], s.db.leases[c.lease]);
      assert RunMoves(c.view.runs[c.view.leases[c.lease].run], s.db.runs[c.view.leases[c.lease].run]);
      var k :| 0 <= k < |c.view.bindings| && c.view.bindings[k] == b;
      assert CleanlyBound(c.view, b.msg, c.lease);
      ClaimableStable(c.view, s.db, c.lease, c.kind, b.msg);
      assert NothingElse(s.db, c.view, c.lease, c.kind, []);
      assert Settled(c.view, b.msg);
    }
  }

  // ----- Acknowledged mail -----

  /** What an acknowledgement is worth later: the row is still there with the same
      bindings, nothing but a pending state has changed, and a terminal state is final. */
  ghost predicate Durable(a: Db, b: Db, m: nat) {
    && m < |a.messages| && m < |b.messages| && MessageMoves(a.messages[m], b.messages[m])
    && (!a.messages[m].state.Pending? ==> b.messages[m] == a.messages[m])
    && (forall row: Binding :: row.msg == m ==> (row in a.bindings <==> row in b.bindings))
  }

  lemma RowsDurable(a: Db, b: Db, m: nat)
    requires Extends(a, b) && m < |a.messages|
    ensures Durable(a, b, m)
  {
    assert MessageMoves(a.messages[m], b.messages[m]);
    forall row: Binding | row.msg == m && row in b.bindings ensures row in a.bindings {
      var i :| 0 <= i < |b.bindings| && b.bindings[i] == row;
      assert i < |a.bindings|;
    }
  }

  /** Acknowledged mail survives every later action of every goroutine, crashes included. */
  lemma AckedIsDurable(ttl: int, front: seq<Action>, back: seq<Action>, m: nat)
    requires m in Reached(ttl, front).acked
    ensures m in Reached(ttl, front + back).acked && Durable(Reached(ttl, front).db, Reached(ttl, front + back).db, m)
  {
    ReachableOk(ttl, front);
    ExecuteAppend(Init(ttl), front, back);
    LaterExtends(Reached(ttl, front), back);
    RowsDurable(Reached(ttl, front).db, Reached(ttl, front + back).db, m);
  }

  /** A message is announced at most once, and only after its terminal state committed. */
  lemma AnnouncedOnce(ttl: int, actions: seq<Action>)
    ensures var s := Reached(ttl, actions);
            && Distinct(s.published)
            && forall m :: m in s.published ==> m < |s.db.messages| && !s.db.messages[m].state.Pending?
  {
    ReachableOk(ttl, actions);
  }

  /** The order in one run: publishing needs an earlier settlement, and what a published
      message carries then is what it carries in every later state. */
  lemma AnnouncedIsFinal(ttl: int, front: seq<Action>, back: seq<Action>, m: nat)
    requires m in Reached(ttl, front).published
    ensures var s, t := Reached(ttl, front), Reached(ttl, front + back);
            Settled(s.db, m) && Settled(t.db, m) && t.db.messages[m] == s.db.messages[m]
  {
    ReachableOk(ttl, front);
    ExecuteAppend(Init(ttl), front, back);
    LaterExtends(Reached(ttl, front), back);
    SettledStays(Reached(ttl, front).db, Reached(ttl, front + back).db, m);
  }
}
