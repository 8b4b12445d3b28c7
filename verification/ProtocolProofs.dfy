/** What every interleaving of the protocol keeps. */
module ProtocolProofs {
  import opened Base
  import opened Clock
  import opened Tables
  import opened Invariants
  import opened Candidates
  import opened Lifecycle
  import opened Correlation
  import opened Protocol

  // ----- The invariant -----

  ghost predicate Flight(s: State, m: nat) { m in s.outbox || m in s.wire }

  /** A claim of this kind against this lease could record this message right now. */
  ghost predicate Takeable(db: Db, lease: nat, kind: Kind, m: nat) {
    Claimable(db, lease, kind, m) && !IsClaimed(db.claims, m, kind)
  }

  predicate Offered(rest: seq<Offer>, m: nat) { exists i :: 0 <= i < |rest| && rest[i].msg == m }

  ghost predicate OfferOk(db: Db, lease: nat, kind: Kind, o: Offer) {
    && Settled(db, o.msg)
    && o.value == CandidateValue(db.messages[o.msg], kind)
    && (o.value != "" ==> Claimable(db, lease, kind, o.msg))
  }

  /** Of the messages settled at the last read, only those still on offer can be taken. */
  ghost predicate NothingElse(db: Db, view: Db, lease: nat, kind: Kind, rest: seq<Offer>) {
    forall m: nat :: Settled(view, m) && Takeable(db, lease, kind, m) ==> Offered(rest, m)
  }

  /** Oldest first, the order of the read. */
  predicate Before(db: Db, a: nat, b: nat) {
    && a < |db.messages| && b < |db.messages|
    && (db.messages[a].received < db.messages[b].received || (db.messages[a].received == db.messages[b].received && a <= b))
  }

  predicate InOrder(db: Db, rest: seq<Offer>) {
    forall i, j :: 0 <= i < j < |rest| ==> Before(db, rest[i].msg, rest[j].msg)
  }

  ghost predicate OffersOk(db: Db, view: Db, lease: nat, kind: Kind, rest: seq<Offer>) {
    && (forall i :: 0 <= i < |rest| ==> OfferOk(db, lease, kind, rest[i])) && InOrder(db, rest)
    && NothingElse(db, view, lease, kind, rest)
  }

  ghost predicate LosesTo(db: Db, lease: nat, kind: Kind, key: string, rest: seq<Offer>) {
    rest != [] && (IsClaimed(db.claims, rest[0].msg, kind) || KeyUsed(db.claims, lease, key))
  }

  ghost predicate PcOk(db: Db, c: Call)
    requires c.lease < |db.leases|
  {
    match c.pc
    case HaveLease(l) => LeaseMoves(l, db.leases[c.lease])
    case Taking(rest, _) => OffersOk(db, c.view, c.lease, c.kind, rest)
    case Losing(rest, _) => OffersOk(db, c.view, c.lease, c.kind, rest) && LosesTo(db, c.lease, c.kind, c.key, rest)
    case Parked => OffersOk(db, c.view, c.lease, c.kind, [])
    case _ => true
  }

  ghost predicate CallOk(db: Db, c: Call) {
    && c.key != "" && c.lease < |db.leases|
    && Extends(c.view, db) && Inv(c.view) && c.lease < |c.view.leases|
    && PcOk(db, c)
  }

  predicate Listening(c: Call) {
    c.waiter.Slot? && (c.pc.Parked? || (c.pc.Taking? && !c.pc.final) || (c.pc.Losing? && !c.pc.final))
  }

  /** Every settled message for the call's address was seen by its last read, is on its way
      to the bus, or has left a hint in the buffer. */
  ghost predicate News(s: State, lease: nat, view: Db, full: bool) {
    forall m: nat :: Settled(s.db, m) && Matches(s.db, lease, m) ==> Settled(view, m) || Flight(s, m) || full
  }

  ghost predicate HeardOf(s: State, c: Call) {
    s.busUp && Listening(c) ==> News(s, c.lease, c.view, c.waiter.full)
  }

  /** A claim_ok answer is backed by the row of its lease and key, and carries that row's
      message and the value of the kind that was asked for. */
  ghost predicate GivenOk(db: Db, g: Given) {
    g.outcome.reason.ClaimOK? ==>
      && g.outcome.claim < |db.claims|
      && db.claims[g.outcome.claim].lease == g.lease && db.claims[g.outcome.claim].key == g.key
      && db.claims[g.outcome.claim].msg == g.outcome.msg && g.outcome.msg < |db.messages|
      && g.outcome.value != "" && g.outcome.value == CandidateValue(db.messages[g.outcome.msg], g.kind)
  }

  ghost predicate MailOk(s: State) {
    && (forall m :: m in s.outbox ==> Settled(s.db, m) && m !in s.published)
    && (forall m :: m in s.published ==> Settled(s.db, m))
    && Distinct(s.published)
    && (forall m :: m in s.wire ==> m in s.published)
    && (forall m :: m in s.acked ==> m < |s.db.messages|)
  }

  ghost predicate WindowsOk(db: Db, ttl: int) {
    forall i :: 0 <= i < |db.claims| ==> db.claims[i].expires <= db.claims[i].claimed + ttl
  }

  /** A claim_ok answer was given before its claim expired. */
  ghost predicate InWindow(db: Db, o: Outcome, at: Time) {
    o.reason.ClaimOK? ==> o.claim < |db.claims| && at < db.claims[o.claim].expires
  }

  ghost predicate TimesOk(s: State) {
    && |s.answeredAt| == |s.given|
    && (forall i :: 0 <= i < |s.given| ==> InWindow(s.db, s.given[i].outcome, s.answeredAt[i]))
  }

  ghost predicate StateOk(s: State) {
    && Inv(s.db) && WindowsOk(s.db, s.ttl) && MailOk(s) && TimesOk(s)
    && (forall i :: 0 <= i < |s.calls| ==> CallOk(s.db, s.calls[i]) && HeardOf(s, s.calls[i]))
    && (forall i :: 0 <= i < |s.given| ==> GivenOk(s.db, s.given[i]))
  }

  // ----- Frames: what other goroutines may do to a call -----

  lemma SettledStays(a: Db, b: Db, m: nat)
    requires Extends(a, b) && Settled(a, m)
    ensures Settled(b, m) && b.messages[m] == a.messages[m]
  {
    assert MessageMoves(a.messages[m], b.messages[m]);
  }

  lemma ClaimedStays(a: Db, b: Db, m: nat, kind: Kind)
    requires Extends(a, b) && IsClaimed(a.claims, m, kind)
    ensures IsClaimed(b.claims, m, kind)
  {
    var i :| 0 <= i < |a.claims| && a.claims[i].msg == m && a.claims[i].kind == kind;
    assert b.claims[i] == a.claims[i];
  }

  lemma KeyStays(a: Db, b: Db, lease: nat, key: string)
    requires Extends(a, b) && KeyUsed(a.claims, lease, key)
    ensures KeyUsed(b.claims, lease, key)
  {
    var i :| 0 <= i < |a.claims| && a.claims[i].lease == lease && a.claims[i].key == key;
    assert b.claims[i] == a.claims[i];
  }

  /** A settled message never becomes takeable later: nothing about it can improve. */
  lemma TakeableBack(a: Db, b: Db, lease: nat, kind: Kind, m: nat)
    requires Extends(a, b) && Inv(a) && Settled(a, m) && lease < |a.leases| && Takeable(b, lease, kind, m)
    ensures Takeable(a, lease, kind, m)
  {
    SettledStays(a, b, m);
    var i :| 0 <= i < |b.bindings| && b.bindings[i].msg == m && b.bindings[i].lease == lease && b.bindings[i].suspect.Clean?;
    assert i < |a.bindings| && a.bindings[i] == b.bindings[i];
    assert LeaseMoves(a.leases[lease], b.leases[lease]) && LeaseOk(a, a.leases[lease]);
    assert RunMoves(a.runs[a.leases[lease].run], b.runs[a.leases[lease].run]);
    if IsClaimed(a.claims, m, kind) { ClaimedStays(a, b, m, kind); }
  }

  lemma OffersStay(a: Db, b: Db, view: Db, lease: nat, kind: Kind, rest: seq<Offer>)
    requires Extends(a, b) && Inv(a) && OffersOk(a, view, lease, kind, rest) && Extends(view, a) && lease < |a.leases|
    ensures OffersOk(b, view, lease, kind, rest)
  {
    forall i | 0 <= i < |rest| ensures OfferOk(b, lease, kind, rest[i]) {
      assert OfferOk(a, lease, kind, rest[i]);
      SettledStays(a, b, rest[i].msg);
      if rest[i].value != "" { ClaimableStable(a, b, lease, kind, rest[i].msg); }
    }
    forall i, j | 0 <= i < j < |rest| ensures Before(b, rest[i].msg, rest[j].msg) {
      BeforeStays(a, b, rest[i].msg, rest[j].msg);
    }
    forall m: nat | Settled(view, m) && Takeable(b, lease, kind, m) ensures Offered(rest, m) {
      SettledStays(view, a, m);
      TakeableBack(a, b, lease, kind, m);
    }
  }

  lemma BeforeStays(a: Db, b: Db, m: nat, n: nat)
    requires Extends(a, b) && Before(a, m, n)
    ensures Before(b, m, n)
  {
    assert MessageMoves(a.messages[m], b.messages[m]) && MessageMoves(a.messages[n], b.messages[n]);
  }

  lemma LosesStays(a: Db, b: Db, lease: nat, kind: Kind, key: string, rest: seq<Offer>)
    requires Extends(a, b) && LosesTo(a, lease, kind, key, rest)
    ensures LosesTo(b, lease, kind, key, rest)
  {
    if IsClaimed(a.claims, rest[0].msg, kind) { ClaimedStays(a, b, rest[0].msg, kind); } else { KeyStays(a, b, lease, key); }
  }

  lemma CallStays(a: Db, b: Db, c: Call)
    requires Extends(a, b) && Inv(a) && CallOk(a, c)
    ensures CallOk(b, c)
  {
    ExtendsTransitive(c.view, a, b);
    assert LeaseMoves(a.leases[c.lease], b.leases[c.lease]);
    match c.pc
    case Taking(rest, _) => OffersStay(a, b, c.view, c.lease, c.kind, rest);
    case Losing(rest, _) =>
      OffersStay(a, b, c.view, c.lease, c.kind, rest);
      LosesStays(a, b, c.lease, c.kind, c.key, rest);
    case Parked => OffersStay(a, b, c.view, c.lease, c.kind, []);
    case _ =>
  }

  lemma GivenStays(a: Db, b: Db, g: Given)
    requires Extends(a, b) && GivenOk(a, g)
    ensures GivenOk(b, g)
  {
    if g.outcome.reason.ClaimOK? {
      assert b.claims[g.outcome.claim] == a.claims[g.outcome.claim];
      assert MessageMoves(a.messages[g.outcome.msg], b.messages[g.outcome.msg]);
    }
  }

  /** What another goroutine's action owes a listening call: a message it settles goes into
      flight, and no message leaves flight unheard. */
  ghost predicate KeepsNews(s: State, t: State) {
    && Extends(s.db, t.db) && (t.busUp ==> s.busUp)
    && (t.busUp ==> forall m: nat :: Settled(t.db, m) && !Settled(s.db, m) ==> Flight(t, m))
    && (t.busUp ==> forall m: nat :: Flight(s, m) ==> Flight(t, m))
  }

  lemma NewsStays(s: State, t: State, lease: nat, view: Db, full: bool)
    requires KeepsNews(s, t) && t.busUp && News(s, lease, view, full) && LeasesOk(s.db) && lease < |s.db.leases|
    ensures News(t, lease, view, full)
  {
    forall m: nat | Settled(t.db, m) && Matches(t.db, lease, m) ensures Settled(view, m) || Flight(t, m) || full {
      if Settled(s.db, m) { MatchesBack(s.db, t.db, lease, m); }
    }
  }

  lemma HeardStays(s: State, t: State, c: Call)
    requires KeepsNews(s, t) && HeardOf(s, c) && LeasesOk(s.db) && c.lease < |s.db.leases|
    ensures HeardOf(t, c)
  {
    if t.busUp && Listening(c) { NewsStays(s, t, c.lease, c.view, c.waiter.full); }
  }

  lemma MatchesBack(a: Db, b: Db, lease: nat, m: nat)
    requires Extends(a, b) && LeasesOk(a) && lease < |a.leases| && m < |a.messages| && Matches(b, lease, m)
    ensures Matches(a, lease, m)
  {
    assert LeaseMoves(a.leases[lease], b.leases[lease]) && LeaseOk(a, a.leases[lease]);
    assert IdentityMoves(a.identities[a.leases[lease].identity], b.identities[a.leases[lease].identity]);
    assert MessageMoves(a.messages[m], b.messages[m]);
  }

  /** An action that leaves the calls and answers alone keeps the state sound as soon as it
      keeps the tables, the mail bookkeeping and the news. */
  lemma Framed(s: State, t: State)
    requires StateOk(s) && t.calls == s.calls && t.given == s.given && t.ttl == s.ttl && t.answeredAt == s.answeredAt
    requires Inv(t.db) && t.db.claims == s.db.claims && MailOk(t) && KeepsNews(s, t)
    ensures StateOk(t)
  {
    forall i | 0 <= i < |t.calls| ensures CallOk(t.db, t.calls[i]) && HeardOf(t, t.calls[i]) {
      CallStays(s.db, t.db, s.calls[i]);
      HeardStays(s, t, s.calls[i]);
    }
    forall i | 0 <= i < |t.given| ensures GivenOk(t.db, t.given[i]) { GivenStays(s.db, t.db, s.given[i]); }
  }

  lemma ReplayInWindow(db: Db, lease: nat, key: string, kind: Kind, clock: Time)
    ensures var r := Replay(db, lease, key, kind, clock); r.Some? ==> InWindow(db, r.value, clock)
  {
  }

  lemma TakeInWindow(db: Db, ttl: int, c: Call, rest: seq<Offer>, final: bool, now: Time)
    requires rest != [] && c.lease < |db.leases|
    ensures var t := Take(db, ttl, c, rest, final, now); t.answer.Some? ==> InWindow(t.db, t.answer.value, now)
  {
  }

  /** What a turn answers lies in the window of its claim. */
  lemma TurnInWindow(db: Db, ttl: int, busUp: bool, c: Call, clock: Time, stop: bool)
    requires c.lease < |db.leases|
    ensures var t := NextCall(db, ttl, busUp, c, clock, stop); t.answer.Some? ==> InWindow(t.db, t.answer.value, clock)
  {
    ReplayInWindow(db, c.lease, c.key, c.kind, clock);
    if c.pc.Taking? && c.pc.rest != [] {
      TakeInWindow(db, ttl, c, c.pc.rest, c.pc.final, clock);
    } else if !c.pc.Querying? && !c.pc.Losing? {
      QuietShape(db, ttl, busUp, c, clock, stop);
    }
  }

  lemma WindowsStay(s: State, t: State)
    requires TimesOk(s) && s.db.claims <= t.db.claims && s.given <= t.given && s.answeredAt <= t.answeredAt
    requires |t.given| == |t.answeredAt| <= |s.given| + 1
    requires |t.given| > |s.given| ==> InWindow(t.db, t.given[|s.given|].outcome, t.answeredAt[|s.given|])
    ensures TimesOk(t)
  {
    forall i | 0 <= i < |t.given| ensures InWindow(t.db, t.given[i].outcome, t.answeredAt[i]) {
      if i < |s.given| { assert InWindow(s.db, s.given[i].outcome, s.answeredAt[i]); }
    }
  }

  // ----- One turn of a call -----

  /** What a turn promises: sound tables, a sound call, a sound answer, no message touched. */
  ghost predicate TurnOk(db: Db, ttl: int, c: Call, t: Turn) {
    && Inv(t.db) && Extends(db, t.db) && WindowsOk(t.db, ttl) && t.db.messages == db.messages
    && CallOk(t.db, t.call) && t.call.lease == c.lease && t.call.kind == c.kind
    && (t.answer.Some? ==> GivenOk(t.db, Given(c.lease, c.kind, c.key, t.answer.value)))
  }

  /** A turn that writes nothing is sound when the place it leaves the call at is. */
  lemma Moved(db: Db, ttl: int, c: Call, pc: Pc, waiter: Waiter, answer: Option<Outcome>)
    requires Inv(db) && WindowsOk(db, ttl) && CallOk(db, c)
    requires PcOk(db, c.(pc := pc, waiter := waiter))
    requires answer.Some? ==> GivenOk(db, Given(c.lease, c.kind, c.key, answer.value))
    ensures TurnOk(db, ttl, c, Turn(db, c.(pc := pc, waiter := waiter), answer))
  {
    ExtendsItself(db);
  }

  lemma ReplayIsBacked(db: Db, c: Call, clock: Time)
    requires Inv(db) && c.lease < |db.leases|
    ensures var r := Replay(db, c.lease, c.key, c.kind, clock);
            && (r.Some? ==> GivenOk(db, Given(c.lease, c.kind, c.key, r.value)))
            && (r.None? <==> !KeyUsed(db.claims, c.lease, c.key))
  {
  }

  /** What a candidate read offers is sound, and nothing else settled so far can be taken. */
  lemma OffersSound(db: Db, lease: nat, kind: Kind)
    requires Inv(db) && lease < |db.leases|
    ensures OffersOk(db, db, lease, kind, Offers(db, ReadLease(db, lease, kind, Some(Lower(db, lease))).out, kind))
  {
    assert LeaseOk(db, db.leases[lease]);
    var ids := ReadLease(db, lease, kind, Some(Lower(db, lease))).out;
    var rest := Offers(db, ids, kind);
    CandidatesMeaning(db, lease, kind, Some(Lower(db, lease)));
    forall i | 0 <= i < |rest| ensures OfferOk(db, lease, kind, rest[i]) { assert ids[i] in ids; }
    forall m: nat | Settled(db, m) && Takeable(db, lease, kind, m) ensures Offered(rest, m) {
      assert m in ids;
      var i :| 0 <= i < |ids| && ids[i] == m;
      assert rest[i].msg == m;
    }
  }

  lemma QueryTurn(db: Db, ttl: int, busUp: bool, c: Call, clock: Time, stop: bool)
    requires Inv(db) && WindowsOk(db, ttl) && CallOk(db, c) && c.pc.Querying?
    ensures TurnOk(db, ttl, c, NextCall(db, ttl, busUp, c, clock, stop))
  {
    ExtendsItself(db);
    OffersSound(db, c.lease, c.kind);
  }

  lemma OffersSkip(db: Db, view: Db, lease: nat, kind: Kind, rest: seq<Offer>)
    requires rest != [] && OffersOk(db, view, lease, kind, rest)
    requires rest[0].value == "" || IsClaimed(db.claims, rest[0].msg, kind)
    ensures OffersOk(db, view, lease, kind, rest[1..])
  {
    assert OfferOk(db, lease, kind, rest[0]);
    forall m: nat | Settled(view, m) && Takeable(db, lease, kind, m) ensures Offered(rest[1..], m) {
      var i :| 0 <= i < |rest| && rest[i].msg == m;
      assert rest[1..][i - 1] == rest[i];
    }
  }

  function Recording(db: Db, ttl: int, c: Call, o: Offer, now: Time): (Db, Result<nat, Refusal>)
    requires c.lease < |db.leases|
  {
    RecordClaim(db, c.lease, db.leases[c.lease].run, c.kind, o.msg, c.key, ttl, Some(GrantEnd(db, c.lease)), now)
  }

  lemma RecordingRow(db: Db, ttl: int, c: Call, o: Offer, now: Time)
    requires WindowsOk(db, ttl) && OfferOk(db, c.lease, c.kind, o) && o.value != "" && c.lease < |db.leases|
    requires Recording(db, ttl, c, o, now).1.Ok?
    ensures var r := Recording(db, ttl, c, o, now);
            && WindowsOk(r.0, ttl) && r.0 == db.(claims := r.0.claims)
            && GivenOk(r.0, Given(c.lease, c.kind, c.key, Outcome(ClaimOK, r.1.value, o.msg, o.value)))
  {
  }

  /** Recording an offer keeps the tables sound and the answer it gives is backed. */
  lemma RecordTurn(db: Db, ttl: int, c: Call, o: Offer, now: Time)
    requires Inv(db) && WindowsOk(db, ttl) && CallOk(db, c) && OfferOk(db, c.lease, c.kind, o) && o.value != ""
    requires Recording(db, ttl, c, o, now).1.Ok?
    ensures var r := Recording(db, ttl, c, o, now);
            TurnOk(db, ttl, c, Answer(r.0, c, Outcome(ClaimOK, r.1.value, o.msg, o.value)))
  {
    assert LeaseOk(db, db.leases[c.lease]);
    RecordingRow(db, ttl, c, o, now);
    RecordKeepsInv(db, c.lease, c.kind, o.msg, c.key, ttl, now);
    ExtendsTransitive(c.view, db, Recording(db, ttl, c, o, now).0);
  }

  lemma TakeTurn(db: Db, ttl: int, c: Call, rest: seq<Offer>, final: bool, now: Time)
    requires Inv(db) && WindowsOk(db, ttl) && CallOk(db, c) && c.pc == Taking(rest, final) && rest != []
    ensures TurnOk(db, ttl, c, Take(db, ttl, c, rest, final, now))
  {
    var o := rest[0];
    assert OfferOk(db, c.lease, c.kind, o);
    if o.value == "" {
      OffersSkip(db, c.view, c.lease, c.kind, rest);
      Moved(db, ttl, c, Taking(rest[1..], final), c.waiter, None);
    } else {
      var r := Recording(db, ttl, c, o, now);
      if r.1.Ok? {
        RecordTurn(db, ttl, c, o, now);
      } else if r.1.error.ClaimWindowClosed? {
        Moved(db, ttl, c, Done, NoWaiter, Some(Refuse(NotHeld)));
      } else if r.1.error.ClaimTaken? {
        Moved(db, ttl, c, Losing(rest, final), c.waiter, None);
      } else {
        Moved(db, ttl, c, Done, NoWaiter, None);
      }
    }
  }

  lemma LoseTurn(db: Db, ttl: int, busUp: bool, c: Call, rest: seq<Offer>, final: bool, clock: Time, stop: bool)
    requires Inv(db) && WindowsOk(db, ttl) && CallOk(db, c) && c.pc == Losing(rest, final)
    ensures TurnOk(db, ttl, c, NextCall(db, ttl, busUp, c, clock, stop))
  {
    ReplayIsBacked(db, c, clock);
    var replay := Replay(db, c.lease, c.key, c.kind, clock);
    if replay.Some? {
      Moved(db, ttl, c, Done, NoWaiter, replay);
    } else {
      OffersSkip(db, c.view, c.lease, c.kind, rest);
      Moved(db, ttl, c, Taking(rest[1..], final), c.waiter, None);
    }
  }

  /** What a turn that writes nothing and reads no candidates may look like. */
  predicate Quiet(db: Db, c: Call, t: Turn, clock: Time) {
    && c.lease < |db.leases|
    && t == Turn(db, c.(pc := t.call.pc, waiter := t.call.waiter), t.answer)
    && (t.answer.Some? ==> t.answer == Replay(db, c.lease, c.key, c.kind, clock) || !t.answer.value.reason.ClaimOK?)
    && !t.call.pc.Taking? && !t.call.pc.Losing?
    && (t.call.pc.HaveLease? ==> t.call.pc.row == db.leases[c.lease])
    && (t.call.pc.Parked? ==> c.pc.Parked? || c.pc.Taking?)
  }

  lemma EarlyShape(db: Db, ttl: int, busUp: bool, c: Call, clock: Time, stop: bool)
    requires c.lease < |db.leases| && (c.pc.Begin? || c.pc.HaveLease? || c.pc.Admitted? || c.pc.Registering?)
    ensures Quiet(db, c, NextCall(db, ttl, busUp, c, clock, stop), clock)
  {
  }

  lemma LateShape(db: Db, ttl: int, busUp: bool, c: Call, clock: Time, stop: bool)
    requires c.lease < |db.leases| && (c.pc.Parked? || c.pc.Done? || (c.pc.Taking? && c.pc.rest == []))
    ensures Quiet(db, c, NextCall(db, ttl, busUp, c, clock, stop), clock)
  {
  }

  /** The turns before the first read and after the last offer write nothing; what they
      answer is a replay or a refusal. */
  lemma QuietShape(db: Db, ttl: int, busUp: bool, c: Call, clock: Time, stop: bool)
    requires c.lease < |db.leases| && !c.pc.Querying? && !c.pc.Losing? && (c.pc.Taking? ==> c.pc.rest == [])
    ensures Quiet(db, c, NextCall(db, ttl, busUp, c, clock, stop), clock)
  {
    if c.pc.Begin? || c.pc.HaveLease? || c.pc.Admitted? || c.pc.Registering? {
      EarlyShape(db, ttl, busUp, c, clock, stop);
    } else {
      LateShape(db, ttl, busUp, c, clock, stop);
    }
  }

  lemma QuietMoves(db: Db, ttl: int, c: Call, t: Turn, clock: Time)
    requires Inv(db) && WindowsOk(db, ttl) && CallOk(db, c) && Quiet(db, c, t, clock)
    requires c.pc.Taking? ==> c.pc.rest == []
    ensures TurnOk(db, ttl, c, t)
  {
    ReplayIsBacked(db, c, clock);
    Moved(db, ttl, c, t.call.pc, t.call.waiter, t.answer);
  }

  lemma QuietTurn(db: Db, ttl: int, busUp: bool, c: Call, clock: Time, stop: bool)
    requires Inv(db) && WindowsOk(db, ttl) && CallOk(db, c)
    requires !c.pc.Querying? && !c.pc.Losing? && (c.pc.Taking? ==> c.pc.rest == [])
    ensures TurnOk(db, ttl, c, NextCall(db, ttl, busUp, c, clock, stop))
  {
    QuietShape(db, ttl, busUp, c, clock, stop);
    QuietMoves(db, ttl, c, NextCall(db, ttl, busUp, c, clock, stop), clock);
  }

  lemma NextTurn(db: Db, ttl: int, busUp: bool, c: Call, clock: Time, stop: bool)
    requires Inv(db) && WindowsOk(db, ttl) && CallOk(db, c)
    ensures TurnOk(db, ttl, c, NextCall(db, ttl, busUp, c, clock, stop))
  {
    match c.pc
    case Querying(_) => QueryTurn(db, ttl, busUp, c, clock, stop);
    case Taking(rest, final) =>
      if rest != [] { TakeTurn(db, ttl, c, rest, final, clock); } else { QuietTurn(db, ttl, busUp, c, clock, stop); }
    case Losing(rest, final) => LoseTurn(db, ttl, busUp, c, rest, final, clock, stop);
    case _ => QuietTurn(db, ttl, busUp, c, clock, stop);
  }

  /** A turn that leaves its call listening either read the database or changed neither what
      the call last saw nor its buffer. */
  lemma ListeningTurn(db: Db, ttl: int, busUp: bool, c: Call, clock: Time, stop: bool)
    requires c.lease < |db.leases|
    ensures var t := NextCall(db, ttl, busUp, c, clock, stop);
            Listening(t.call) ==>
              if c.pc.Querying? then t.call.view == db && t.db == db
              else Listening(c) && t.call.view == c.view && t.call.waiter == c.waiter
  {
  }

  /** A turn never makes a call miss news: its read starts from what the database holds. */
  lemma NextHears(s: State, t: State, c: Call, clock: Time, stop: bool)
    requires LeasesOk(s.db) && c.lease < |s.db.leases| && HeardOf(s, c) && KeepsNews(s, t)
    requires t.db == NextCall(s.db, s.ttl, s.busUp, c, clock, stop).db
    ensures HeardOf(t, NextCall(s.db, s.ttl, s.busUp, c, clock, stop).call)
  {
    ListeningTurn(s.db, s.ttl, s.busUp, c, clock, stop);
    var next := NextCall(s.db, s.ttl, s.busUp, c, clock, stop).call;
    if t.busUp && Listening(next) && !c.pc.Querying? { NewsStays(s, t, c.lease, c.view, c.waiter.full); }
  }

  // ----- Every action -----

  lemma StepCallOk(s: State, i: nat, clock: Time, stop: bool)
    requires StateOk(s)
    ensures StateOk(Step(s, StepCall(i, clock, stop)))
  {
    if i < |s.calls| {
      var c := s.calls[i];
      var turn := NextCall(s.db, s.ttl, s.busUp, c, clock, stop);
      var t := Step(s, StepCall(i, clock, stop));
      NextTurn(s.db, s.ttl, s.busUp, c, clock, stop);
      SettledSame(s.db, t.db);
      NextHears(s, t, c, clock, stop);
      OthersStay(s, t, i);
      AnswersStay(s, t, i, turn);
      TurnInWindow(s.db, s.ttl, s.busUp, c, clock, stop);
      WindowsStay(s, t);
    }
  }

  lemma AnswersStay(s: State, t: State, i: nat, turn: Turn)
    requires StateOk(s) && i < |s.calls| && TurnOk(s.db, s.ttl, s.calls[i], turn)
    requires t == s.(db := turn.db, calls := s.calls[i := turn.call], given := t.given, answeredAt := t.answeredAt)
    requires t.given == if turn.answer.Some?
                        then s.given + [Given(s.calls[i].lease, s.calls[i].kind, s.calls[i].key, turn.answer.value)] else s.given
    ensures MailOk(t) && forall k :: 0 <= k < |t.given| ==> GivenOk(t.db, t.given[k])
  {
    SettledSame(s.db, t.db);
    GivensStay(s, t);
  }

  lemma SettledSame(a: Db, b: Db)
    requires a.messages == b.messages
    ensures forall m: nat :: Settled(a, m) == Settled(b, m)
  {
  }

  lemma OthersStay(s: State, t: State, i: nat)
    requires KeepsNews(s, t) && Inv(s.db) && |t.calls| == |s.calls|
    requires forall k :: 0 <= k < |s.calls| ==> CallOk(s.db, s.calls[k]) && HeardOf(s, s.calls[k])
    requires forall k :: 0 <= k < |s.calls| && k != i ==> t.calls[k] == s.calls[k]
    ensures forall k :: 0 <= k < |t.calls| && k != i ==> CallOk(t.db, t.calls[k]) && HeardOf(t, t.calls[k])
  {
    forall k | 0 <= k < |t.calls| && k != i ensures CallOk(t.db, t.calls[k]) && HeardOf(t, t.calls[k]) {
      CallStays(s.db, t.db, s.calls[k]);
      HeardStays(s, t, s.calls[k]);
    }
  }

  /** Answers stay sound as rows move forward, and at most one is appended. */
  lemma GivensStay(s: State, t: State)
    requires Extends(s.db, t.db) && (forall k :: 0 <= k < |s.given| ==> GivenOk(s.db, s.given[k]))
    requires s.given <= t.given && |t.given| <= |s.given| + 1
    requires |t.given| == |s.given| + 1 ==> GivenOk(t.db, t.given[|s.given|])
    ensures forall k :: 0 <= k < |t.given| ==> GivenOk(t.db, t.given[k])
  {
    forall k | 0 <= k < |t.given| ensures GivenOk(t.db, t.given[k]) {
      if k < |s.given| { GivenStays(s.db, t.db, s.given[k]); }
    }
  }

  /** Taking an event off the wire fills the buffer of every call it is news to. */
  lemma DispatchHears(s: State, t: State, c: Call, m0: nat)
    requires s.busUp && t.db == s.db && t.outbox == s.outbox && s.wire == [m0] + t.wire
    requires HeardOf(s, c)
    ensures HeardOf(t, Notify(s.db, c, m0))
  {
    var next := Notify(s.db, c, m0);
    if t.busUp && Listening(next) {
      forall m: nat | Settled(t.db, m) && Matches(t.db, next.lease, m)
        ensures Settled(next.view, m) || Flight(t, m) || next.waiter.full
      {
        if Flight(s, m) && !Flight(t, m) { assert m == m0; }
      }
    }
  }

  lemma NotifyOk(db: Db, c: Call, m: nat)
    requires CallOk(db, c)
    ensures CallOk(db, Notify(db, c, m))
  {
  }

  lemma DispatchOk(s: State)
    requires StateOk(s)
    ensures StateOk(Step(s, Dispatch))
  {
    var t := Step(s, Dispatch);
    if s.wire != [] && s.busUp {
      assert s.wire == [s.wire[0]] + t.wire;
      forall i | 0 <= i < |t.calls| ensures CallOk(t.db, t.calls[i]) && HeardOf(t, t.calls[i]) {
        NotifyOk(s.db, s.calls[i], s.wire[0]);
        DispatchHears(s, t, s.calls[i], s.wire[0]);
      }
    }
  }

  lemma StartOk(s: State, lease: nat, kind: Kind, key: string, waits: bool)
    requires StateOk(s)
    ensures StateOk(Step(s, StartCall(lease, kind, key, waits)))
  {
    ExtendsItself(s.db);
    var t := Step(s, StartCall(lease, kind, key, waits));
    if key != "" && lease < |s.db.leases| {
      forall i | 0 <= i < |t.calls| ensures CallOk(t.db, t.calls[i]) && HeardOf(t, t.calls[i]) {
        if i < |s.calls| { HeardSame(s, t, s.calls[i]); }
      }
    }
  }

  lemma AbortOk(s: State, i: nat)
    requires StateOk(s)
    ensures StateOk(Step(s, AbortCall(i)))
  {
    var t := Step(s, AbortCall(i));
    if i < |s.calls| {
      forall k | 0 <= k < |t.calls| ensures CallOk(t.db, t.calls[k]) && HeardOf(t, t.calls[k]) {
        if k != i { HeardSame(s, t, s.calls[k]); }
      }
    }
  }

  lemma HeardSame(s: State, t: State, c: Call)
    requires HeardOf(s, c) && t.db == s.db && t.busUp == s.busUp && t.outbox == s.outbox && t.wire == s.wire
    ensures HeardOf(t, c)
  {
    assert forall m: nat :: Flight(s, m) == Flight(t, m);
  }

  lemma SettleOk(s: State, msg: nat, terminal: ExtractionState)
    requires StateOk(s)
    ensures StateOk(Step(s, SettleMessage(msg, terminal)))
  {
    SettleKeepsInv(s.db, msg, terminal);
    var t := Step(s, SettleMessage(msg, terminal));
    if t != s {
      forall m: nat | m in t.published ensures Settled(t.db, m) { SettledStays(s.db, t.db, m); }
      Framed(s, t);
    }
  }

  lemma ReceiveOk(s: State, m: Message)
    requires StateOk(s)
    ensures StateOk(Step(s, Receive(m)))
  {
    DeliverKeepsInv(s.db, m);
    var t := Step(s, Receive(m));
    if t != s { Framed(s, t); }
  }

  lemma PublishOk(s: State, msg: nat)
    requires StateOk(s)
    ensures StateOk(Step(s, Publish(msg)))
  {
    ExtendsItself(s.db);
    Framed(s, Step(s, Publish(msg)));
  }

  lemma TransactOk(s: State, op: Op)
    requires StateOk(s)
    ensures StateOk(Step(s, Transact(op)))
  {
    ApplyKeepsCore(s.db, op);
    ApplyKeepsInv(s.db, op);
    Framed(s, Step(s, Transact(op)));
  }

  /** Every action of every goroutine keeps the state sound. */
  lemma StepOk(s: State, a: Action)
    requires StateOk(s)
    ensures StateOk(Step(s, a))
  {
    match a
    case Transact(op) => TransactOk(s, op);
    case Receive(m) => ReceiveOk(s, m);
    case SettleMessage(msg, terminal) => SettleOk(s, msg, terminal);
    case Publish(msg) => PublishOk(s, msg);
    case Dispatch => DispatchOk(s);
    case StopBus => ExtendsItself(s.db); Framed(s, Step(s, a));
    case Crash =>
    case StartCall(lease, kind, key, waits) => StartOk(s, lease, kind, key, waits);
    case StepCall(i, clock, stop) => StepCallOk(s, i, clock, stop);
    case AbortCall(i) => AbortOk(s, i);
  }

  /** A run ends with the step its last action makes. */
  lemma ExecuteLast(s: State, front: seq<Action>, a: Action, all: seq<Action>)
    requires all == front + [a]
    ensures Execute(s, all) == Step(Execute(s, front), a)
  {
    assert all[..|all| - 1] == front && all[|all| - 1] == a;
  }

  lemma {:induction false} ReachableOk(ttl: int, actions: seq<Action>)
    ensures StateOk(Execute(Init(ttl), actions))
    decreases |actions|
  {
    if actions != [] {
      ReachableOk(ttl, actions[..|actions| - 1]);
      StepOk(Execute(Init(ttl), actions[..|actions| - 1]), actions[|actions| - 1]);
    }
  }
}
