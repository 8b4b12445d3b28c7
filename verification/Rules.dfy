/** What the store's transactions decide, said in the fields of the rows alone: whom the store
    trusts when mail arrives, when a lease begins and ends, and which claim is recorded. */
module Rules {
  import opened Base
  import opened Clock
  import opened Tables
  import opened Invariants
  import opened Lifecycle
  import opened Correlation

  // ----- Which mail is doubted -----

  /** Every row a delivery adds is judged so, against the lease that owned its address. */
  lemma DeliveryJudges(db: Db, m: Message, b: Binding)
    requires Deliver(db, m).1.Ok? && b in Deliver(db, m).0.bindings && b !in db.bindings
    ensures Judged(db, m, b)
    ensures b.msg == |db.messages| && b.run == db.leases[b.lease].run && b.identity == db.leases[b.lease].identity
    ensures b.addr in m.envelope && OwnsAddress(db, b.lease, b.addr, m.received)
  {
    NewRow(db, m, b);
    BindMeaning(db, |db.messages|, m, |m.envelope|);
    assert m.envelope[..|m.envelope|] == m.envelope;
  }

  lemma BoundAreJudged(db: Db, msg: nat, m: Message, k: nat)
    requires k <= |m.envelope| && BindRecipients(db, msg, m, k).Some?
    ensures forall b :: b in BindRecipients(db, msg, m, k).value.bindings ==> Judged(db, m, b)
  {
    BindMeaning(db, msg, m, k);
    var rows := BindRecipients(db, msg, m, k).value.bindings;
    forall b | b in rows ensures Judged(db, m, b) {
      var i :| 0 <= i < |rows| && rows[i] == b;
      assert RightRow(db, msg, m, rows[i]);
    }
  }

  // ----- How a lease begins -----

  /** The identity's held lease, whichever it is. */
  ghost predicate Taken(db: Db, identity: nat) {
    exists i :: 0 <= i < |db.leases| && db.leases[i].identity == identity && db.leases[i].state.Held?
  }

  predicate RunsNow(db: Db, run: nat) { run < |db.runs| && db.runs[run].state.Active? }

  /** Which acquires are refused, and why. */
  lemma AcquireRefused(db: Db, run: nat, identity: nat, ttl: int, now: Time)
    ensures var (after, r) := AcquireLease(db, run, identity, ttl, now);
            && (r.Ok? <==> ttl > 0 && RunsNow(db, run) && identity < |db.identities| && !Taken(db, identity))
            && (r == Err(BadInput) <==> ttl <= 0)
            && (r == Err(RunNotActive) <==> ttl > 0 && run < |db.runs| && !RunsNow(db, run))
            && (r == Err(IdentityHeld) <==> ttl > 0 && RunsNow(db, run) && identity < |db.identities| && Taken(db, identity))
            && (r == Err(NotFound) <==> ttl > 0 && (run >= |db.runs| || (RunsNow(db, run) && identity >= |db.identities|)))
            && (r.Err? ==> after == db)
  {
  }

  /** The earliest instant an identity can be leased again. */
  ghost predicate EarliestFrom(leases: seq<Lease>, identity: nat, now: Time, start: Time) {
    && now <= start
    && (forall i :: 0 <= i < |leases| && leases[i].identity == identity && leases[i].released.Some? ==> leases[i].released.value <= start)
    && (start == now || exists i :: 0 <= i < |leases| && leases[i].identity == identity && leases[i].released == Some(start))
  }

  lemma StartIsEarliest(leases: seq<Lease>, identity: nat, now: Time)
    requires Timeline(leases)
    requires forall i :: 0 <= i < |leases| && leases[i].released.Some? ==> leases[i].acquired <= leases[i].released.value
    requires forall i :: 0 <= i < |leases| && leases[i].identity == identity ==> leases[i].released.Some?
    ensures EarliestFrom(leases, identity, now, LeaseStart(leases, identity, now))
  {
    PreviousIsLast(leases, |leases|, identity);
    var p := PreviousLease(leases, |leases|, identity);
    forall i | 0 <= i < |leases| && leases[i].identity == identity
      ensures leases[i].released.value <= LeaseStart(leases, identity, now)
    {
      if i < p.value { assert leases[i].released.value <= leases[p.value].acquired; }
    }
  }

  /** A new lease is held and pending, begins at the clock or at the end of the identity's last
      lease, lasts its TTL, and is marked exactly when it begins inside the cooldown. */
  lemma AcquireGrants(db: Db, run: nat, identity: nat, ttl: int, now: Time)
    requires CoreInv(db) && AcquireLease(db, run, identity, ttl, now).1.Ok?
    ensures var (after, r) := AcquireLease(db, run, identity, ttl, now);
            && r.value == |db.leases| && |after.leases| == |db.leases| + 1 && after == db.(leases := db.leases + [after.leases[r.value]])
            && var l := after.leases[r.value];
               && l.run == run && l.identity == identity && l.state.Held? && l.seed.SeedPending? && l.released.None?
               && EarliestFrom(db.leases, identity, now, l.acquired) && l.expires - l.acquired == ttl
               && (l.inCooldown <==> exists until :: db.identities[identity].cooldownUntil == Some(until) && l.acquired < until)
  {
    forall i | 0 <= i < |db.leases|
      ensures db.leases[i].released.Some? ==> db.leases[i].acquired <= db.leases[i].released.value
      ensures db.leases[i].identity == identity ==> db.leases[i].released.Some?
    {
      assert LeaseOk(db, db.leases[i]);
    }
    StartIsEarliest(db.leases, identity, now);
  }

  // ----- How a lease ends -----

  /** Nothing but this lease changed, and of this lease only where it stands. */
  predicate OnlyLease(db: Db, after: Db, lease: nat) {
    && lease < |db.leases| && |after.leases| == |db.leases| && after == db.(leases := after.leases)
    && LeaseMoves(db.leases[lease], after.leases[lease])
    && (forall i :: 0 <= i < |db.leases| && i != lease ==> after.leases[i] == db.leases[i])
  }

  /** The lease ended at the stamp, or at the instant it began if that is later: from then on
      its address is nobody's. */
  predicate EndedAt(l: Lease, after: Lease, at: Time) {
    && !after.state.Held? && after.released.Some? && after.released.value >= at && after.released.value >= l.acquired
    && after.released.value in {at, l.acquired}
  }

  /** A seeded or skipped lease stays held with that seed; a failed one ends in the same
      statement. Any other lease is refused and left as it is. */
  lemma SeedSettles(db: Db, lease: nat, outcome: SeedState, now: Time)
    ensures var (after, r) := SettleSeed(db, lease, outcome, now);
            && (r.Ok? <==> !outcome.SeedPending? && lease < |db.leases| && db.leases[lease].state.Held?)
            && (r == Err(BadInput) <==> outcome.SeedPending?) && (r.Err? ==> after == db && r.error in {BadInput, LeaseNotHeld})
            && (r.Ok? ==>
                  && OnlyLease(db, after, lease)
                  && var l, n := db.leases[lease], after.leases[lease];
                     && n.seed == outcome
                     && (outcome.SeedFailed? ==> n.state.Failed? && EndedAt(l, n, now))
                     && (!outcome.SeedFailed? ==> n.state.Held? && n.released == l.released))
  {
  }

  /** Giving back ends a held lease once; a second time changes nothing. */
  lemma ReleaseEnds(db: Db, lease: nat, now: Time)
    ensures var (after, r) := ReleaseLease(db, lease, now);
            && (r == if lease < |db.leases| then Ok(()) else Err(NotFound))
            && (lease >= |db.leases| || !db.leases[lease].state.Held? ==> after == db)
            && (lease < |db.leases| && db.leases[lease].state.Held? ==>
                  && OnlyLease(db, after, lease) && after.leases[lease].seed == db.leases[lease].seed
                  && after.leases[lease].state.Released? && EndedAt(db.leases[lease], after.leases[lease], now))
  {
  }

  /** A sweep ends exactly the held leases that are past their expiry. */
  lemma ExpiryEnds(db: Db, at: Time, now: Time, i: nat)
    requires i < |db.leases|
    ensures var after := ExpireLeases(db, at, now);
            && |after.leases| == |db.leases| && after == db.(leases := after.leases)
            && var l, n := db.leases[i], after.leases[i];
               if l.state.Held? && l.expires <= now
               then n.state.Expired? && n.seed == l.seed && LeaseMoves(l, n) && EndedAt(l, n, at) else n == l
  {
  }

  /** Ending a run ends it and every lease it held, and no other. */
  lemma RunEnds(db: Db, run: nat, state: RunState, now: Time, i: nat)
    requires i < |db.leases| && RunsNow(db, run) && !state.Active?
    ensures var (after, r) := EndRun(db, run, state, now);
            && r.Ok? && after == db.(runs := after.runs, leases := after.leases) && |after.leases| == |db.leases|
            && |after.runs| == |db.runs| && (forall j :: 0 <= j < |db.runs| && j != run ==> after.runs[j] == db.runs[j])
            && after.runs[run].state == state && after.runs[run].ended == Some(now) && RunMoves(db.runs[run], after.runs[run])
            && var l, n := db.leases[i], after.leases[i];
               if l.state.Held? && l.run == run
               then n.state.Released? && n.seed == l.seed && LeaseMoves(l, n) && EndedAt(l, n, now) else n == l
  {
  }

  /** Which ends of a run are refused, and why; ending it the same way again is not. */
  lemma EndRefused(db: Db, run: nat, state: RunState, now: Time)
    ensures var (after, r) := EndRun(db, run, state, now);
            && (r == Err(BadInput) <==> state.Active?)
            && (r == Err(NotFound) <==> !state.Active? && run >= |db.runs|)
            && (r == Err(RunNotActive) <==> !state.Active? && run < |db.runs| && !RunsNow(db, run) && db.runs[run].state != state)
            && (after != db ==> r.Ok? && RunsNow(db, run)) && (r.Err? ==> r.error in {BadInput, NotFound, RunNotActive})
  {
  }

  /** However a held lease ends, it owned its address from its start to that end and not an
      instant longer. */
  lemma OwnedUntilEnd(l: Lease, after: Lease, at: Time, t: Time)
    requires l.state.Held? && LeaseMoves(l, after) && EndedAt(l, after, at)
    ensures OwnsAt(after, t) <==> l.acquired <= t < at
  {
  }

  // ----- How long a run and a lease last -----

  /** A run is due to be ended from its creation plus its TTL on, and not before. */
  lemma {:induction false} RunLasts(db: Db, ttl: int, now: Time, t: Time)
    ensures ttl <= 0 ==> CreateRun(db, ttl, now) == (db, Err(BadInput))
    ensures ttl > 0 ==>
              var (after, r) := CreateRun(db, ttl, now);
              && r == Ok(|db.runs|) && db.runs <= after.runs && |after.runs| == |db.runs| + 1 && after == db.(runs := after.runs)
              && RunsNow(after, |db.runs|) && after.runs[|db.runs|].checkpoint == now
              && (|db.runs| in Overdue(after.runs, t) <==> now + ttl <= t)
  {
    if ttl > 0 { OverdueMeaning(CreateRun(db, ttl, now).0.runs, t); }
  }

  /** A lease is ended by a sweep from its start plus its TTL on, and not before. */
  lemma LeaseLasts(db: Db, run: nat, identity: nat, ttl: int, now: Time, at: Time, t: Time)
    requires CoreInv(db) && AcquireLease(db, run, identity, ttl, now).1.Ok?
    ensures var after := AcquireLease(db, run, identity, ttl, now).0;
            ExpireLeases(after, at, t).leases[|db.leases|].state.Held? <==> t < after.leases[|db.leases|].acquired + ttl
  {
    AcquireGrants(db, run, identity, ttl, now);
    ExpiryEnds(AcquireLease(db, run, identity, ttl, now).0, at, t, |db.leases|);
  }

  /** Cooling down marks the leases that begin before its end, and only a pooled identity does. */
  lemma CooldownMarks(db: Db, run: nat, identity: nat, ttl: int, now: Time, until: Time)
    requires CoreInv(db) && identity < |db.identities| && AcquireLease(SetCooldown(db, identity, until), run, identity, ttl, now).1.Ok?
    requires db.identities[identity].cooldownUntil.None?
    ensures var l := AcquireLease(SetCooldown(db, identity, until), run, identity, ttl, now).0.leases[|db.leases|];
            l.inCooldown <==> db.identities[identity].mode.Pooled? && l.acquired < until
  {
    SetCooldownKeeps(db, identity, until);
    AcquireGrants(SetCooldown(db, identity, until), run, identity, ttl, now);
  }

  lemma CooldownSets(db: Db, identity: nat, until: Time)
    ensures var after := SetCooldown(db, identity, until);
            && after == db.(identities := after.identities) && |after.identities| == |db.identities|
            && (forall i :: 0 <= i < |db.identities| ==>
                  && IdentityMoves(db.identities[i], after.identities[i])
                  && after.identities[i].cooldownUntil
                     == if i == identity && db.identities[i].mode.Pooled? then Some(until) else db.identities[i].cooldownUntil)
  {
  }

  // ----- Addresses -----

  /** One letter in two cases. */
  predicate CaseOf(x: char, y: char) { 'A' <= x <= 'Z' && y as int - x as int == 32 }

  /** Two addresses are one exactly when they differ at most in the case of ASCII letters. */
  lemma SameAddressIff(a: string, b: string)
    ensures SameAddress(a, b) <==>
            |a| == |b| && forall i :: 0 <= i < |a| ==> a[i] == b[i] || CaseOf(a[i], b[i]) || CaseOf(b[i], a[i])
  {
    assert forall i :: 0 <= i < |a| ==> Fold(a)[i] == if 'A' <= a[i] <= 'Z' then a[i] - 'A' + 'a' else a[i];
    assert forall i :: 0 <= i < |b| ==> Fold(b)[i] == if 'A' <= b[i] <= 'Z' then b[i] - 'A' + 'a' else b[i];
    if SameAddress(a, b) {
      forall i | 0 <= i < |a| ensures a[i] == b[i] || CaseOf(a[i], b[i]) || CaseOf(b[i], a[i]) { assert Fold(a)[i] == Fold(b)[i]; }
    }
  }

  /** An identity is refused exactly without an address or with one that is taken in any case. */
  lemma IdentityRefused(db: Db, addr: string, mode: Mode)
    ensures var (after, r) := CreateIdentity(db, addr, mode);
            && (r == Err(BadInput) <==> addr == "")
            && (r == Err(AddressTaken) <==> addr != "" && exists i :: 0 <= i < |db.identities| && SameAddress(addr, db.identities[i].addr))
            && (r.Err? ==> after == db && r.error in {BadInput, AddressTaken})
            && (r.Ok? ==> r.value == |db.identities| && after == db.(identities := db.identities + [Identity(addr, mode, None)]))
  {
  }

  // ----- Claims -----

  /** Why a claim is not recorded, and until when it lasts when it is: its TTL, cut at the end
      of the grant. */
  lemma ClaimRecorded(db: Db, lease: nat, run: nat, kind: Kind, msg: nat, key: string, ttl: int, notAfter: Option<Time>, now: Time)
    ensures var (after, r) := RecordClaim(db, lease, run, kind, msg, key, ttl, notAfter, now);
            && (r == Err(BadInput) <==> key == "" || ttl <= 0)
            && (r == Err(ClaimWindowClosed) <==> key != "" && ttl > 0 && notAfter.Some? && notAfter.value <= now)
            && (r == Err(ClaimTaken) <==>
                  key != "" && ttl > 0 && (notAfter.Some? ==> now < notAfter.value)
                  && exists i :: 0 <= i < |db.claims| && ((db.claims[i].msg == msg && db.claims[i].kind == kind)
                                                           || (db.claims[i].lease == lease && db.claims[i].key == key)))
            && (r.Err? ==> after == db && r.error in {BadInput, ClaimWindowClosed, ClaimTaken})
            && (r.Ok? ==>
                  && r.value == |db.claims| && db.claims <= after.claims && |after.claims| == |db.claims| + 1 && after == db.(claims := after.claims)
                  && var c := after.claims[|db.claims|];
                     && c.lease == lease && c.run == run && c.kind == kind && c.msg == msg && c.key == key && c.claimed == now
                     && c.expires <= now + ttl && (notAfter.Some? ==> c.expires <= notAfter.value)
                     && (c.expires == now + ttl || notAfter == Some(c.expires)))
  {
  }

  /** What can be handed over: the value of the kind, of a settled message whose extraction
      opens; a replay asks for the whole message to be readable as well. */
  lemma ValueHandedOver(m: Message, kind: Kind)
    ensures CandidateValue(m, kind) != "" <==>
              m.state.Success? && m.extractionOpens && (if kind.EmailOTP? then m.state.result.otpBest else m.state.result.verifyLinkBest) != ""
    ensures CandidateValue(m, kind) != "" ==>
              CandidateValue(m, kind) == if kind.EmailOTP? then m.state.result.otpBest else m.state.result.verifyLinkBest
    ensures ReplayValue(m, kind) == if m.quarantined || !m.bodyOpens then "" else CandidateValue(m, kind)
  {
  }
}
