/** The store as the object the server shares (internal/store): each method changes the
    tables the way its transaction does and takes its stamps from the one store clock. */
module Stores {
  import opened Base
  import opened Clock
  import opened Tables
  import opened Invariants
  import opened Lifecycle
  import opened Correlation
  import opened Candidates
  import opened Rules

  /** A success takes the stamp this reading gives; a refusal may come before or after it. */
  predicate Ticked(before: Time, after: Time, reading: Time, ok: bool) {
    after == NextStamp(before, reading) || (!ok && after == before)
  }

  class Store {
    var runs: seq<Run>
    var identities: seq<Identity>
    var leases: seq<Lease>
    var messages: seq<Message>
    var bindings: seq<Binding>
    var claims: seq<Claim>
    const clock: StoreClock

    constructor ()
      ensures State() == EMPTY && fresh(clock) && clock.lastNow == 0
    {
      runs, identities, leases, messages, bindings, claims := [], [], [], [], [], [];
      clock := new StoreClock();
    }

    function State(): Db
      reads this
    {
      Db(runs, identities, leases, messages, bindings, claims)
    }

    // ----- Runs -----

    method CreateRun(ttl: int, reading: Time) returns (r: Result<nat, Refusal>)
      modifies this`runs, clock
      ensures (State(), r) == Tables.CreateRun(old(State()), ttl, clock.lastNow)
      ensures Ticked(old(clock.lastNow), clock.lastNow, reading, r.Ok?)
    {
      if ttl <= 0 { return Err(BadInput); }
      var now := clock.Now(reading);
      runs := runs + [Run(Active, now, now + ttl, None)];
      return Ok(|runs| - 1);
    }

    method EndRun(run: nat, state: RunState, reading: Time) returns (r: Result<(), Refusal>)
      modifies this`runs, this`leases, clock
      ensures (State(), r) == Tables.EndRun(old(State()), run, state, clock.lastNow)
      ensures clock.lastNow == if state.Active? then old(clock.lastNow) else NextStamp(old(clock.lastNow), reading)
    {
      if state.Active? { return Err(BadInput); }
      var now := clock.Now(reading);
      if run < |runs| && runs[run].state.Active? {
        runs := runs[run := runs[run].(state := state, ended := Some(now))];
        leases := ReleaseRunLeases(leases, run, now);
        return Ok(());
      }
      if run >= |runs| { return Err(NotFound); }
      if runs[run].state == state { return Ok(()); }
      return Err(RunNotActive);
    }

    method OverdueRuns(now: Time) returns (ids: seq<nat>)
      ensures ids == Overdue(runs, now)
    {
      ids := [];
      for i := 0 to |runs|
        invariant ids == Overdue(runs[..i], now)
      {
        assert runs[..i + 1][..i] == runs[..i];
        if runs[i].state.Active? && runs[i].expires <= now { ids := ids + [i]; }
      }
      assert runs[..|runs|] == runs;
    }

    /** Reads the overdue runs first and then ends them one by one; no end is refused. */
    method ExpireRuns(wall: nat -> Time) returns (expired: nat, now: Time, ghost stamps: seq<Time>)
      requires CoreInv(State())
      modifies this`runs, this`leases, clock
      ensures now == NextStamp(old(clock.lastNow), wall(0)) && expired == |Overdue(old(runs), now)| == |stamps|
      ensures clock.lastNow >= now && forall i :: 0 <= i < |stamps| ==> stamps[i] > now
      ensures State() == Lifecycle.ExpireRuns(old(State()), now, stamps)
      ensures NoOverdueRun(runs, now)
    {
      ghost var before := State();
      now := clock.Now(wall(0));
      var ids := OverdueRuns(now);
      stamps := [];
      for k := 0 to |ids|
        invariant ids == Overdue(before.runs, now)
        invariant |stamps| == k && (forall j :: 0 <= j < k ==> stamps[j] > now) && clock.lastNow >= now
        invariant State() == EndRuns(before, ids[..k], stamps)
      {
        EndRunsSucceeds(before, now, ids, k, stamps);
        var ended := EndRun(ids[k], RunExpired, wall(k + 1));
        assert ended.Ok?;
        EndRunsSnoc(before, ids, k, stamps + [clock.lastNow]);
        stamps := stamps + [clock.lastNow];
      }
      assert ids[..|ids|] == ids;
      ExpireRunsMeaning(before, now, stamps);
      expired := |ids|;
    }

    // ----- Identities and leases -----

    /** Only a pooled identity has a persona, and it must. */
    method CreateIdentity(addr: string, mode: Mode, hasPersona: bool, reading: Time) returns (r: Result<nat, Refusal>)
      modifies this`identities, clock
      ensures (State(), r) == if hasPersona == mode.Pooled? then Tables.CreateIdentity(old(State()), addr, mode) else (old(State()), Err(BadInput))
      ensures Ticked(old(clock.lastNow), clock.lastNow, reading, r.Ok?)
    {
      if hasPersona != mode.Pooled? { return Err(BadInput); }
      if addr == "" { return Err(BadInput); }
      var created := clock.Now(reading);
      if exists i :: 0 <= i < |identities| && SameAddress(identities[i].addr, addr) { return Err(AddressTaken); }
      identities := identities + [Identity(addr, mode, None)];
      return Ok(|identities| - 1);
    }

    method SetCooldown(identity: nat, until: Time)
      modifies this`identities
      ensures State() == Tables.SetCooldown(old(State()), identity, until)
    {
      if identity < |identities| && identities[identity].mode.Pooled? {
        identities := identities[identity := identities[identity].(cooldownUntil := Some(until))];
      }
    }

    method AcquireLease(run: nat, identity: nat, ttl: int, reading: Time) returns (r: Result<nat, Refusal>)
      modifies this`leases, clock
      ensures (State(), r) == Tables.AcquireLease(old(State()), run, identity, ttl, clock.lastNow)
      ensures Ticked(old(clock.lastNow), clock.lastNow, reading, r.Ok?)
    {
      if ttl <= 0 { return Err(BadInput); }
      if run >= |runs| { return Err(NotFound); }
      if !runs[run].state.Active? { return Err(RunNotActive); }
      var start := StartOfLease(identity, reading);
      if identity >= |identities| { return Err(NotFound); }
      var until := identities[identity].cooldownUntil;
      var cooling := until.Some? && start < until.value;
      if IsHeld(leases, identity) { return Err(IdentityHeld); }
      leases := leases + [Lease(run, identity, Held, SeedPending, start, start + ttl, None, cooling)];
      return Ok(|leases| - 1);
    }

    /** The store clock, or the end of the identity's previous lease if that is later. */
    method StartOfLease(identity: nat, reading: Time) returns (start: Time)
      modifies clock
      ensures clock.lastNow == NextStamp(old(clock.lastNow), reading)
      ensures start == LeaseStart(leases, identity, clock.lastNow)
    {
      var now := clock.Now(reading);
      var previous := PreviousLease(leases, |leases|, identity);
      if previous.None? { return now; }
      var released := leases[previous.value].released;
      if released.None? { return now; }
      if released.value > now { return released.value; }
      return now;
    }

    method SettleSeed(lease: nat, outcome: SeedState, reading: Time) returns (r: Result<(), Refusal>)
      modifies this`leases, clock
      ensures (State(), r) == Tables.SettleSeed(old(State()), lease, outcome, clock.lastNow)
      ensures Ticked(old(clock.lastNow), clock.lastNow, reading, r.Ok?)
      ensures r.Ok? ==>
                && OnlyLease(old(State()), State(), lease) && leases[lease].seed == outcome
                && if outcome.SeedFailed?
                   then leases[lease].state.Failed? && leases[lease].released == Some(Max(clock.lastNow, leases[lease].acquired))
                   else leases[lease].state.Held? && leases[lease].released == old(leases)[lease].released
    {
      if outcome.SeedPending? { return Err(BadInput); }
      var now := clock.Now(reading);
      if lease >= |leases| || !leases[lease].state.Held? { return Err(LeaseNotHeld); }
      if outcome.SeedFailed? {
        leases := leases[lease := leases[lease].(seed := outcome, state := Failed, released := Some(Max(now, leases[lease].acquired)))];
      } else {
        leases := leases[lease := leases[lease].(seed := outcome)];
      }
      return Ok(());
    }

    method ReleaseLease(lease: nat, reading: Time) returns (r: Result<(), Refusal>)
      modifies this`leases, clock
      ensures (State(), r) == Tables.ReleaseLease(old(State()), lease, clock.lastNow)
      ensures clock.lastNow == NextStamp(old(clock.lastNow), reading)
    {
      var now := clock.Now(reading);
      if lease < |leases| && leases[lease].state.Held? {
        leases := leases[lease := leases[lease].(state := Released, released := Some(Max(now, leases[lease].acquired)))];
        return Ok(());
      }
      if lease >= |leases| { return Err(NotFound); }
      return Ok(());
    }

    method ExpireLeases(first: Time, second: Time) returns (expired: nat)
      modifies this`leases, clock
      ensures var at := NextStamp(old(clock.lastNow), first);
              && clock.lastNow == NextStamp(at, second)
              && State() == Tables.ExpireLeases(old(State()), at, clock.lastNow)
              && expired == OverdueLeases(old(leases), clock.lastNow)
      ensures forall i :: 0 <= i < |leases| && leases[i].state.Held? ==> leases[i].expires > clock.lastNow
      ensures expired == |set i: nat | i < |old(leases)| && old(leases)[i].state.Held? && old(leases)[i].expires <= clock.lastNow|
    {
      ghost var before := State();
      var at := clock.Now(first);
      var now := clock.Now(second);
      expired := OverdueLeases(leases, now);
      OverdueLeasesMeaning(leases, now);
      leases := seq(|leases|, i requires 0 <= i < |leases| reads this`leases =>
        if leases[i].state.Held? && leases[i].expires <= now then Ended(leases[i], Expired, at) else leases[i]);
      assert leases == Tables.ExpireLeases(before, at, now).leases;
    }

    // ----- Messages -----

    /** Binds the recipients of a message row that was just inserted, one at a time. */
    method BindRecipients(msg: nat, m: Message, ghost db: Db) returns (r: Result<Bound, Refusal>)
      requires BindingsOk(db) && msg == |db.messages| && State() == Stored(db, m, [])
      modifies this`bindings
      ensures r == Ascertained(Tables.BindRecipients(db, msg, m, |m.envelope|))
      ensures r.Ok? ==> State() == Stored(db, m, r.value.bindings) && forall b :: b in r.value.bindings ==> Judged(db, m, b)
    {
      assert forall i :: 0 <= i < |db.bindings| ==> BindingOk(db, db.bindings[i]);
      var seen: set<string>, bound: seq<Binding>, unbound: seq<string> := {}, [], [];
      assert db.bindings + [] == db.bindings;
      for k := 0 to |m.envelope|
        invariant State() == Stored(db, m, bound)
        invariant Tables.BindRecipients(db, msg, m, k) == Some(Bound(bound, unbound))
        invariant forall a :: a in seen <==> a != "" && a in m.envelope[..k]
        invariant forall i :: 0 <= i < |bound| ==> bound[i].msg == msg
      {
        assert m.envelope[..k + 1] == m.envelope[..k] + [m.envelope[k]];
        var addr := m.envelope[k];
        if addr == "" || addr in seen { continue; }
        seen := seen + {addr};
        SameOwner(State(), db, |leases|, addr, m.received);
        var owner := LeaseAt(State(), |leases|, addr, m.received);
        if owner.None? {
          unbound := unbound + [addr];
          continue;
        }
        BoundInTable(db.bindings, bound, msg, owner.value);
        if exists i :: 0 <= i < |bindings| && bindings[i].msg == msg && bindings[i].lease == owner.value {
          RefusedStays(db, msg, m, k + 1, |m.envelope|);
          return Err(DuplicateBinding);
        }
        var l := leases[owner.value];
        var row := Binding(msg, owner.value, l.run, l.identity, addr, Suspect(l, identities[l.identity].mode, m.origin));
        bindings := bindings + [row];
        bound := bound + [row];
        assert db.bindings + bound == bindings;
      }
      BoundAreJudged(db, msg, m, |m.envelope|);
      return Ok(Bound(bound, unbound));
    }

    /** Stores a message and binds its recipients in one transaction: everything commits, or
        a refused binding takes the message row back too. */
    method Deliver(m: Message) returns (r: Result<nat, Refusal>, unbound: seq<string>)
      requires BindingsOk(State())
      modifies this`messages, this`bindings
      ensures (State(), r) == Tables.Deliver(old(State()), m)
      ensures forall b :: b in bindings && b !in old(bindings) ==> Judged(old(State()), m, b)
      ensures r.Ok? ==> forall a :: a in unbound <==> a in m.envelope && a != "" && !HasOwner(old(State()), a, m.received)
    {
      ghost var db := State();
      var savedMessages, savedBindings, msg := messages, bindings, |messages|;
      messages := messages + [m.(state := Pending)];
      assert db.bindings + [] == db.bindings;
      var bound := BindRecipients(msg, m, db);
      if bound.Err? {
        messages, bindings := savedMessages, savedBindings;
        return Err(bound.error), [];
      }
      UnboundMeaning(db, msg, m, bound.value.unbound, bound.value.bindings);
      return Ok(msg), bound.value.unbound;
    }

    method SettleExtraction(msg: nat, terminal: ExtractionState) returns (r: Result<(), Refusal>)
      modifies this`messages
      ensures (State(), r) == Tables.SettleExtraction(old(State()), msg, terminal)
    {
      if terminal.Pending? { return Err(BadInput); }
      if msg < |messages| && messages[msg].state.Pending? {
        messages := messages[msg := messages[msg].(state := terminal)];
        return Ok(());
      }
      if msg >= |messages| { return Err(NotFound); }
      return Err(ExtractionSettled);
    }

    // ----- Claims -----

    /** One pass over the lease's bindings, oldest message first. */
    method ClaimCandidates(lease: nat, kind: Kind, notBefore: Option<Time>, limit: nat) returns (out: seq<nat>, refused: Rejections)
      ensures ReadResult(out, refused) == ReadLimited(State(), lease, kind, notBefore, limit)
      ensures limit == 0 ==> ReadResult(out, refused) == ReadLease(State(), lease, kind, notBefore)
    {
      var rows := Limited(Rows(State(), lease), limit);
      RowsMeaning(State(), lease);
      out, refused := [], NO_REJECTIONS;
      for i := 0 to |rows|
        invariant Tallied(State(), rows[..i], kind, notBefore, ReadResult(out, refused))
      {
        assert rows[i] in rows;
        ReadSnoc(State(), rows, i, kind, notBefore);
        out, refused := TallyRow(rows[i], kind, notBefore, out, refused);
      }
      assert rows[..|rows|] == rows;
    }

    /** The first condition that holds decides what the row adds to. */
    method TallyRow(b: Binding, kind: Kind, notBefore: Option<Time>, out: seq<nat>, refused: Rejections)
      returns (nextOut: seq<nat>, next: Rejections)
      requires b.msg < |messages|
      ensures ReadResult(nextOut, next) == Tally(ReadResult(out, refused), Classify(State(), b, kind, notBefore), b.msg)
    {
      nextOut, next := out, refused.(bindings := refused.bindings + 1);
      var m := messages[b.msg];
      if m.quarantined {
      } else if !b.suspect.Clean? {
        next := next.(suspect := next.suspect + 1);
      } else if IsClaimed(claims, b.msg, kind) {
        next := next.(alreadyClaimed := next.alreadyClaimed + 1);
      } else if notBefore.Some? && m.received < notBefore.value {
        next := next.(stale := next.stale + 1);
      } else if m.state.ExtractionFailed? {
        next := next.(extractionFail := next.extractionFail + 1);
      } else if !m.state.Success? {
        next := next.(pending := next.pending + 1);
      } else if !m.extractionOpens {
        next := next.(extractionFail := next.extractionFail + 1);
      } else {
        nextOut := out + [b.msg];
      }
    }

    method RecordClaim(lease: nat, run: nat, kind: Kind, msg: nat, key: string, ttl: int, notAfter: Option<Time>, reading: Time)
      returns (r: Result<nat, Refusal>)
      modifies this`claims, clock
      ensures (State(), r) == Tables.RecordClaim(old(State()), lease, run, kind, msg, key, ttl, notAfter, clock.lastNow)
      ensures Ticked(old(clock.lastNow), clock.lastNow, reading, r.Ok?)
    {
      if key == "" || ttl <= 0 { return Err(BadInput); }
      var now := clock.Now(reading);
      var expires := now + ttl;
      if notAfter.Some? && notAfter.value < expires { expires := notAfter.value; }
      if expires <= now { return Err(ClaimWindowClosed); }
      if IsClaimed(claims, msg, kind) || KeyUsed(claims, lease, key) { return Err(ClaimTaken); }
      claims := claims + [Tables.Claim(lease, run, kind, msg, key, now, expires)];
      return Ok(|claims| - 1);
    }
  }

  // ----- What the methods rest on -----

  function OverdueLeases(leases: seq<Lease>, now: Time): nat {
    if leases == [] then 0
    else OverdueLeases(leases[..|leases| - 1], now)
         + if leases[|leases| - 1].state.Held? && leases[|leases| - 1].expires <= now then 1 else 0
  }

  /** It counts the held leases whose expiry has come. */
  lemma {:induction false} OverdueLeasesMeaning(leases: seq<Lease>, now: Time)
    ensures OverdueLeases(leases, now) == |set i: nat | i < |leases| && leases[i].state.Held? && leases[i].expires <= now|
    decreases |leases|
  {
    if leases != [] {
      var n := |leases| - 1;
      var front := leases[..n];
      OverdueLeasesMeaning(front, now);
      var earlier := set i: nat | i < n && front[i].state.Held? && front[i].expires <= now;
      var all := set i: nat | i < |leases| && leases[i].state.Held? && leases[i].expires <= now;
      assert all == if leases[n].state.Held? && leases[n].expires <= now then earlier + {n} else earlier;
    }
  }

  /** The tables with a message row inserted and some of its bindings. */
  function Stored(db: Db, m: Message, bound: seq<Binding>): Db {
    db.(messages := db.messages + [m.(state := Pending)], bindings := db.bindings + bound)
  }

  function Ascertained(b: Option<Bound>): Result<Bound, Refusal> {
    if b.None? then Err(DuplicateBinding) else Ok(b.value)
  }

  /** What one row adds to a read. */
  function Tally(a: ReadResult, v: Verdict, msg: nat): ReadResult {
    var r := a.refused.(bindings := a.refused.bindings + 1);
    match v
    case Quarantined => a.(refused := r)
    case Suspected => a.(refused := r.(suspect := r.suspect + 1))
    case AlreadyClaimed => a.(refused := r.(alreadyClaimed := r.alreadyClaimed + 1))
    case Stale => a.(refused := r.(stale := r.stale + 1))
    case Unextracted => a.(refused := r.(extractionFail := r.extractionFail + 1))
    case Unreadable => a.(refused := r.(extractionFail := r.extractionFail + 1))
    case StillPending => a.(refused := r.(pending := r.pending + 1))
    case Usable => ReadResult(a.out + [msg], r)
  }

  ghost predicate Tallied(db: Db, rows: seq<Binding>, kind: Kind, notBefore: Option<Time>, a: ReadResult) {
    (forall b :: b in rows ==> b.msg < |db.messages|) && a == Read(db, rows, kind, notBefore)
  }

  lemma ReadSnoc(db: Db, rows: seq<Binding>, i: nat, kind: Kind, notBefore: Option<Time>)
    requires i < |rows| && (forall b :: b in rows ==> b.msg < |db.messages|)
    ensures Tallied(db, rows[..i + 1], kind, notBefore,
                    Tally(Read(db, rows[..i], kind, notBefore), Classify(db, rows[i], kind, notBefore), rows[i].msg))
  {
    assert rows[..i + 1][..i] == rows[..i];
  }

  lemma {:induction false} RefusedStays(db: Db, msg: nat, m: Message, k: nat, n: nat)
    requires k <= n <= |m.envelope| && BindRecipients(db, msg, m, k).None?
    ensures BindRecipients(db, msg, m, n).None?
  {
    if k < n { RefusedStays(db, msg, m, k, n - 1); }
  }

  lemma EndRunsSnoc(db: Db, ids: seq<nat>, k: nat, stamps: seq<Time>)
    requires k < |ids| && |stamps| == k + 1
    ensures EndRuns(db, ids[..k + 1], stamps) == Tables.EndRun(EndRuns(db, ids[..k], stamps[..k]), ids[k], RunExpired, stamps[k]).0
  {
    assert ids[..k + 1][..k] == ids[..k];
  }

  /** Each run the sweep read as overdue is still active when its turn comes. */
  lemma EndRunsSucceeds(db: Db, now: Time, ids: seq<nat>, k: nat, stamps: seq<Time>)
    requires ids == Overdue(db.runs, now) && k < |ids| && |stamps| == k
    ensures var mid := EndRuns(db, ids[..k], stamps); ids[k] < |mid.runs| && mid.runs[ids[k]].state.Active?
  {
    OverdueMeaning(db.runs, now);
    assert forall j :: 0 <= j < |ids| ==> ids[j] in ids;
    EndRunsMeaning(db, ids[..k], stamps);
    assert ids[k] !in ids[..k];
  }

  lemma {:induction false} SameOwner(a: Db, b: Db, n: nat, addr: string, at: Time)
    requires a.leases == b.leases && a.identities == b.identities && n <= |a.leases|
    ensures LeaseAt(a, n, addr, at) == LeaseAt(b, n, addr, at)
  {
    if n > 0 { SameOwner(a, b, n - 1, addr, at); }
  }

  /** The primary key of the table and the check on this message's own rows agree. */
  lemma BoundInTable(saved: seq<Binding>, bound: seq<Binding>, msg: nat, lease: nat)
    requires forall i :: 0 <= i < |saved| ==> saved[i].msg < msg
    requires forall i :: 0 <= i < |bound| ==> bound[i].msg == msg
    ensures (exists i :: 0 <= i < |saved + bound| && (saved + bound)[i].msg == msg && (saved + bound)[i].lease == lease)
            <==> LeaseBound(bound, lease)
  {
    if LeaseBound(bound, lease) {
      var i :| 0 <= i < |bound| && bound[i].lease == lease;
      assert (saved + bound)[|saved| + i] == bound[i];
    }
  }

  lemma UnboundMeaning(db: Db, msg: nat, m: Message, unbound: seq<string>, bound: seq<Binding>)
    requires BindRecipients(db, msg, m, |m.envelope|) == Some(Bound(bound, unbound))
    ensures forall a :: a in unbound <==> a in m.envelope && a != "" && !HasOwner(db, a, m.received)
  {
    BindMeaning(db, msg, m, |m.envelope|);
    NoBlankUnbound(db, msg, m, |m.envelope|);
    assert m.envelope[..|m.envelope|] == m.envelope;
  }

  lemma {:induction false} NoBlankUnbound(db: Db, msg: nat, m: Message, k: nat)
    requires k <= |m.envelope| && BindRecipients(db, msg, m, k).Some?
    ensures "" !in BindRecipients(db, msg, m, k).value.unbound
  {
    if k > 0 { NoBlankUnbound(db, msg, m, k - 1); }
  }
}
