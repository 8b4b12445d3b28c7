/** What every store transaction keeps: lease timelines, the coupling of runs and leases,
    sound bindings, and rows that only ever move forward. */
module Invariants {
  import opened Base
  import opened Clock
  import opened Tables

  // ----- The invariant -----

  /** Leases of one identity, in the order they were granted, never overlap: each has ended
      by the time the next begins. */
  ghost predicate Timeline(leases: seq<Lease>) {
    forall i, j :: 0 <= i < j < |leases| && leases[i].identity == leases[j].identity ==>
      leases[i].released.Some? && leases[i].released.value <= leases[j].acquired
  }

  ghost predicate LeaseOk(db: Db, l: Lease) {
    && l.run < |db.runs| && l.identity < |db.identities|
    && (l.state.Held? <==> l.released.None?)
    && (l.released.Some? ==> l.acquired <= l.released.value)
    && (l.state.Held? ==> db.runs[l.run].state.Active?)
  }

  ghost predicate LeasesOk(db: Db) {
    forall i :: 0 <= i < |db.leases| ==> LeaseOk(db, db.leases[i])
  }

  ghost predicate RunsOk(runs: seq<Run>) {
    forall i :: 0 <= i < |runs| ==> (runs[i].state.Active? <==> runs[i].ended.None?)
  }

  ghost predicate AddressesUnique(ids: seq<Identity>) {
    forall i, j :: 0 <= i < j < |ids| ==> !SameAddress(ids[i].addr, ids[j].addr)
  }

  /** A binding names the lease that owned one of the message's envelope addresses when the
      message arrived; a clean one also passed the handover guard. */
  ghost predicate BindingOk(db: Db, b: Binding) {
    && b.msg < |db.messages| && b.lease < |db.leases|
    && b.run == db.leases[b.lease].run && b.identity == db.leases[b.lease].identity
    && b.identity < |db.identities|
    && b.addr in db.messages[b.msg].envelope
    && SameAddress(db.identities[b.identity].addr, b.addr)
    && db.leases[b.lease].acquired <= db.messages[b.msg].received
    && (b.suspect.Clean? ==> PassesGuard(db.leases[b.lease], db.identities[b.identity].mode, db.messages[b.msg].origin))
  }

  predicate PassesGuard(l: Lease, mode: Mode, origin: Option<Time>) {
    && !l.inCooldown
    && (mode.Pooled? ==> origin.Some? && Truncate(l.acquired, SECOND) <= origin.value)
  }

  ghost predicate BindingsOk(db: Db) {
    && (forall i :: 0 <= i < |db.bindings| ==> BindingOk(db, db.bindings[i]))
    && (forall i, j :: 0 <= i < j < |db.bindings| ==>
          db.bindings[i].msg != db.bindings[j].msg || db.bindings[i].lease != db.bindings[j].lease)
  }

  predicate CleanlyBound(db: Db, msg: nat, lease: nat) {
    exists i :: 0 <= i < |db.bindings| && db.bindings[i].msg == msg && db.bindings[i].lease == lease
                && db.bindings[i].suspect.Clean?
  }

  function LowerBound(run: Run, lease: Lease): Time { Max(run.checkpoint, lease.acquired) }

  function EndOfGrant(run: Run, lease: Lease): Time { Min(run.expires, lease.expires) }

  /** The message may back a claim of this kind against this lease, claimed or not. */
  ghost predicate Claimable(db: Db, lease: nat, kind: Kind, msg: nat) {
    && lease < |db.leases| && msg < |db.messages| && db.leases[lease].run < |db.runs|
    && CleanlyBound(db, msg, lease)
    && !db.messages[msg].quarantined
    && CandidateValue(db.messages[msg], kind) != ""
    && LowerBound(db.runs[db.leases[lease].run], db.leases[lease]) <= db.messages[msg].received
  }

  ghost predicate ClaimOk(db: Db, c: Claim) {
    && Claimable(db, c.lease, c.kind, c.msg)
    && c.run == db.leases[c.lease].run
    && c.claimed < c.expires <= EndOfGrant(db.runs[c.run], db.leases[c.lease])
  }

  ghost predicate ClaimsOk(db: Db) {
    && (forall i :: 0 <= i < |db.claims| ==> ClaimOk(db, db.claims[i]))
    && (forall i, j :: 0 <= i < j < |db.claims| ==>
          db.claims[i].msg != db.claims[j].msg || db.claims[i].kind != db.claims[j].kind)
    && (forall i, j :: 0 <= i < j < |db.claims| ==>
          db.claims[i].lease != db.claims[j].lease || db.claims[i].key != db.claims[j].key)
  }

  ghost predicate Inv(db: Db) {
    && LeasesOk(db) && Timeline(db.leases) && RunsOk(db.runs) && AddressesUnique(db.identities)
    && BindingsOk(db) && ClaimsOk(db)
  }

  // ----- Rows only move forward -----

  predicate RunMoves(a: Run, b: Run) {
    b.checkpoint == a.checkpoint && b.expires == a.expires && (a.state.Active? || b == a)
  }

  predicate IdentityMoves(a: Identity, b: Identity) { b.addr == a.addr && b.mode == a.mode }

  predicate LeaseMoves(a: Lease, b: Lease) {
    && b.run == a.run && b.identity == a.identity && b.acquired == a.acquired && b.expires == a.expires
    && b.inCooldown == a.inCooldown
    && (a.state.Held? || b == a)
  }

  predicate MessageMoves(a: Message, b: Message) {
    b == a || (a.state.Pending? && b == a.(state := b.state))
  }

  /** Nothing is deleted, terminal states never change, what identifies a row is fixed, and
      a message is bound only in the transaction that stores it. */
  ghost predicate Extends(a: Db, b: Db) {
    && |a.runs| <= |b.runs| && (forall i :: 0 <= i < |a.runs| ==> RunMoves(a.runs[i], b.runs[i]))
    && |a.identities| <= |b.identities| && (forall i :: 0 <= i < |a.identities| ==> IdentityMoves(a.identities[i], b.identities[i]))
    && |a.leases| <= |b.leases| && (forall i :: 0 <= i < |a.leases| ==> LeaseMoves(a.leases[i], b.leases[i]))
    && |a.messages| <= |b.messages| && (forall i :: 0 <= i < |a.messages| ==> MessageMoves(a.messages[i], b.messages[i]))
    && a.bindings <= b.bindings
    && (forall i :: |a.bindings| <= i < |b.bindings| ==> b.bindings[i].msg >= |a.messages|)
    && a.claims <= b.claims
  }

  lemma ExtendsItself(db: Db)
    ensures Extends(db, db)
  {
  }

  lemma ExtendsTransitive(a: Db, b: Db, c: Db)
    requires Extends(a, b) && Extends(b, c)
    ensures Extends(a, c)
  {
    forall i | 0 <= i < |a.runs| ensures RunMoves(a.runs[i], c.runs[i]) { assert RunMoves(b.runs[i], c.runs[i]); }
    forall i | 0 <= i < |a.identities| ensures IdentityMoves(a.identities[i], c.identities[i]) {
      assert IdentityMoves(b.identities[i], c.identities[i]);
    }
    forall i | 0 <= i < |a.leases| ensures LeaseMoves(a.leases[i], c.leases[i]) { assert LeaseMoves(b.leases[i], c.leases[i]); }
    forall i | 0 <= i < |a.messages| ensures MessageMoves(a.messages[i], c.messages[i]) {
      assert MessageMoves(b.messages[i], c.messages[i]);
    }
  }

  lemma CleanlyBoundStable(a: Db, b: Db, msg: nat, lease: nat)
    requires Extends(a, b) && CleanlyBound(a, msg, lease)
    ensures CleanlyBound(b, msg, lease)
  {
    var i :| 0 <= i < |a.bindings| && a.bindings[i].msg == msg && a.bindings[i].lease == lease && a.bindings[i].suspect.Clean?;
    assert b.bindings[i] == a.bindings[i];
  }

  lemma ClaimableStable(a: Db, b: Db, lease: nat, kind: Kind, msg: nat)
    requires Extends(a, b) && Claimable(a, lease, kind, msg)
    ensures Claimable(b, lease, kind, msg)
    ensures CandidateValue(b.messages[msg], kind) == CandidateValue(a.messages[msg], kind)
    ensures EndOfGrant(b.runs[b.leases[lease].run], b.leases[lease]) == EndOfGrant(a.runs[a.leases[lease].run], a.leases[lease])
  {
    CleanlyBoundStable(a, b, msg, lease);
    assert LeaseMoves(a.leases[lease], b.leases[lease]);
    assert RunMoves(a.runs[a.leases[lease].run], b.runs[a.leases[lease].run]);
    assert MessageMoves(a.messages[msg], b.messages[msg]);
  }

  lemma ClaimStable(a: Db, b: Db, c: Claim)
    requires Extends(a, b) && ClaimOk(a, c)
    ensures ClaimOk(b, c)
  {
    ClaimableStable(a, b, c.lease, c.kind, c.msg);
    assert LeaseMoves(a.leases[c.lease], b.leases[c.lease]);
  }

  lemma BindingStable(a: Db, b: Db, row: Binding)
    requires Extends(a, b) && BindingOk(a, row)
    ensures BindingOk(b, row)
  {
    assert LeaseMoves(a.leases[row.lease], b.leases[row.lease]);
    assert IdentityMoves(a.identities[row.identity], b.identities[row.identity]);
    assert MessageMoves(a.messages[row.msg], b.messages[row.msg]);
  }

  /** Moving rows forward without touching the binding and claim tables keeps both sound. */
  lemma EvidenceStable(a: Db, b: Db)
    requires Extends(a, b) && BindingsOk(a) && ClaimsOk(a)
    requires a.bindings == b.bindings && a.claims == b.claims
    ensures BindingsOk(b) && ClaimsOk(b)
  {
    forall i | 0 <= i < |b.bindings| ensures BindingOk(b, b.bindings[i]) { BindingStable(a, b, a.bindings[i]); }
    forall i | 0 <= i < |b.claims| ensures ClaimOk(b, b.claims[i]) { ClaimStable(a, b, a.claims[i]); }
  }

  // ----- Lease timelines -----

  /** In a timeline the lookup meets the identity's last lease, ties included. */
  lemma {:induction false} PreviousIsLast(leases: seq<Lease>, n: nat, identity: nat)
    requires n <= |leases| && Timeline(leases)
    requires forall i :: 0 <= i < n && leases[i].released.Some? ==> leases[i].acquired <= leases[i].released.value
    ensures var p := PreviousLease(leases, n, identity);
            p.Some? ==> forall i :: p.value < i < n ==> leases[i].identity != identity
  {
    if n > 0 {
      PreviousIsLast(leases, n - 1, identity);
    }
  }

  /** Appending a lease that starts where LeaseStart says keeps the timeline, for any
      reading of the clock. */
  lemma StartKeepsTimeline(leases: seq<Lease>, l: Lease, now: Time)
    requires Timeline(leases)
    requires forall i :: 0 <= i < |leases| && leases[i].released.Some? ==> leases[i].acquired <= leases[i].released.value
    requires forall i :: 0 <= i < |leases| && leases[i].identity == l.identity ==> leases[i].released.Some?
    requires l.acquired == LeaseStart(leases, l.identity, now)
    ensures Timeline(leases + [l])
  {
    PreviousIsLast(leases, |leases|, l.identity);
    var p := PreviousLease(leases, |leases|, l.identity);
    forall i | 0 <= i < |leases| && leases[i].identity == l.identity
      ensures leases[i].released.value <= l.acquired
    {
      assert i <= p.value;
      if i < p.value { assert leases[i].released.value <= leases[p.value].acquired; }
    }
  }

  /** At most one lease owns an identity at an instant, so LIMIT 1 never has to choose. */
  lemma OneOwner(leases: seq<Lease>, i: nat, j: nat, at: Time)
    requires Timeline(leases) && i < |leases| && j < |leases|
    requires leases[i].identity == leases[j].identity
    requires OwnsAt(leases[i], at) && OwnsAt(leases[j], at)
    ensures i == j
  {
  }

  /** The same for addresses, under any spelling the collation equates. */
  lemma OneOwnerOfAddress(db: Db, i: nat, j: nat, a: string, b: string, at: Time)
    requires Timeline(db.leases) && AddressesUnique(db.identities) && SameAddress(a, b)
    requires OwnsAddress(db, i, a, at) && OwnsAddress(db, j, b, at)
    ensures i == j
  {
    assert SameAddress(db.identities[db.leases[i].identity].addr, db.identities[db.leases[j].identity].addr);
    OneOwner(db.leases, i, j, at);
  }

  /** Any choice among the rows with the latest acquire keeps the timeline if and only if
      the start it gives is not before the last release: the tie-break matters. */
  lemma TieBreak(leases: seq<Lease>, chosen: nat, l: Lease, now: Time)
    requires Timeline(leases) && chosen < |leases| && leases[chosen].identity == l.identity
    requires forall i :: 0 <= i < |leases| && leases[i].released.Some? ==> leases[i].acquired <= leases[i].released.value
    requires forall i :: 0 <= i < |leases| && leases[i].identity == l.identity ==>
               leases[i].released.Some? && leases[i].acquired <= leases[chosen].acquired
    requires l.acquired == Max(leases[chosen].released.value, now)
    ensures Timeline(leases + [l]) <==> LastRelease(leases, l.identity) <= l.acquired
  {
    PreviousIsLast(leases, |leases|, l.identity);
    var p := PreviousLease(leases, |leases|, l.identity).value;
    assert (leases + [l])[p] == leases[p] && (leases + [l])[|leases|] == l;
    if LastRelease(leases, l.identity) <= l.acquired {
      forall i | 0 <= i < |leases| && leases[i].identity == l.identity
        ensures leases[i].released.value <= l.acquired
      {
        if i < p { assert leases[i].released.value <= leases[p].acquired; }
      }
    }
  }

  function LastRelease(leases: seq<Lease>, identity: nat): Time
    requires PreviousLease(leases, |leases|, identity).Some?
    requires leases[PreviousLease(leases, |leases|, identity).value].released.Some?
  {
    leases[PreviousLease(leases, |leases|, identity).value].released.value
  }
}
