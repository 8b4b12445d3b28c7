/** The lease service (internal/personas/lease.go): reserving an identity, settling its seed,
    giving it back, and the sweep. */
module Leasing {
  import opened Base
  import opened Clock
  import opened Tables
  import opened Invariants
  import opened Lifecycle
  import opened Rules
  import opened Stores

  datatype Denial = PolicyMissing | NoneAvailable | Refused(why: Refusal)

  predicate Cooling(i: Identity, wall: Time) { i.cooldownUntil.Some? && wall < i.cooldownUntil.value }

  predicate FreeAt(db: Db, identity: nat, wall: Time) {
    identity < |db.identities| && !Cooling(db.identities[identity], wall) && !IsHeld(db.leases, identity)
  }

  ghost predicate FirstFree(db: Db, candidates: seq<nat>, wall: Time, identity: nat) {
    exists k :: 0 <= k < |candidates| && candidates[k] == identity && FreeAt(db, identity, wall)
                && forall j :: 0 <= j < k ==> !FreeAt(db, candidates[j], wall)
  }

  class Service {
    const store: Store
    const pooled: bool
    const leaseTTL: int
    const cooldown: int

    constructor (store: Store, pooled: bool, leaseTTL: int, cooldown: int)
      ensures this.store == store && this.pooled == pooled && this.leaseTTL == leaseTTL && this.cooldown == cooldown
    {
      this.store, this.pooled, this.leaseTTL, this.cooldown := store, pooled, leaseTTL, cooldown;
    }

    /** Mints an identity and leases it, both or neither. */
    method ReserveEphemeral(run: nat, addr: string, created: Time, reading: Time) returns (r: Result<nat, Refusal>)
      modifies store`identities, store`leases, store.clock
      ensures r.Err? ==> store.State() == old(store.State())
      ensures r.Ok? ==>
                var minted := CreateIdentity(old(store.State()), addr, Ephemeral);
                && minted.1.Ok?
                && (store.State(), r) == AcquireLease(minted.0, run, minted.1.value, leaseTTL, store.clock.lastNow)
    {
      var identities := store.identities;
      var minted := store.CreateIdentity(addr, Ephemeral, false, created);
      if minted.Err? { return Err(minted.error); }
      r := store.AcquireLease(run, minted.value, leaseTTL, reading);
      if r.Err? { store.identities := identities; }
    }

    /** Walks the pool in order, skips what is cooling down, and lets the held-lease index
        decide the rest: the first free candidate is leased, and the walk comes back empty
        handed exactly when there is none. A run that is not active stops it at the first
        candidate it tries. */
    method ReservePooled(run: nat, candidates: seq<nat>, wall: Time, readings: nat -> Time) returns (r: Result<(nat, nat), Denial>)
      requires leaseTTL > 0 && forall k :: 0 <= k < |candidates| ==> candidates[k] < |store.identities|
      modifies store`leases, store.clock
      ensures r == Err(PolicyMissing) <==> !pooled
      ensures r == Err(NoneAvailable) <==> pooled && forall k :: 0 <= k < |candidates| ==>
                var until := store.identities[candidates[k]].cooldownUntil;
                (until.Some? && wall < until.value) || (RunsNow(store.State(), run) && Taken(old(store.State()), candidates[k]))
      ensures r.Err? && r.error.Refused? ==> !RunsNow(store.State(), run)
      ensures r.Err? ==> store.State() == old(store.State())
      ensures r.Ok? ==> FirstFree(old(store.State()), candidates, wall, r.value.1)
      ensures r.Ok? ==> (store.State(), Ok(r.value.0)) == AcquireLease(old(store.State()), run, r.value.1, leaseTTL, store.clock.lastNow)
    {
      if !pooled { return Err(PolicyMissing); }
      for k := 0 to |candidates|
        invariant store.State() == old(store.State())
        invariant forall j :: 0 <= j < k ==>
          Cooling(store.identities[candidates[j]], wall) || (RunsNow(store.State(), run) && IsHeld(store.leases, candidates[j]))
      {
        if Cooling(store.identities[candidates[k]], wall) { continue; }
        var lease := store.AcquireLease(run, candidates[k], leaseTTL, readings(k));
        if lease.Ok? { return Ok((lease.value, candidates[k])); }
        if lease.error.IdentityHeld? { continue; }
        return Err(Refused(lease.error));
      }
      return Err(NoneAvailable);
    }

    /** Records what the seeder said. A lease that lost its hold meanwhile is left alone; a
        pooled identity whose seed failed cools down. */
    method Settle(lease: nat, identity: nat, outcome: SeedState, reading: Time, wall: Time)
      requires !outcome.SeedPending? && identity < |store.identities|
      modifies store`leases, store`identities, store.clock
      ensures |store.leases| == |old(store.leases)| && |store.identities| == |old(store.identities)|
      ensures lease < |store.leases| && old(store.leases)[lease].state.Held? ==>
                store.leases[lease].seed == outcome && (store.leases[lease].state.Held? <==> !outcome.SeedFailed?)
      ensures lease < |store.leases| && !old(store.leases)[lease].state.Held? ==> store.leases[lease] == old(store.leases)[lease]
      ensures store.identities[identity].cooldownUntil
              == if lease < |store.leases| && old(store.leases)[lease].state.Held? && outcome.SeedFailed? && old(store.identities)[identity].mode.Pooled?
                 then Some(wall + cooldown) else old(store.identities)[identity].cooldownUntil
      ensures var (db, r) := SettleSeed(old(store.State()), lease, outcome, store.clock.lastNow);
              store.State() == if r.Ok? && outcome.SeedFailed? then SetCooldown(db, identity, wall + cooldown) else db
    {
      var r := store.SettleSeed(lease, outcome, reading);
      if r.Err? { return; }
      if outcome.SeedFailed? && store.identities[identity].mode.Pooled? {
        store.SetCooldown(identity, wall + cooldown);
      }
    }

    /** Gives an identity back, however often it is called, and starts its cooldown. */
    method Release(lease: nat, reading: Time, wall: Time) returns (r: Result<(), Refusal>)
      requires LeasesOk(store.State())
      modifies store`leases, store`identities, store.clock
      ensures r == if lease < |store.leases| then Ok(()) else Err(NotFound)
      ensures r.Ok? ==> !store.leases[lease].state.Held?
      ensures store.State() == if lease >= |old(store.leases)| then old(store.State())
                               else SetCooldown(ReleaseLease(old(store.State()), lease, store.clock.lastNow).0,
                                                old(store.leases)[lease].identity, wall + cooldown)
    {
      if lease >= |store.leases| { return Err(NotFound); }
      assert LeaseOk(store.State(), store.leases[lease]);
      var identity := store.leases[lease].identity;
      var mode := store.identities[identity].mode;
      var released := store.ReleaseLease(lease, reading);
      if mode.Pooled? { store.SetCooldown(identity, wall + cooldown); }
      return Ok(());
    }

    /** After a sweep no active run and no held lease is past its expiry at the stamp its
        half read, and no lease is held under a run that is. */
    method Sweep(wall: nat -> Time) returns (runs: nat, leases: nat, ghost runsAt: Time)
      requires CoreInv(store.State())
      modifies store`runs, store`leases, store.clock
      ensures SweptClean(store.State(), runsAt, store.clock.lastNow) && CoreInv(store.State())
      ensures runs == |Overdue(old(store.runs), runsAt)| && old(store.clock.lastNow) < runsAt < store.clock.lastNow
    {
      ghost var before := store.State();
      ghost var stamps: seq<Time>;
      var now: Time;
      runs, now, stamps := store.ExpireRuns(wall);
      runsAt := now;
      ghost var at := NextStamp(store.clock.lastNow, wall(runs + 1));
      SweepWhole(before, now, stamps, at, NextStamp(at, wall(runs + 2)));
      leases := store.ExpireLeases(wall(runs + 1), wall(runs + 2));
    }
  }

  lemma SweepWhole(db: Db, now: Time, stamps: seq<Time>, at: Time, later: Time)
    requires CoreInv(db) && |stamps| == |Overdue(db.runs, now)|
    ensures SweptClean(ExpireLeases(ExpireRuns(db, now, stamps), at, later), now, later)
    ensures CoreInv(ExpireLeases(ExpireRuns(db, now, stamps), at, later))
  {
    ExpireRunsMeaning(db, now, stamps);
    SweepLeavesNothingOverdue(db, now, stamps, at, later);
    ExpireLeasesKeeps(ExpireRuns(db, now, stamps), at, later);
  }

  /** The walk checks cooldowns against the wall and the lease records them against the
      store clock, which is cut to a millisecond: a lease taken after its cooldown ended is
      still marked as taken inside it exactly when the millisecond the reading falls in began
      before the cooldown ended and nothing pushed the stamp past that. */
  lemma CooledYetMarked(db: Db, run: nat, identity: nat, ttl: int, last: Time, reading: Time, until: Time)
    requires Inv(db) && AcquireLease(db, run, identity, ttl, NextStamp(last, reading)).1.Ok?
    requires db.identities[identity].cooldownUntil == Some(until) && until <= reading
    ensures var l := AcquireLease(db, run, identity, ttl, NextStamp(last, reading)).0.leases[|db.leases|];
            && (l.inCooldown <==> Truncate(reading, MILLISECOND) < until && last + 1 < until && LeaseStart(db.leases, identity, last) < until)
            && (l.inCooldown ==> reading - until < MILLISECOND)
  {
  }
}
