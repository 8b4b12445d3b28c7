/** Runs and leases over whole histories: every transaction keeps the invariant and only
    moves rows forward, for any clock readings. */
module Lifecycle {
  import opened Base
  import opened Clock
  import opened Tables
  import opened Invariants

  /** The transactions that touch no message and no claim. Each carries its clock readings;
      nothing relates the readings of different transactions. */
  datatype Op =
    | OpCreateRun(ttl: int, now: Time)
    | OpCreateIdentity(addr: string, mode: Mode)
    | OpAcquire(run: nat, identity: nat, ttl: int, now: Time)
    | OpSettleSeed(lease: nat, outcome: SeedState, now: Time)
    | OpRelease(lease: nat, now: Time)
    | OpSetCooldown(identity: nat, until: Time)
    | OpEndRun(run: nat, state: RunState, now: Time)
    | OpExpireRuns(now: Time, stamps: seq<Time>)
    | OpExpireLeases(at: Time, now: Time)

  function ExpireRuns(db: Db, now: Time, stamps: seq<Time>): Db {
    var ids := Overdue(db.runs, now);
    if |stamps| == |ids| then EndRuns(db, ids, stamps) else db
  }

  function Apply(db: Db, op: Op): Db {
    match op
    case OpCreateRun(ttl, now) => CreateRun(db, ttl, now).0
    case OpCreateIdentity(addr, mode) => CreateIdentity(db, addr, mode).0
    case OpAcquire(run, identity, ttl, now) => AcquireLease(db, run, identity, ttl, now).0
    case OpSettleSeed(lease, outcome, now) => SettleSeed(db, lease, outcome, now).0
    case OpRelease(lease, now) => ReleaseLease(db, lease, now).0
    case OpSetCooldown(identity, until) => SetCooldown(db, identity, until)
    case OpEndRun(run, state, now) => EndRun(db, run, state, now).0
    case OpExpireRuns(now, stamps) => ExpireRuns(db, now, stamps)
    case OpExpireLeases(at, now) => ExpireLeases(db, at, now)
  }

  function ApplyAll(db: Db, ops: seq<Op>): Db {
    if ops == [] then db else Apply(ApplyAll(db, ops[..|ops| - 1]), ops[|ops| - 1])
  }

  /** The invariant without the evidence tables, which these transactions do not write. */
  ghost predicate CoreInv(db: Db) {
    LeasesOk(db) && Timeline(db.leases) && RunsOk(db.runs) && AddressesUnique(db.identities)
  }

  ghost predicate KeepsCore(a: Db, b: Db) {
    CoreInv(b) && Extends(a, b) && b.messages == a.messages && b.bindings == a.bindings && b.claims == a.claims
  }

  lemma CreateRunKeeps(db: Db, ttl: int, now: Time)
    requires CoreInv(db)
    ensures KeepsCore(db, CreateRun(db, ttl, now).0)
  {
  }

  lemma CreateIdentityKeeps(db: Db, addr: string, mode: Mode)
    requires CoreInv(db)
    ensures KeepsCore(db, CreateIdentity(db, addr, mode).0)
  {
    var b := CreateIdentity(db, addr, mode).0;
    if b != db {
      forall i | 0 <= i < |b.leases| ensures LeaseOk(b, b.leases[i]) { assert LeaseOk(db, db.leases[i]); }
    }
  }

  lemma AcquireKeeps(db: Db, run: nat, identity: nat, ttl: int, now: Time)
    requires CoreInv(db)
    ensures KeepsCore(db, AcquireLease(db, run, identity, ttl, now).0)
  {
    var b := AcquireLease(db, run, identity, ttl, now).0;
    if b != db {
      var l := b.leases[|db.leases|];
      forall i | 0 <= i < |db.leases|
        ensures db.leases[i].released.Some? ==> db.leases[i].acquired <= db.leases[i].released.value
        ensures db.leases[i].identity == identity ==> db.leases[i].released.Some?
      {
        assert LeaseOk(db, db.leases[i]);
      }
      StartKeepsTimeline(db.leases, l, now);
    }
  }

  /** Leases that move forward row by row stay a timeline: an ended lease does not change,
      and no lease changes where it began. */
  lemma MovingKeepsTimeline(a: seq<Lease>, b: seq<Lease>)
    requires Timeline(a) && |a| == |b|
    requires forall i :: 0 <= i < |a| ==> LeaseMoves(a[i], b[i]) && (a[i].state.Held? <==> a[i].released.None?)
    ensures Timeline(b)
  {
    forall i, j | 0 <= i < j < |b| && b[i].identity == b[j].identity
      ensures b[i].released.Some? && b[i].released.value <= b[j].acquired
    {
      assert LeaseMoves(a[i], b[i]) && LeaseMoves(a[j], b[j]);
    }
  }

  lemma MovingKeepsCore(a: Db, b: Db)
    requires CoreInv(a) && a.identities == b.identities && a.messages == b.messages
    requires a.bindings == b.bindings && a.claims == b.claims && |a.leases| == |b.leases| && |a.runs| == |b.runs|
    requires RunsOk(b.runs) && LeasesOk(b)
    requires forall i :: 0 <= i < |a.runs| ==> RunMoves(a.runs[i], b.runs[i])
    requires forall i :: 0 <= i < |a.leases| ==> LeaseMoves(a.leases[i], b.leases[i])
    ensures KeepsCore(a, b)
  {
    forall i | 0 <= i < |a.leases| ensures a.leases[i].state.Held? <==> a.leases[i].released.None? {
      assert LeaseOk(a, a.leases[i]);
    }
    MovingKeepsTimeline(a.leases, b.leases);
  }

  lemma SettleSeedKeeps(db: Db, lease: nat, outcome: SeedState, now: Time)
    requires CoreInv(db)
    ensures KeepsCore(db, SettleSeed(db, lease, outcome, now).0)
  {
    var b := SettleSeed(db, lease, outcome, now).0;
    assert forall i :: 0 <= i < |db.leases| ==> LeaseOk(db, db.leases[i]);
    MovingKeepsCore(db, b);
  }

  lemma ReleaseKeeps(db: Db, lease: nat, now: Time)
    requires CoreInv(db)
    ensures KeepsCore(db, ReleaseLease(db, lease, now).0)
  {
    var b := ReleaseLease(db, lease, now).0;
    assert forall i :: 0 <= i < |db.leases| ==> LeaseOk(db, db.leases[i]);
    MovingKeepsCore(db, b);
  }

  lemma SetCooldownKeeps(db: Db, identity: nat, until: Time)
    requires CoreInv(db)
    ensures KeepsCore(db, SetCooldown(db, identity, until))
  {
    var b := SetCooldown(db, identity, until);
    forall i | 0 <= i < |b.leases| ensures LeaseOk(b, b.leases[i]) { assert LeaseOk(db, db.leases[i]); }
  }

  /** Ending a run takes its leases along in the same transaction. */
  lemma EndRunKeeps(db: Db, run: nat, state: RunState, now: Time)
    requires CoreInv(db)
    ensures KeepsCore(db, EndRun(db, run, state, now).0)
  {
    var b := EndRun(db, run, state, now).0;
    if b != db {
      forall i | 0 <= i < |b.leases| ensures LeaseOk(b, b.leases[i]) && LeaseMoves(db.leases[i], b.leases[i]) {
        assert LeaseOk(db, db.leases[i]);
      }
      MovingKeepsCore(db, b);
    }
  }

  lemma ExpireLeasesKeeps(db: Db, at: Time, now: Time)
    requires CoreInv(db)
    ensures KeepsCore(db, ExpireLeases(db, at, now))
  {
    var b := ExpireLeases(db, at, now);
    forall i | 0 <= i < |b.leases| ensures LeaseOk(b, b.leases[i]) && LeaseMoves(db.leases[i], b.leases[i]) {
      assert LeaseOk(db, db.leases[i]);
    }
    MovingKeepsCore(db, b);
  }

  lemma {:induction false} EndRunsKeeps(db: Db, ids: seq<nat>, stamps: seq<Time>)
    requires CoreInv(db) && |ids| == |stamps|
    ensures KeepsCore(db, EndRuns(db, ids, stamps))
    decreases |ids|
  {
    if ids != [] {
      var n := |ids| - 1;
      EndRunsKeeps(db, ids[..n], stamps[..n]);
      var mid := EndRuns(db, ids[..n], stamps[..n]);
      EndRunKeeps(mid, ids[n], RunExpired, stamps[n]);
      ExtendsTransitive(db, mid, EndRuns(db, ids, stamps));
    }
  }

  lemma ApplyKeepsCore(db: Db, op: Op)
    requires CoreInv(db)
    ensures KeepsCore(db, Apply(db, op))
  {
    match op
    case OpCreateRun(ttl, now) => CreateRunKeeps(db, ttl, now);
    case OpCreateIdentity(addr, mode) => CreateIdentityKeeps(db, addr, mode);
    case OpAcquire(run, identity, ttl, now) => AcquireKeeps(db, run, identity, ttl, now);
    case OpSettleSeed(lease, outcome, now) => SettleSeedKeeps(db, lease, outcome, now);
    case OpRelease(lease, now) => ReleaseKeeps(db, lease, now);
    case OpSetCooldown(identity, until) => SetCooldownKeeps(db, identity, until);
    case OpEndRun(run, state, now) => EndRunKeeps(db, run, state, now);
    case OpExpireRuns(now, stamps) =>
      if |stamps| == |Overdue(db.runs, now)| { EndRunsKeeps(db, Overdue(db.runs, now), stamps); }
    case OpExpireLeases(at, now) => ExpireLeasesKeeps(db, at, now);
  }

  /** Every transaction keeps the whole invariant and only moves rows forward. */
  lemma ApplyKeepsInv(db: Db, op: Op)
    requires Inv(db)
    ensures Inv(Apply(db, op)) && Extends(db, Apply(db, op))
  {
    ApplyKeepsCore(db, op);
    EvidenceStable(db, Apply(db, op));
  }

  /** In every reachable state lease intervals of one identity are ordered and disjoint, a
      lease is held exactly while it has no release, and a held lease's run is active. */
  lemma {:induction false} Reachable(ops: seq<Op>)
    ensures CoreInv(ApplyAll(EMPTY, ops))
    decreases |ops|
  {
    if ops != [] {
      Reachable(ops[..|ops| - 1]);
      ApplyKeepsCore(ApplyAll(EMPTY, ops[..|ops| - 1]), ops[|ops| - 1]);
    }
  }

  // ----- The sweep -----

  ghost predicate NoOverdueRun(runs: seq<Run>, now: Time) {
    forall i :: 0 <= i < |runs| ==> !(runs[i].state.Active? && runs[i].expires <= now)
  }

  lemma {:induction false} OverdueMeaning(runs: seq<Run>, now: Time)
    ensures forall i :: i in Overdue(runs, now) <==> 0 <= i < |runs| && runs[i].state.Active? && runs[i].expires <= now
    ensures forall i, j :: 0 <= i < j < |Overdue(runs, now)| ==> Overdue(runs, now)[i] < Overdue(runs, now)[j]
  {
    if runs != [] {
      var n := |runs| - 1;
      OverdueMeaning(runs[..n], now);
      assert forall i :: 0 <= i < n ==> runs[..n][i] == runs[i];
      assert forall k :: 0 <= k < |Overdue(runs[..n], now)| ==> Overdue(runs[..n], now)[k] in Overdue(runs[..n], now);
    }
  }

  /** Ending a list of distinct active runs ends exactly those, each without an error. */
  lemma {:induction false} EndRunsMeaning(db: Db, ids: seq<nat>, stamps: seq<Time>)
    requires |ids| == |stamps|
    requires forall k :: 0 <= k < |ids| ==> ids[k] < |db.runs| && db.runs[ids[k]].state.Active?
    requires forall i, j :: 0 <= i < j < |ids| ==> ids[i] != ids[j]
    ensures |EndRuns(db, ids, stamps).runs| == |db.runs|
    ensures forall i :: 0 <= i < |db.runs| ==>
              if i in ids then EndRuns(db, ids, stamps).runs[i].state.RunExpired?
              else EndRuns(db, ids, stamps).runs[i] == db.runs[i]
    decreases |ids|
  {
    if ids != [] {
      var n := |ids| - 1;
      EndRunsMeaning(db, ids[..n], stamps[..n]);
      assert ids == ids[..n] + [ids[n]];
      assert ids[n] !in ids[..n];
    }
  }

  lemma ExpireRunsMeaning(db: Db, now: Time, stamps: seq<Time>)
    requires CoreInv(db) && |stamps| == |Overdue(db.runs, now)|
    ensures NoOverdueRun(ExpireRuns(db, now, stamps).runs, now)
    ensures KeepsCore(db, ExpireRuns(db, now, stamps))
  {
    var ids := Overdue(db.runs, now);
    OverdueMeaning(db.runs, now);
    assert forall k :: 0 <= k < |ids| ==> ids[k] in ids;
    EndRunsMeaning(db, ids, stamps);
    EndRunsKeeps(db, ids, stamps);
  }

  /** Nothing still counts as live past its expiry at the stamp its half filtered with. */
  ghost predicate SweptClean(db: Db, runsAt: Time, leasesAt: Time) {
    && NoOverdueRun(db.runs, runsAt)
    && (forall i :: 0 <= i < |db.leases| && db.leases[i].state.Held? ==>
          && db.leases[i].expires > leasesAt
          && db.leases[i].run < |db.runs| && db.runs[db.leases[i].run].expires > runsAt)
  }

  /** A sweep leaves no active run and no held lease past its expiry, and no lease held
      under a run that is. */
  lemma SweepLeavesNothingOverdue(db: Db, now: Time, stamps: seq<Time>, at: Time, later: Time)
    requires CoreInv(db) && |stamps| == |Overdue(db.runs, now)|
    ensures SweptClean(ExpireLeases(ExpireRuns(db, now, stamps), at, later), now, later)
  {
    ExpireRunsMeaning(db, now, stamps);
    var mid := ExpireRuns(db, now, stamps);
    ExpireLeasesKeeps(mid, at, later);
    var swept := ExpireLeases(mid, at, later);
    forall i | 0 <= i < |swept.leases| && swept.leases[i].state.Held?
      ensures swept.leases[i].expires > later && swept.leases[i].run < |swept.runs|
      ensures swept.runs[swept.leases[i].run].expires > now
    {
      assert LeaseOk(swept, swept.leases[i]);
    }
  }

  // ----- Ties -----

  lemma ApplyLast(db: Db, front: seq<Op>, op: Op, all: seq<Op>)
    requires all == front + [op]
    ensures ApplyAll(db, all) == Apply(ApplyAll(db, front), op)
  {
    assert all[..|all| - 1] == front && all[|all| - 1] == op;
  }

  /** An identity is leased at 10, released with the clock at 5, and leased again at 7. */
  function FirstLease(): seq<Op> { [OpCreateRun(1000, 1), OpCreateIdentity("a@x", Pooled), OpAcquire(0, 0, 100, 10)] }

  function SecondLease(): seq<Op> { FirstLease() + [OpRelease(0, 5)] + [OpAcquire(0, 0, 100, 7)] }

  function TieLease(state: LeaseState, released: Option<Time>): Lease { Lease(0, 0, state, SeedPending, 10, 110, released, false) }

  lemma FirstLeaseState()
    ensures var db := ApplyAll(EMPTY, FirstLease());
            && db.runs == [Run(Active, 1, 1001, None)] && db.identities == [Identity("a@x", Pooled, None)]
            && db.leases == [TieLease(Held, None)]
  {
    var ops := FirstLease();
    ApplyLast(EMPTY, [], ops[0], [ops[0]]);
    ApplyLast(EMPTY, [ops[0]], ops[1], [ops[0], ops[1]]);
    ApplyLast(EMPTY, [ops[0], ops[1]], ops[2], ops);
  }

  lemma Releases(db: Db, lease: nat, now: Time)
    requires lease < |db.leases| && db.leases[lease] == TieLease(Held, None)
    ensures Apply(db, OpRelease(lease, now)) == db.(leases := db.leases[lease := TieLease(Released, Some(Max(now, 10)))])
  {
  }

  lemma AcquiresAgain(db: Db)
    requires db.runs == [Run(Active, 1, 1001, None)] && db.identities == [Identity("a@x", Pooled, None)]
    requires db.leases == [TieLease(Released, Some(10))]
    ensures Apply(db, OpAcquire(0, 0, 100, 7)) == db.(leases := [TieLease(Released, Some(10)), TieLease(Held, None)])
  {
    assert PreviousLease(db.leases, 1, 0) == Some(0);
  }

  lemma SecondLeaseState()
    ensures ApplyAll(EMPTY, SecondLease()).leases == [TieLease(Released, Some(10)), TieLease(Held, None)]
  {
    FirstLeaseState();
    var db := ApplyAll(EMPTY, FirstLease());
    Releases(db, 0, 5);
    AcquiresAgain(Apply(db, OpRelease(0, 5)));
    ApplyLast(EMPTY, FirstLease(), OpRelease(0, 5), FirstLease() + [OpRelease(0, 5)]);
    ApplyLast(EMPTY, FirstLease() + [OpRelease(0, 5)], OpAcquire(0, 0, 100, 7), SecondLease());
  }

  ghost predicate HasTie(leases: seq<Lease>) {
    exists i, j :: 0 <= i < j < |leases| && leases[i].identity == leases[j].identity && leases[i].acquired == leases[j].acquired
  }

  /** Two backward clock steps make two leases of an identity begin at one instant. */
  lemma TiesHappen()
    ensures exists ops: seq<Op> :: HasTie(ApplyAll(EMPTY, ops).leases)
  {
    SecondLeaseState();
    var leases := ApplyAll(EMPTY, SecondLease()).leases;
    assert leases[0].acquired == leases[1].acquired;
    assert HasTie(leases);
  }

  /** Reading back row i, one of the latest acquires, for the previous lease. */
  ghost predicate WrongTieBreak(leases: seq<Lease>, i: nat, l: Lease, now: Time) {
    && i < |leases| && leases[i].identity == l.identity && leases[i].released.Some?
    && (forall j :: 0 <= j < |leases| && leases[j].identity == l.identity ==>
          leases[j].released.Some? && leases[j].acquired <= leases[i].acquired)
    && l.acquired == Max(leases[i].released.value, now) && !Timeline(leases + [l])
  }

  /** In a reachable state with such a tie, reading the other row back would grant a lease
      inside the interval of a lease that has already ended. */
  lemma OtherTieBreakOverlaps()
    ensures exists ops: seq<Op>, i: nat, l: Lease, now: Time :: WrongTieBreak(ApplyAll(EMPTY, ops).leases, i, l, now)
  {
    SecondLeaseState();
    var ops := SecondLease() + [OpRelease(1, 20)];
    ApplyLast(EMPTY, SecondLease(), OpRelease(1, 20), ops);
    Releases(ApplyAll(EMPTY, SecondLease()), 1, 20);
    var leases := ApplyAll(EMPTY, ops).leases;
    assert leases == [TieLease(Released, Some(10)), TieLease(Released, Some(20))];
    var third := Lease(0, 0, Held, SeedPending, 12, 112, None, false);
    assert (leases + [third])[1] == leases[1] && (leases + [third])[2] == third;
    assert WrongTieBreak(leases, 0, third, 12);
  }
}
