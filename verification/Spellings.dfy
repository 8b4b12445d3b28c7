/** Exactly which spellings of addresses keep every waiting claim awake, and what else two
    spellings of one address do. */
module Spellings {
  import opened Base
  import opened Clock
  import opened Tables
  import opened Invariants
  import opened Candidates
  import opened Lifecycle
  import opened Correlation
  import opened Protocol
  import opened ProtocolProofs
  import opened Histories
  import opened Guarantees
  import opened Wakeups
  import opened Fleets

  // ----- One address, two spellings -----

  /** Identities are minted and mail is addressed in these spellings only. */
  predicate Spells(a: Action, spellings: iset<string>) {
    && (a.Transact? && a.op.OpCreateIdentity? ==> a.op.addr in spellings)
    && (a.Receive? ==> forall e :: e in a.m.envelope ==> e in spellings)
  }

  predicate SpellsAll(actions: seq<Action>, spellings: iset<string>) {
    forall i :: 0 <= i < |actions| ==> Spells(actions[i], spellings)
  }

  ghost predicate Unambiguous(spellings: iset<string>) {
    forall a, b :: a in spellings && b in spellings && SameAddress(a, b) ==> a == b
  }

  /** A claim asleep without a hint although it could take a message that is settled and no
      longer on its way to the bus. */
  ghost predicate Overslept(s: State, i: nat, m: nat) {
    Asleep(s, i) && Takeable(s.db, s.calls[i].lease, s.calls[i].kind, m) && !Flight(s, m)
  }

  ghost predicate AlwaysWoken(ttl: int, spellings: iset<string>) {
    forall actions: seq<Action>, i: nat, m: nat :: SpellsAll(actions, spellings) ==> !Overslept(Reached(ttl, actions), i, m)
  }

  /** The tables hold addresses in these spellings only. */
  predicate Addressed(db: Db, spellings: iset<string>) {
    && (forall i :: 0 <= i < |db.identities| ==> db.identities[i].addr in spellings)
    && (forall i :: 0 <= i < |db.messages| ==> forall e :: e in db.messages[i].envelope ==> e in spellings)
  }

  lemma {:induction false} EndRunsIdentities(db: Db, ids: seq<nat>, stamps: seq<Time>)
    requires |ids| == |stamps|
    ensures EndRuns(db, ids, stamps).identities == db.identities
    decreases |ids|
  {
    if ids != [] { EndRunsIdentities(db, ids[..|ids| - 1], stamps[..|ids| - 1]); }
  }

  /** A transaction adds no address but the one it mints. */
  lemma ApplyAddresses(db: Db, op: Op, spellings: iset<string>)
    requires CoreInv(db) && Addressed(db, spellings) && (op.OpCreateIdentity? ==> op.addr in spellings)
    ensures Addressed(Apply(db, op), spellings)
  {
    ApplyKeepsCore(db, op);
    if op.OpExpireRuns? && |op.stamps| == |Overdue(db.runs, op.now)| { EndRunsIdentities(db, Overdue(db.runs, op.now), op.stamps); }
  }

  lemma TurnIdentities(db: Db, ttl: int, busUp: bool, c: Call, clock: Time, stop: bool)
    requires c.lease < |db.leases|
    ensures var t := NextCall(db, ttl, busUp, c, clock, stop); t.db.identities == db.identities && t.db.messages == db.messages
  {
  }

  lemma StepAddresses(s: State, a: Action, spellings: iset<string>)
    requires StateOk(s) && Addressed(s.db, spellings) && Spells(a, spellings)
    ensures Addressed(Step(s, a).db, spellings)
  {
    match a
    case Transact(op) => ApplyAddresses(s.db, op, spellings);
    case StepCall(i, clock, stop) =>
      if i < |s.calls| {
        assert CallOk(s.db, s.calls[i]);
        TurnIdentities(s.db, s.ttl, s.busUp, s.calls[i], clock, stop);
      }
    case _ =>
  }

  lemma ReachedStep(ttl: int, front: seq<Action>, a: Action, actions: seq<Action>, spellings: iset<string>)
    requires actions == front + [a] && Addressed(Reached(ttl, front).db, spellings) && Spells(a, spellings)
    ensures Addressed(Reached(ttl, actions).db, spellings)
  {
    ReachableOk(ttl, front);
    StepAddresses(Reached(ttl, front), a, spellings);
    ExecuteLast(Init(ttl), front, a, actions);
  }

  lemma {:induction false} ReachedAddresses(ttl: int, actions: seq<Action>, spellings: iset<string>)
    requires SpellsAll(actions, spellings)
    ensures Addressed(Reached(ttl, actions).db, spellings)
  {
    if actions != [] {
      var n := |actions| - 1;
      ReachedAddresses(ttl, actions[..n], spellings);
      ReachedStep(ttl, actions[..n], actions[n], actions, spellings);
    }
  }

  /** With unambiguous spellings a bound message names its lease's address literally. */
  lemma BoundMatches(db: Db, spellings: iset<string>, lease: nat, kind: Kind, m: nat)
    requires Inv(db) && Addressed(db, spellings) && Unambiguous(spellings) && Claimable(db, lease, kind, m)
    ensures Matches(db, lease, m)
  {
    var i :| 0 <= i < |db.bindings| && db.bindings[i].msg == m && db.bindings[i].lease == lease && db.bindings[i].suspect.Clean?;
    assert BindingOk(db, db.bindings[i]);
    assert SameAddress(db.identities[db.bindings[i].identity].addr, db.bindings[i].addr);
  }

  lemma NeverOversleeps(ttl: int, actions: seq<Action>, spellings: iset<string>, i: nat, m: nat)
    requires Unambiguous(spellings) && SpellsAll(actions, spellings)
    ensures !Overslept(Reached(ttl, actions), i, m)
  {
    var s := Reached(ttl, actions);
    if Asleep(s, i) && Takeable(s.db, s.calls[i].lease, s.calls[i].kind, m) {
      ReachableOk(ttl, actions);
      ReachedAddresses(ttl, actions, spellings);
      BoundMatches(s.db, spellings, s.calls[i].lease, s.calls[i].kind, m);
      NoLostWakeup(ttl, actions, i, m);
    }
  }

  // ----- The run that oversleeps -----

  function Wait(addr: string, kind: Kind, key: string): seq<Action> { OpenFleet([addr]) + Calls(0, 0, kind, key, true) + Turns(0, 2) }

  function Sleeper(kind: Kind, key: string, view: Db): Call { Call(0, kind, key, true, Parked, Slot(false), view) }

  /** A waiting call on a lease without mail goes to sleep. */
  lemma Waits(ttl: int, addr: string, kind: Kind, key: string)
    requires key != "" && addr != ""
    ensures var s := Reached(ttl, Wait(addr, kind, key));
            && Fleet(s.db, [addr]) && NoMail(s.db)
            && s == State(s.db, ttl, [Sleeper(kind, key, s.db)], [], {}, [], [], {}, true, [])
  {
    var init := Init(ttl);
    Opened(ttl, [addr]);
    var s1 := Execute(init, OpenFleet([addr]));
    CallReads(s1, [addr], 0, kind, key, true);
    ExecuteAppend(init, OpenFleet([addr]), Calls(0, 0, kind, key, true));
    ExecuteAppend(init, OpenFleet([addr]) + Calls(0, 0, kind, key, true), Turns(0, 2));
    Parks(s1, addr, kind, key);
  }

  lemma Parks(s: State, addr: string, kind: Kind, key: string)
    requires Fleet(s.db, [addr]) && NoMail(s.db) && s.calls == [] && s.busUp
    ensures Execute(Ready(s, Call(0, kind, key, true, Querying(false), Slot(false), s.db)), Turns(0, 2))
            == s.(calls := [Sleeper(kind, key, s.db)])
  {
    var out := ReadLease(s.db, 0, kind, Some(Lower(s.db, 0))).out;
    assert out == [] && Offers(s.db, out, kind) == [];
    var c := Call(0, kind, key, true, Querying(false), Slot(false), s.db);
    OneTurn(s, c, c.(pc := Taking([], false)));
    OneTurn(s, c.(pc := Taking([], false)), Sleeper(kind, key, s.db));
    TurnsFirst(Ready(s, c), 0, 1);
    TurnsFirst(Ready(s, c.(pc := Taking([], false))), 0, 0);
    NoTurns(Ready(s, Sleeper(kind, key, s.db)), 0);
  }

  function Announce(addr: string, spelt: string, kind: Kind, key: string): seq<Action> {
    Wait(addr, kind, key) + Arrive([spelt], SECRETS) + [Publish(0), Dispatch]
  }

  lemma Announces(ttl: int, addr: string, spelt: string, kind: Kind, key: string)
    requires key != "" && addr != "" && spelt != addr && SameAddress(addr, spelt)
    ensures Overslept(Reached(ttl, Announce(addr, spelt, kind, key)), 0, 0)
  {
    var init := Init(ttl);
    Waits(ttl, addr, kind, key);
    var s1 := Execute(init, Wait(addr, kind, key));
    ExecuteAppend(init, Wait(addr, kind, key), Arrive([spelt], SECRETS));
    Arrives(s1, [addr], [spelt], SECRETS);
    var s2 := Execute(s1, Arrive([spelt], SECRETS));
    ExecuteAppend(init, Wait(addr, kind, key) + Arrive([spelt], SECRETS), [Publish(0), Dispatch]);
    Announced(s2, Sleeper(kind, key, s1.db), addr, spelt);
  }

  lemma Announced(s: State, c: Call, addr: string, spelt: string)
    requires Fleet(s.db, [addr]) && Mailed(s.db, [spelt], SECRETS) && s.db.claims == [] && spelt != addr
    requires s == State(s.db, s.ttl, [c], [], {0}, [], [], {0}, true, [])
    requires c == Sleeper(c.kind, c.key, c.view)
    ensures Overslept(Execute(s, [Publish(0), Dispatch]), 0, 0)
  {
    Two(s, Publish(0), Dispatch);
    PublishDispatch(s, c);
    Unheard(s.db, c, addr, spelt);
  }

  lemma PublishDispatch(s: State, c: Call)
    requires s == State(s.db, s.ttl, [c], [], {0}, [], [], {0}, true, [])
    ensures Step(Step(s, Publish(0)), Dispatch) == State(s.db, s.ttl, [Notify(s.db, c, 0)], [], {}, [], [0], {0}, true, [])
  {
    var mid := Step(s, Publish(0));
    assert mid == State(s.db, s.ttl, [c], [], {}, [0], [0], {0}, true, []);
    assert Step(mid, Dispatch).calls == [Notify(s.db, c, 0)];
  }

  /** The one message can be taken and does not hint the sleeper. */
  lemma Unheard(db: Db, c: Call, addr: string, spelt: string)
    requires Fleet(db, [addr]) && Mailed(db, [spelt], SECRETS) && db.claims == [] && c == Sleeper(c.kind, c.key, c.view)
    requires spelt != addr
    ensures Takeable(db, 0, c.kind, 0) && Notify(db, c, 0) == c
  {
    assert db.leases[0] == Rented(0) && db.bindings[0] == Row([spelt], 0);
    assert db.messages[0].envelope == [spelt];
  }

  lemma {:induction false} OpenSpells(addrs: seq<string>, spellings: iset<string>)
    requires forall i :: 0 <= i < |addrs| ==> addrs[i] in spellings
    ensures SpellsAll(OpenFleet(addrs), spellings)
  {
    if addrs != [] { OpenSpells(addrs[..|addrs| - 1], spellings); }
  }

  lemma SpellsJoined(front: seq<Action>, back: seq<Action>, spellings: iset<string>)
    requires SpellsAll(front, spellings) && SpellsAll(back, spellings)
    ensures SpellsAll(front + back, spellings)
  {
  }

  lemma AnnounceSpells(addr: string, spelt: string, kind: Kind, key: string, spellings: iset<string>)
    requires addr in spellings && spelt in spellings
    ensures SpellsAll(Announce(addr, spelt, kind, key), spellings)
  {
    OpenSpells([addr], spellings);
    SpellsJoined(OpenFleet([addr]), Calls(0, 0, kind, key, true), spellings);
    SpellsJoined(OpenFleet([addr]) + Calls(0, 0, kind, key, true), Turns(0, 2), spellings);
    SpellsJoined(Wait(addr, kind, key), Arrive([spelt], SECRETS), spellings);
    SpellsJoined(Wait(addr, kind, key) + Arrive([spelt], SECRETS), [Publish(0), Dispatch], spellings);
  }

  lemma SameLength(a: string, b: string)
    requires SameAddress(a, b) && a != b
    ensures a != ""
  {
    assert |Fold(a)| == |a| && |Fold(b)| == |b|;
  }

  /** Binding follows the collation of the address columns, waking compares exact text. Over
      all runs no claim oversleeps mail it could take if and only if no two spellings in use
      are one address. */
  lemma AlwaysWokenIff(ttl: int, spellings: iset<string>)
    ensures AlwaysWoken(ttl, spellings) <==> Unambiguous(spellings)
  {
    if Unambiguous(spellings) {
      forall actions: seq<Action>, i: nat, m: nat | SpellsAll(actions, spellings) ensures !Overslept(Reached(ttl, actions), i, m) {
        NeverOversleeps(ttl, actions, spellings, i, m);
      }
    } else {
      var a, b :| a in spellings && b in spellings && SameAddress(a, b) && a != b;
      SameLength(a, b);
      Announces(ttl, a, b, EmailOTP, "k");
      AnnounceSpells(a, b, EmailOTP, "k", spellings);
    }
  }

  // ----- A delivery refused -----

  /** Naming a leased address in two spellings refuses the delivery, in a reachable store. */
  lemma RefusedDelivery(ttl: int, a: string, b: string)
    requires SameAddress(a, b) && a != b
    ensures Deliver(Reached(ttl, OpenFleet([a])).db, Mail([a, b], Pending)).1 == Err(DuplicateBinding)
  {
    SameLength(a, b);
    SameLength(b, a);
    Opened(ttl, [a]);
    ReachableOk(ttl, OpenFleet([a]));
    var db, m := Reached(ttl, OpenFleet([a])).db, Mail([a, b], Pending);
    BindRefusedIff(db, 0, m, 2);
    assert db.leases[0] == Rented(0) && OwnsAddress(db, 0, a, 20);
    assert Clash(db, m, 0, 1);
  }

  /** Two spellings that both are what NormalizeAddress gives: only the local part differs. */
  lemma RefusedExample(ttl: int)
    ensures Deliver(Reached(ttl, OpenFleet(["a@x"])).db, Mail(["a@x", "A@x"], Pending)).1 == Err(DuplicateBinding)
  {
    assert Fold("A@x") == "a@x" == Fold("a@x");
    RefusedDelivery(ttl, "a@x", "A@x");
  }
}
