/** Whole runs of the protocol: what one action may change, what every later state keeps,
    and where each row came from. */
module Histories {
  import opened Base
  import opened Clock
  import opened Tables
  import opened Invariants
  import opened Candidates
  import opened Lifecycle
  import opened Correlation
  import opened Protocol
  import opened ProtocolProofs

  // ----- Runs compose -----

  lemma {:induction false} ExecuteAppend(s: State, front: seq<Action>, back: seq<Action>)
    ensures Execute(s, front + back) == Execute(Execute(s, front), back)
    decreases |back|
  {
    if back == [] {
      assert front + back == front;
    } else {
      var init, a := back[..|back| - 1], back[|back| - 1];
      assert back == init + [a] && front + back == (front + init) + [a];
      ExecuteAppend(s, front, init);
      ExecuteLast(s, front + init, a, front + back);
      ExecuteLast(Execute(s, front), init, a, back);
    }
  }

  lemma {:induction false} ReachedTtl(s: State, actions: seq<Action>)
    ensures Execute(s, actions).ttl == s.ttl
    decreases |actions|
  {
    if actions != [] { ReachedTtl(s, actions[..|actions| - 1]); }
  }

  lemma {:induction false} ExecuteOk(s: State, actions: seq<Action>)
    requires StateOk(s)
    ensures StateOk(Execute(s, actions))
    decreases |actions|
  {
    if actions != [] {
      ExecuteOk(s, actions[..|actions| - 1]);
      StepOk(Execute(s, actions[..|actions| - 1]), actions[|actions| - 1]);
    }
  }

  // ----- Rows only move forward, in every interleaving -----

  lemma StepExtends(s: State, a: Action)
    requires StateOk(s)
    ensures Extends(s.db, Step(s, a).db)
  {
    ExtendsItself(s.db);
    match a
    case Transact(op) => ApplyKeepsCore(s.db, op);
    case Receive(m) => DeliverKeepsInv(s.db, m);
    case SettleMessage(msg, terminal) => SettleKeepsInv(s.db, msg, terminal);
    case StepCall(i, clock, stop) => if i < |s.calls| { NextTurn(s.db, s.ttl, s.busUp, s.calls[i], clock, stop); }
    case _ =>
  }

  lemma StepKeepsHistory(s: State, a: Action)
    ensures s.published <= Step(s, a).published && s.given <= Step(s, a).given && s.acked <= Step(s, a).acked
  {
  }

  /** Every later state extends an earlier one: rows persist, ended rows and terminal
      states are final, acknowledgements, answers and publications are never taken back. */
  lemma {:induction false} LaterExtends(s: State, actions: seq<Action>)
    requires StateOk(s)
    ensures var t := Execute(s, actions);
            Extends(s.db, t.db) && s.published <= t.published && s.given <= t.given && s.acked <= t.acked
    decreases |actions|
  {
    ExtendsItself(s.db);
    if actions != [] {
      var front, last := actions[..|actions| - 1], actions[|actions| - 1];
      var mid := Execute(s, front);
      ExecuteOk(s, front);
      LaterExtends(s, front);
      StepExtends(mid, last);
      StepKeepsHistory(mid, last);
      ExtendsTransitive(s.db, mid.db, Step(mid, last).db);
    }
  }

  // ----- Where bindings come from -----

  /** The action stored the binding together with its message. */
  ghost predicate BoundIn(db: Db, a: Action, b: Binding) {
    a.Receive? && Inv(db) && Deliver(db, a.m).1.Ok? && b in Deliver(db, a.m).0.bindings && b !in db.bindings
  }

  ghost predicate BoundBy(start: State, actions: seq<Action>, k: nat, b: Binding) {
    k < |actions| && BoundIn(Execute(start, actions[..k]).db, actions[k], b)
  }

  ghost predicate Arrived(start: State, actions: seq<Action>, b: Binding) { exists k: nat :: BoundBy(start, actions, k, b) }

  lemma ArrivedLater(start: State, front: seq<Action>, actions: seq<Action>, b: Binding)
    requires front <= actions && Arrived(start, front, b)
    ensures Arrived(start, actions, b)
  {
    var k: nat :| BoundBy(start, front, k, b);
    assert actions[..k] == front[..k];
    assert actions[k] == front[k];
    assert BoundBy(start, actions, k, b);
  }

  /** An action that stores no message stores no binding either. */
  lemma OldBindings(a: Db, b: Db)
    requires Extends(a, b) && BindingsOk(b) && |b.messages| == |a.messages|
    ensures b.bindings == a.bindings
  {
    if |b.bindings| > |a.bindings| { OldBinding(a, b, |a.bindings|); }
  }

  lemma OldBinding(a: Db, b: Db, i: nat)
    requires Extends(a, b) && BindingsOk(b) && |b.messages| == |a.messages| && i < |b.bindings|
    ensures i < |a.bindings|
  {
    assert BindingOk(b, b.bindings[i]);
  }

  lemma StepMessages(s: State, a: Action)
    requires StateOk(s) && !a.Receive?
    ensures |Step(s, a).db.messages| == |s.db.messages|
  {
    match a
    case Transact(op) => ApplyKeepsCore(s.db, op);
    case StepCall(i, clock, stop) => if i < |s.calls| { NextTurn(s.db, s.ttl, s.busUp, s.calls[i], clock, stop); }
    case _ =>
  }

  lemma StepBindings(s: State, a: Action)
    requires StateOk(s) && !a.Receive?
    ensures Step(s, a).db.bindings == s.db.bindings
  {
    StepOk(s, a);
    StepExtends(s, a);
    StepMessages(s, a);
    OldBindings(s.db, Step(s, a).db);
  }

  lemma NewBindingArrives(s: State, a: Action, b: Binding)
    requires StateOk(s) && b in Step(s, a).db.bindings && b !in s.db.bindings
    ensures BoundIn(s.db, a, b)
  {
    if !a.Receive? { StepBindings(s, a); }
  }

  /** Every binding a run ends with was stored by one of its deliveries. */
  lemma {:induction false} EveryBindingArrived(start: State, actions: seq<Action>, b: Binding)
    requires StateOk(start) && start.db.bindings == [] && b in Execute(start, actions).db.bindings
    ensures Arrived(start, actions, b)
    decreases |actions|
  {
    if actions != [] {
      var n := |actions| - 1;
      ExecuteOk(start, actions[..n]);
      if b in Execute(start, actions[..n]).db.bindings {
        EveryBindingArrived(start, actions[..n], b);
        ArrivedLater(start, actions[..n], actions, b);
      } else {
        NewBindingArrives(Execute(start, actions[..n]), actions[n], b);
        assert BoundBy(start, actions, n, b);
      }
    }
  }

  // ----- What was asked for -----

  /** Some call was started with this lease, non-empty key and kind. */
  predicate Asked(actions: seq<Action>, lease: nat, key: string, kind: Kind) {
    && key != ""
    && (exists k :: 0 <= k < |actions| && actions[k].StartCall?
                    && actions[k].lease == lease && actions[k].key == key && actions[k].kind == kind)
  }

  ghost predicate AllAsked(s: State, actions: seq<Action>) {
    && (forall i :: 0 <= i < |s.calls| ==> Asked(actions, s.calls[i].lease, s.calls[i].key, s.calls[i].kind))
    && (forall i :: 0 <= i < |s.given| ==> Asked(actions, s.given[i].lease, s.given[i].key, s.given[i].kind))
    && (forall i :: 0 <= i < |s.db.claims| ==> Asked(actions, s.db.claims[i].lease, s.db.claims[i].key, s.db.claims[i].kind))
  }

  lemma AskedLater(actions: seq<Action>, a: Action, lease: nat, key: string, kind: Kind)
    requires Asked(actions, lease, key, kind)
    ensures Asked(actions + [a], lease, key, kind)
  {
    var k :| 0 <= k < |actions| && actions[k].StartCall? && actions[k].lease == lease && actions[k].key == key && actions[k].kind == kind;
    assert (actions + [a])[k] == actions[k];
  }

  /** The claim a turn records, if any, carries its own call's lease, key and kind. */
  lemma TurnRecordsOwn(db: Db, ttl: int, busUp: bool, c: Call, clock: Time, stop: bool)
    requires c.lease < |db.leases|
    ensures var t := NextCall(db, ttl, busUp, c, clock, stop);
            && t.call.lease == c.lease && t.call.key == c.key && t.call.kind == c.kind
            && (t.db.claims == db.claims
                || (|t.db.claims| == |db.claims| + 1 && db.claims <= t.db.claims
                    && t.db.claims[|db.claims|].lease == c.lease && t.db.claims[|db.claims|].key == c.key
                    && t.db.claims[|db.claims|].kind == c.kind))
  {
  }

  lemma CallAsked(s: State, actions: seq<Action>, a: Action)
    requires AllAsked(s, actions) && a.StepCall? && a.call < |s.calls| && s.calls[a.call].lease < |s.db.leases|
    ensures AllAsked(Step(s, a), actions)
  {
    TurnRecordsOwn(s.db, s.ttl, s.busUp, s.calls[a.call], a.clock, a.stop);
    TurnAsked(s, Step(s, a), actions, s.calls[a.call], a.call);
  }

  lemma TurnAsked(s: State, t: State, actions: seq<Action>, c: Call, i: nat)
    requires AllAsked(s, actions) && i < |s.calls| && c == s.calls[i] && |t.calls| == |s.calls|
    requires forall k :: 0 <= k < |t.calls| && k != i ==> t.calls[k] == s.calls[k]
    requires t.calls[i].lease == c.lease && t.calls[i].key == c.key && t.calls[i].kind == c.kind
    requires s.given <= t.given && |t.given| <= |s.given| + 1
    requires |t.given| > |s.given| ==> SameRequest(c, t.given[|s.given|].lease, t.given[|s.given|].key, t.given[|s.given|].kind)
    requires s.db.claims <= t.db.claims && |t.db.claims| <= |s.db.claims| + 1
    requires |t.db.claims| > |s.db.claims| ==>
               SameRequest(c, t.db.claims[|s.db.claims|].lease, t.db.claims[|s.db.claims|].key, t.db.claims[|s.db.claims|].kind)
    ensures AllAsked(t, actions)
  {
  }

  predicate SameRequest(c: Call, lease: nat, key: string, kind: Kind) { c.lease == lease && c.key == key && c.kind == kind }

  lemma OtherAsked(s: State, actions: seq<Action>, a: Action)
    requires AllAsked(s, actions) && StateOk(s) && !a.StepCall? && !a.StartCall?
    ensures AllAsked(Step(s, a), actions)
  {
    match a
    case Transact(op) => ApplyKeepsCore(s.db, op);
    case _ =>
  }

  lemma MoreAsked(s: State, actions: seq<Action>, a: Action)
    requires AllAsked(s, actions)
    ensures AllAsked(s, actions + [a])
  {
    forall i | 0 <= i < |s.calls| ensures Asked(actions + [a], s.calls[i].lease, s.calls[i].key, s.calls[i].kind) {
      AskedLater(actions, a, s.calls[i].lease, s.calls[i].key, s.calls[i].kind);
    }
    forall i | 0 <= i < |s.given| ensures Asked(actions + [a], s.given[i].lease, s.given[i].key, s.given[i].kind) {
      AskedLater(actions, a, s.given[i].lease, s.given[i].key, s.given[i].kind);
    }
    forall i | 0 <= i < |s.db.claims| ensures Asked(actions + [a], s.db.claims[i].lease, s.db.claims[i].key, s.db.claims[i].kind) {
      AskedLater(actions, a, s.db.claims[i].lease, s.db.claims[i].key, s.db.claims[i].kind);
    }
  }

  lemma StartAsked(s: State, actions: seq<Action>, a: Action)
    requires AllAsked(s, actions + [a]) && a.StartCall?
    ensures AllAsked(Step(s, a), actions + [a])
  {
    assert (actions + [a])[|actions|] == a;
    assert a.key != "" ==> Asked(actions + [a], a.lease, a.key, a.kind);
  }

  lemma StepAsked(s: State, actions: seq<Action>, a: Action)
    requires AllAsked(s, actions) && StateOk(s)
    ensures AllAsked(Step(s, a), actions + [a])
  {
    MoreAsked(s, actions, a);
    if a.StartCall? {
      StartAsked(s, actions, a);
    } else if a.StepCall? {
      if a.call < |s.calls| {
        assert CallOk(s.db, s.calls[a.call]);
        CallAsked(s, actions + [a], a);
      }
    } else {
      OtherAsked(s, actions + [a], a);
    }
  }

  lemma {:induction false} ExecuteAsked(start: State, actions: seq<Action>)
    requires StateOk(start) && AllAsked(start, [])
    ensures AllAsked(Execute(start, actions), actions)
    decreases |actions|
  {
    if actions != [] {
      var n := |actions| - 1;
      ExecuteOk(start, actions[..n]);
      ExecuteAsked(start, actions[..n]);
      StepAsked(Execute(start, actions[..n]), actions[..n], actions[n]);
      assert actions == actions[..n] + [actions[n]];
    }
  }

  /** Every call, claim and answer carries what some call was started with. */
  lemma ReachableAsked(ttl: int, actions: seq<Action>)
    ensures AllAsked(Execute(Init(ttl), actions), actions)
  {
    ExecuteAsked(Init(ttl), actions);
  }
}
