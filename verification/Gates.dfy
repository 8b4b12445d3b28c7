/** The gate of a claim (internal/personas/claim.go): every call passes it once, before it
    replays, reads or waits, so an answer proves what its own call saw then and no more. */
module Gates {
  import opened Base
  import opened Clock
  import opened Tables
  import opened Invariants
  import opened Candidates
  import opened Lifecycle
  import opened Protocol
  import opened ProtocolProofs
  import opened Histories
  import opened Guarantees
  import opened Wakeups
  import opened Fleets

  // ----- The path of one call -----

  /** The state before action k. */
  ghost function At(ttl: int, actions: seq<Action>, k: nat): State
    requires k <= |actions|
  {
    Reached(ttl, actions[..k])
  }

  /** Action k is a turn of call n. */
  ghost predicate TurnOf(ttl: int, actions: seq<Action>, n: nat, k: nat) {
    k < |actions| && actions[k].StepCall? && actions[k].call == n && n < |At(ttl, actions, k).calls|
  }

  /** Action a starts the call that has number n until action upto: no crash comes between. */
  ghost predicate StartsAt(ttl: int, actions: seq<Action>, upto: nat, n: nat, c: Call, a: nat) {
    && a < upto <= |actions| && actions[a] == StartCall(c.lease, c.kind, c.key, c.waits)
    && |At(ttl, actions, a).calls| == n && n < |At(ttl, actions, a + 1).calls|
    && (forall k :: a <= k < upto ==> !actions[k].Crash?)
  }

  /** In turn j the call reads its lease and finds this row. */
  ghost predicate ReadsAt(ttl: int, actions: seq<Action>, n: nat, c: Call, row: Lease, j: nat) {
    && TurnOf(ttl, actions, n, j)
    && var s := At(ttl, actions, j);
       s.calls[n].pc.Begin? && c.lease < |s.db.leases| && row == s.db.leases[c.lease]
  }

  /** The run is active and the lease was read as held with its seed seeded or skipped. */
  predicate GateOpens(db: Db, row: Lease) {
    row.run < |db.runs| && db.runs[row.run].state.Active? && row.state.Held? && row.seed in {Seeded, Skipped}
  }

  /** In turn k the gate opens on that row and on the run as it is then. */
  ghost predicate OpensAt(ttl: int, actions: seq<Action>, n: nat, row: Lease, k: nat) {
    && TurnOf(ttl, actions, n, k)
    && At(ttl, actions, k).calls[n].pc == HaveLease(row) && GateOpens(At(ttl, actions, k).db, row)
  }

  /** Where a call started, read its lease, passed the gate, and answered. */
  datatype Path = Path(call: nat, start: nat, read: nat, gate: nat, answered: nat, row: Lease)

  ghost predicate Passed(ttl: int, actions: seq<Action>, upto: nat, c: Call, p: Path) {
    && StartsAt(ttl, actions, upto, p.call, c, p.start)
    && p.start < p.read < p.gate < upto
    && ReadsAt(ttl, actions, p.call, c, p.row, p.read) && OpensAt(ttl, actions, p.call, p.row, p.gate)
  }

  /** In turn t call n gives answer i. */
  ghost predicate GivesAt(ttl: int, actions: seq<Action>, i: nat, g: Given, n: nat, t: nat) {
    && TurnOf(ttl, actions, n, t)
    && |At(ttl, actions, t).given| == i && i < |At(ttl, actions, t + 1).given| && At(ttl, actions, t + 1).given[i] == g
    && var c := At(ttl, actions, t).calls[n]; c.lease == g.lease && c.kind == g.kind && c.key == g.key
  }

  /** Answer i was given by a turn of the call that took this path. */
  ghost predicate AnsweredAlong(ttl: int, actions: seq<Action>, i: nat, g: Given, p: Path) {
    && GivesAt(ttl, actions, i, g, p.call, p.answered)
    && Passed(ttl, actions, p.answered, At(ttl, actions, p.answered).calls[p.call], p)
  }

  // ----- Every call is on its path -----

  predicate PastGate(pc: Pc) { !pc.Begin? && !pc.HaveLease? && !pc.Done? }

  ghost predicate HasStarted(ttl: int, actions: seq<Action>, n: nat, c: Call) {
    exists a: nat :: StartsAt(ttl, actions, |actions|, n, c, a)
  }

  ghost predicate HasRead(ttl: int, actions: seq<Action>, n: nat, c: Call, row: Lease) {
    exists a: nat, j: nat :: a < j && StartsAt(ttl, actions, |actions|, n, c, a) && ReadsAt(ttl, actions, n, c, row, j)
  }

  ghost predicate HasPassed(ttl: int, actions: seq<Action>, n: nat, c: Call) {
    exists p: Path :: p.call == n && Passed(ttl, actions, |actions|, c, p)
  }

  ghost predicate OnPath(ttl: int, actions: seq<Action>, n: nat, c: Call) {
    && (c.pc.Begin? ==> HasStarted(ttl, actions, n, c))
    && (c.pc.HaveLease? ==> HasRead(ttl, actions, n, c, c.pc.row))
    && (PastGate(c.pc) ==> HasPassed(ttl, actions, n, c))
  }

  predicate SameAsked(c: Call, d: Call) { c.lease == d.lease && c.kind == d.kind && c.key == d.key && c.waits == d.waits }

  lemma AtFront(ttl: int, front: seq<Action>, actions: seq<Action>, k: nat)
    requires front <= actions && k <= |front|
    ensures At(ttl, actions, k) == At(ttl, front, k)
  {
    assert actions[..k] == front[..k];
  }

  lemma AtEnd(ttl: int, front: seq<Action>, actions: seq<Action>)
    requires front <= actions
    ensures At(ttl, actions, |front|) == Reached(ttl, front)
  {
    assert actions[..|front|] == front;
  }

  lemma StartsLater(ttl: int, front: seq<Action>, actions: seq<Action>, upto: nat, n: nat, c: Call, d: Call, a: nat)
    requires front <= actions && SameAsked(c, d) && StartsAt(ttl, front, |front|, n, c, a)
    requires |front| <= upto <= |actions| && forall k :: |front| <= k < upto ==> !actions[k].Crash?
    ensures StartsAt(ttl, actions, upto, n, d, a)
  {
    AtFront(ttl, front, actions, a);
    AtFront(ttl, front, actions, a + 1);
    assert actions[a] == front[a];
    forall k | a <= k < upto ensures !actions[k].Crash? { if k < |front| { assert actions[k] == front[k]; } }
  }

  lemma ReadsLater(ttl: int, front: seq<Action>, actions: seq<Action>, n: nat, c: Call, d: Call, row: Lease, j: nat)
    requires front <= actions && SameAsked(c, d) && ReadsAt(ttl, front, n, c, row, j)
    ensures ReadsAt(ttl, actions, n, d, row, j)
  {
    AtFront(ttl, front, actions, j);
    assert actions[j] == front[j];
  }

  lemma OpensLater(ttl: int, front: seq<Action>, actions: seq<Action>, n: nat, row: Lease, k: nat)
    requires front <= actions && OpensAt(ttl, front, n, row, k)
    ensures OpensAt(ttl, actions, n, row, k)
  {
    AtFront(ttl, front, actions, k);
    assert actions[k] == front[k];
  }

  lemma PassedLater(ttl: int, front: seq<Action>, actions: seq<Action>, upto: nat, c: Call, d: Call, p: Path)
    requires front <= actions && SameAsked(c, d) && Passed(ttl, front, |front|, c, p)
    requires |front| <= upto <= |actions| && forall k :: |front| <= k < upto ==> !actions[k].Crash?
    ensures Passed(ttl, actions, upto, d, p)
  {
    StartsLater(ttl, front, actions, upto, p.call, c, d, p.start);
    ReadsLater(ttl, front, actions, p.call, c, d, p.row, p.read);
    OpensLater(ttl, front, actions, p.call, p.row, p.gate);
  }

  lemma StartedLater(ttl: int, front: seq<Action>, a: Action, actions: seq<Action>, n: nat, c: Call, d: Call)
    requires actions == front + [a] && !a.Crash? && SameAsked(c, d) && HasStarted(ttl, front, n, c)
    ensures HasStarted(ttl, actions, n, d)
  {
    var x: nat :| StartsAt(ttl, front, |front|, n, c, x);
    StartsLater(ttl, front, actions, |actions|, n, c, d, x);
  }

  lemma HasReadLater(ttl: int, front: seq<Action>, a: Action, actions: seq<Action>, n: nat, c: Call, d: Call, row: Lease)
    requires actions == front + [a] && !a.Crash? && SameAsked(c, d) && HasRead(ttl, front, n, c, row)
    ensures HasRead(ttl, actions, n, d, row)
  {
    var x: nat, j: nat :| x < j && StartsAt(ttl, front, |front|, n, c, x) && ReadsAt(ttl, front, n, c, row, j);
    StartsLater(ttl, front, actions, |actions|, n, c, d, x);
    ReadsLater(ttl, front, actions, n, c, d, row, j);
  }

  lemma HasPassedLater(ttl: int, front: seq<Action>, a: Action, actions: seq<Action>, n: nat, c: Call, d: Call)
    requires actions == front + [a] && !a.Crash? && SameAsked(c, d) && HasPassed(ttl, front, n, c)
    ensures HasPassed(ttl, actions, n, d)
  {
    var p: Path :| p.call == n && Passed(ttl, front, |front|, c, p);
    PassedStill(ttl, front, a, actions, c, d, p);
  }

  lemma PassedStill(ttl: int, front: seq<Action>, a: Action, actions: seq<Action>, c: Call, d: Call, p: Path)
    requires actions == front + [a] && !a.Crash? && SameAsked(c, d) && Passed(ttl, front, |front|, c, p)
    ensures Passed(ttl, actions, |actions|, d, p)
  {
    assert forall k :: |front| <= k < |actions| ==> actions[k] == a;
    PassedLater(ttl, front, actions, |actions|, c, d, p);
  }

  /** A call that stays where it was stays on its path. */
  lemma OnPathLater(ttl: int, front: seq<Action>, a: Action, actions: seq<Action>, n: nat, c: Call, d: Call)
    requires actions == front + [a] && !a.Crash? && SameAsked(c, d) && OnPath(ttl, front, n, c)
    requires d.pc == c.pc || (PastGate(c.pc) && PastGate(d.pc)) || d.pc.Done?
    ensures OnPath(ttl, actions, n, d)
  {
    if d.pc.Begin? { StartedLater(ttl, front, a, actions, n, c, d); }
    if d.pc.HaveLease? { HasReadLater(ttl, front, a, actions, n, c, d, c.pc.row); }
    if PastGate(d.pc) { HasPassedLater(ttl, front, a, actions, n, c, d); }
  }

  lemma StartingIsOnPath(ttl: int, front: seq<Action>, a: Action, actions: seq<Action>)
    requires actions == front + [a] && a.StartCall? && |Reached(ttl, actions).calls| == |Reached(ttl, front).calls| + 1
    requires SameAsked(Reached(ttl, actions).calls[|Reached(ttl, front).calls|], Call(a.lease, a.kind, a.key, a.waits, Begin, NoWaiter, EMPTY))
    requires Reached(ttl, actions).calls[|Reached(ttl, front).calls|].pc.Begin?
    ensures OnPath(ttl, actions, |Reached(ttl, front).calls|, Reached(ttl, actions).calls[|Reached(ttl, front).calls|])
  {
    var n := |front|;
    AtEnd(ttl, front, actions);
    assert actions[..n + 1] == actions && actions[n] == a;
    assert StartsAt(ttl, actions, |actions|, |Reached(ttl, front).calls|, Reached(ttl, actions).calls[|Reached(ttl, front).calls|], n);
  }

  /** The turn in which a call reads its lease. */
  lemma ReadingIsOnPath(ttl: int, front: seq<Action>, a: Action, actions: seq<Action>, d: Call)
    requires actions == front + [a] && a.StepCall? && a.call < |Reached(ttl, front).calls|
    requires var s := Reached(ttl, front); var c := s.calls[a.call];
             OnPath(ttl, front, a.call, c) && c.pc.Begin? && SameAsked(c, d)
             && c.lease < |s.db.leases| && d.pc == HaveLease(s.db.leases[c.lease])
    ensures OnPath(ttl, actions, a.call, d)
  {
    var c := Reached(ttl, front).calls[a.call];
    var x: nat :| StartsAt(ttl, front, |front|, a.call, c, x);
    AtEnd(ttl, front, actions);
    assert actions[|front|] == a;
    StartsLater(ttl, front, actions, |actions|, a.call, c, d, x);
    assert ReadsAt(ttl, actions, a.call, d, d.pc.row, |front|);
  }

  /** The turn in which the gate opens. */
  lemma OpeningIsOnPath(ttl: int, front: seq<Action>, a: Action, actions: seq<Action>, d: Call)
    requires actions == front + [a] && a.StepCall? && a.call < |Reached(ttl, front).calls|
    requires var s := Reached(ttl, front); var c := s.calls[a.call];
             OnPath(ttl, front, a.call, c) && c.pc.HaveLease? && SameAsked(c, d) && GateOpens(s.db, c.pc.row) && PastGate(d.pc)
    ensures OnPath(ttl, actions, a.call, d)
  {
    var c := Reached(ttl, front).calls[a.call];
    var x: nat, j: nat :| x < j && StartsAt(ttl, front, |front|, a.call, c, x) && ReadsAt(ttl, front, a.call, c, c.pc.row, j);
    AtEnd(ttl, front, actions);
    assert actions[|front|] == a;
    StartsLater(ttl, front, actions, |actions|, a.call, c, d, x);
    ReadsLater(ttl, front, actions, a.call, c, d, c.pc.row, j);
    assert OpensAt(ttl, actions, a.call, c.pc.row, |front|);
    assert Passed(ttl, actions, |actions|, d, Path(a.call, x, j, |front|, 0, c.pc.row));
  }

  /** A turn reads the lease first, then passes the gate by the row it read and the run as it
      is now, and only a call past the gate answers claim_ok. */
  lemma GateTurn(db: Db, ttl: int, busUp: bool, c: Call, clock: Time, stop: bool)
    requires c.lease < |db.leases|
    ensures var t := NextCall(db, ttl, busUp, c, clock, stop);
            && SameAsked(c, t.call) && !t.call.pc.Begin?
            && (t.call.pc.HaveLease? ==> c.pc.Begin? && t.call.pc.row == db.leases[c.lease])
            && (PastGate(t.call.pc) ==> PastGate(c.pc) || (c.pc.HaveLease? && GateOpens(db, c.pc.row)))
            && (t.answer.Some? && t.answer.value.reason.ClaimOK? ==> PastGate(c.pc))
  {
  }

  lemma TurnIsOnPath(ttl: int, front: seq<Action>, a: Action, actions: seq<Action>)
    requires actions == front + [a] && a.StepCall? && a.call < |Reached(ttl, front).calls|
    requires OnPath(ttl, front, a.call, Reached(ttl, front).calls[a.call])
    ensures var s := Reached(ttl, front);
            OnPath(ttl, actions, a.call, NextCall(s.db, s.ttl, s.busUp, s.calls[a.call], a.clock, a.stop).call)
  {
    var s := Reached(ttl, front);
    var c := s.calls[a.call];
    CallKnowsLease(ttl, front, a.call);
    GateTurn(s.db, s.ttl, s.busUp, c, a.clock, a.stop);
    var d := NextCall(s.db, s.ttl, s.busUp, c, a.clock, a.stop).call;
    if d.pc.HaveLease? {
      ReadingIsOnPath(ttl, front, a, actions, d);
    } else if c.pc.HaveLease? && PastGate(d.pc) {
      OpeningIsOnPath(ttl, front, a, actions, d);
    } else {
      OnPathLater(ttl, front, a, actions, a.call, c, d);
    }
  }

  lemma CallKnowsLease(ttl: int, actions: seq<Action>, n: nat)
    requires n < |Reached(ttl, actions).calls|
    ensures Reached(ttl, actions).calls[n].lease < |Reached(ttl, actions).db.leases|
  {
    ReachableOk(ttl, actions);
    assert CallOk(Reached(ttl, actions).db, Reached(ttl, actions).calls[n]);
  }

  /** What a step does to the calls: nothing to where another call stands, unless it ends. */
  lemma StepShape(s: State, a: Action)
    ensures var t := Step(s, a);
            && (forall n :: 0 <= n < |t.calls| && n < |s.calls| && !(a.StepCall? && a.call == n) ==>
                  !a.Crash? && SameAsked(s.calls[n], t.calls[n]) && (t.calls[n].pc == s.calls[n].pc || t.calls[n].pc.Done?))
            && (|t.calls| > |s.calls| ==>
                  && a.StartCall? && |t.calls| == |s.calls| + 1 && t.calls[|s.calls|].pc.Begin?
                  && SameAsked(t.calls[|s.calls|], Call(a.lease, a.kind, a.key, a.waits, Begin, NoWaiter, EMPTY)))
            && (a.StepCall? && a.call < |s.calls| ==>
                  t.calls[a.call] == NextCall(s.db, s.ttl, s.busUp, s.calls[a.call], a.clock, a.stop).call)
  {
  }

  ghost predicate AllOnPath(ttl: int, actions: seq<Action>) {
    forall n: nat :: n < |Reached(ttl, actions).calls| ==> OnPath(ttl, actions, n, Reached(ttl, actions).calls[n])
  }

  lemma StepOnPath(ttl: int, front: seq<Action>, a: Action, actions: seq<Action>, n: nat)
    requires actions == front + [a] && AllOnPath(ttl, front) && n < |Reached(ttl, actions).calls|
    ensures OnPath(ttl, actions, n, Reached(ttl, actions).calls[n])
  {
    var s, t := Reached(ttl, front), Reached(ttl, actions);
    ExecuteLast(Init(ttl), front, a, actions);
    StepShape(s, a);
    if n >= |s.calls| {
      StartingIsOnPath(ttl, front, a, actions);
    } else if a.StepCall? && a.call == n {
      TurnIsOnPath(ttl, front, a, actions);
    } else {
      OnPathLater(ttl, front, a, actions, n, s.calls[n], t.calls[n]);
    }
  }

  lemma {:induction false} CallsOnPath(ttl: int, actions: seq<Action>)
    ensures AllOnPath(ttl, actions)
    decreases |actions|
  {
    if actions != [] {
      var front, a := actions[..|actions| - 1], actions[|actions| - 1];
      assert actions == front + [a];
      CallsOnPath(ttl, front);
      forall n: nat | n < |Reached(ttl, actions).calls| ensures OnPath(ttl, actions, n, Reached(ttl, actions).calls[n]) {
        StepOnPath(ttl, front, a, actions, n);
      }
    }
  }

  // ----- Every answer comes from a call past its gate -----

  lemma GivesLater(ttl: int, front: seq<Action>, actions: seq<Action>, i: nat, g: Given, n: nat, t: nat)
    requires front <= actions && GivesAt(ttl, front, i, g, n, t)
    ensures GivesAt(ttl, actions, i, g, n, t) && At(ttl, actions, t) == At(ttl, front, t)
  {
    AtFront(ttl, front, actions, t);
    AtFront(ttl, front, actions, t + 1);
    assert actions[t] == front[t];
  }

  lemma AnsweredLater(ttl: int, front: seq<Action>, actions: seq<Action>, i: nat, g: Given, p: Path)
    requires front <= actions && AnsweredAlong(ttl, front, i, g, p)
    ensures AnsweredAlong(ttl, actions, i, g, p)
  {
    GivesLater(ttl, front, actions, i, g, p.call, p.answered);
    PassedElsewhere(ttl, front, actions, p.answered, At(ttl, front, p.answered).calls[p.call], p);
  }

  lemma PassedElsewhere(ttl: int, front: seq<Action>, actions: seq<Action>, upto: nat, c: Call, p: Path)
    requires front <= actions && Passed(ttl, front, upto, c, p)
    ensures Passed(ttl, actions, upto, c, p)
  {
    AtFront(ttl, front, actions, p.start);
    AtFront(ttl, front, actions, p.start + 1);
    ReadsLater(ttl, front, actions, p.call, c, c, p.row, p.read);
    OpensLater(ttl, front, actions, p.call, p.row, p.gate);
    assert forall k :: 0 <= k < |front| ==> actions[k] == front[k];
  }

  /** The step that gives an answer is a turn of the call it answers. */
  lemma GivesNow(ttl: int, front: seq<Action>, a: Action, actions: seq<Action>)
    requires actions == front + [a] && |Reached(ttl, actions).given| > |Reached(ttl, front).given|
    ensures a.StepCall? && a.call < |Reached(ttl, front).calls|
    ensures GivesAt(ttl, actions, |Reached(ttl, front).given|, Reached(ttl, actions).given[|Reached(ttl, front).given|], a.call, |front|)
  {
    ExecuteLast(Init(ttl), front, a, actions);
    AnswerShape(Reached(ttl, front), a);
    AtEnd(ttl, front, actions);
    assert actions[..|front| + 1] == actions && actions[|front|] == a;
  }

  /** And of a call past its gate, when it is a claim_ok. */
  lemma AnswererPassed(ttl: int, front: seq<Action>, a: Action, actions: seq<Action>)
    requires actions == front + [a] && |Reached(ttl, actions).given| > |Reached(ttl, front).given|
    requires OkAnswer(Reached(ttl, actions), |Reached(ttl, front).given|)
    requires a.StepCall? && a.call < |Reached(ttl, front).calls|
    ensures HasPassed(ttl, front, a.call, Reached(ttl, front).calls[a.call])
  {
    var s := Reached(ttl, front);
    ExecuteLast(Init(ttl), front, a, actions);
    AnswerShape(s, a);
    CallKnowsLease(ttl, front, a.call);
    GateTurn(s.db, s.ttl, s.busUp, s.calls[a.call], a.clock, a.stop);
    CallsOnPath(ttl, front);
  }

  lemma AnswersNow(ttl: int, front: seq<Action>, a: Action, actions: seq<Action>)
    requires actions == front + [a] && |Reached(ttl, actions).given| > |Reached(ttl, front).given|
    requires OkAnswer(Reached(ttl, actions), |Reached(ttl, front).given|)
    ensures exists p: Path :: AnsweredAlong(ttl, actions, |Reached(ttl, front).given|, Reached(ttl, actions).given[|Reached(ttl, front).given|], p)
  {
    var n := |front|;
    GivesNow(ttl, front, a, actions);
    AnswererPassed(ttl, front, a, actions);
    var c := Reached(ttl, front).calls[a.call];
    var p: Path :| p.call == a.call && Passed(ttl, front, n, c, p);
    PassedElsewhere(ttl, front, actions, n, c, p);
    MovesEnd(ttl, actions, c, p, n);
    AtEnd(ttl, front, actions);
    assert AnsweredAlong(ttl, actions, |Reached(ttl, front).given|, Reached(ttl, actions).given[|Reached(ttl, front).given|], p.(answered := n));
  }

  lemma MovesEnd(ttl: int, actions: seq<Action>, c: Call, p: Path, answered: nat)
    requires Passed(ttl, actions, answered, c, p)
    ensures Passed(ttl, actions, answered, c, p.(answered := answered))
  {
  }

  lemma AnswerShape(s: State, a: Action)
    requires |Step(s, a).given| > |s.given|
    ensures var t := Step(s, a);
            && a.StepCall? && a.call < |s.calls| && |t.given| == |s.given| + 1
            && var c := s.calls[a.call];
               var turn := NextCall(s.db, s.ttl, s.busUp, c, a.clock, a.stop);
               && turn.answer.Some? && t.given[|s.given|] == Given(c.lease, c.kind, c.key, turn.answer.value)
  {
  }

  /** Every claim_ok, first or replayed, was given by a turn of a call that, since it started,
      had read its lease as held with its seed settled and then found its run active. */
  lemma {:induction false} GateWasPassed(ttl: int, actions: seq<Action>, i: nat)
    requires OkAnswer(Reached(ttl, actions), i)
    ensures exists p: Path :: AnsweredAlong(ttl, actions, i, Reached(ttl, actions).given[i], p)
    decreases |actions|
  {
    if actions != [] {
      var front, a := actions[..|actions| - 1], actions[|actions| - 1];
      assert actions == front + [a];
      ExecuteLast(Init(ttl), front, a, actions);
      StepKeepsHistory(Reached(ttl, front), a);
      if i < |Reached(ttl, front).given| {
        GateWasPassed(ttl, front, i);
        var p: Path :| AnsweredAlong(ttl, front, i, Reached(ttl, front).given[i], p);
        AnsweredLater(ttl, front, actions, i, Reached(ttl, front).given[i], p);
      } else {
        OneAnswer(Reached(ttl, front), a, i);
        AnswersNow(ttl, front, a, actions);
      }
    }
  }

  lemma OneAnswer(s: State, a: Action, i: nat)
    requires |s.given| <= i < |Step(s, a).given|
    ensures i == |s.given|
  {
  }

  // ----- What that means for ended leases -----

  predicate RunsOn(db: Db, lease: nat) {
    lease < |db.leases| && db.leases[lease].run < |db.runs| && db.runs[db.leases[lease].run].state.Active?
  }

  predicate HeldAndOn(db: Db, lease: nat) { lease < |db.leases| && db.leases[lease].state.Held? && RunsOn(db, lease) }

  lemma AtExtends(ttl: int, actions: seq<Action>, x: nat, y: nat)
    requires x <= y <= |actions|
    ensures Extends(At(ttl, actions, x).db, At(ttl, actions, y).db) && Inv(At(ttl, actions, x).db)
  {
    ReachableOk(ttl, actions[..x]);
    assert actions[..y] == actions[..x] + actions[x..y];
    ExecuteAppend(Init(ttl), actions[..x], actions[x..y]);
    LaterExtends(At(ttl, actions, x), actions[x..y]);
  }

  /** A lease held later was held before, and its run active: neither end is undone. */
  lemma HeldBefore(a: Db, b: Db, lease: nat)
    requires Extends(a, b) && lease < |a.leases| && a.leases[lease].run < |a.runs|
    ensures b.leases[lease].state.Held? ==> a.leases[lease].state.Held?
    ensures RunsOn(b, lease) ==> RunsOn(a, lease)
  {
    assert LeaseMoves(a.leases[lease], b.leases[lease]);
    assert RunMoves(a.runs[a.leases[lease].run], b.runs[a.leases[lease].run]);
  }

  /** From start to read the lease of an answering call was held, with its seed settled by
      then, and its run was active from start to the gate. */
  lemma PathWasLive(ttl: int, actions: seq<Action>, i: nat, g: Given, p: Path)
    requires AnsweredAlong(ttl, actions, i, g, p)
    ensures p.start < p.read < p.gate < p.answered < |actions|
    ensures forall x :: p.start <= x <= p.read ==> HeldAndOn(At(ttl, actions, x).db, g.lease)
    ensures forall x :: p.start <= x <= p.gate ==> RunsOn(At(ttl, actions, x).db, g.lease)
    ensures var l := At(ttl, actions, p.read).db.leases[g.lease]; l.seed.Seeded? || l.seed.Skipped?
  {
    StartKnowsLease(ttl, actions, p.start, g.lease, g.kind, g.key);
    AtExtends(ttl, actions, p.read, p.gate);
    assert LeaseMoves(At(ttl, actions, p.read).db.leases[g.lease], At(ttl, actions, p.gate).db.leases[g.lease]);
    assert RunsOn(At(ttl, actions, p.gate).db, g.lease);
    forall x | p.start <= x <= p.gate ensures RunsOn(At(ttl, actions, x).db, g.lease) {
      LiveBack(ttl, actions, p.start, x, p.gate, g.lease);
    }
    forall x | p.start <= x <= p.read ensures HeldAndOn(At(ttl, actions, x).db, g.lease) {
      LiveBack(ttl, actions, p.start, x, p.read, g.lease);
    }
  }

  /** A call starts on a lease that exists. */
  lemma StartKnowsLease(ttl: int, actions: seq<Action>, a: nat, lease: nat, kind: Kind, key: string)
    requires a < |actions| && actions[a].StartCall? && actions[a].lease == lease
    requires |At(ttl, actions, a + 1).calls| > |At(ttl, actions, a).calls|
    ensures lease < |At(ttl, actions, a).db.leases|
  {
    ExecuteLast(Init(ttl), actions[..a], actions[a], actions[..a + 1]);
  }

  lemma LiveBack(ttl: int, actions: seq<Action>, a: nat, x: nat, y: nat, lease: nat)
    requires a <= x <= y <= |actions| && lease < |At(ttl, actions, a).db.leases|
    ensures lease < |At(ttl, actions, x).db.leases| && lease < |At(ttl, actions, y).db.leases|
    ensures At(ttl, actions, y).db.leases[lease].state.Held? ==> At(ttl, actions, x).db.leases[lease].state.Held?
    ensures RunsOn(At(ttl, actions, y).db, lease) ==> RunsOn(At(ttl, actions, x).db, lease)
  {
    AtExtends(ttl, actions, a, x);
    AtExtends(ttl, actions, x, y);
    assert LeaseOk(At(ttl, actions, x).db, At(ttl, actions, x).db.leases[lease]);
    HeldBefore(At(ttl, actions, x).db, At(ttl, actions, y).db, lease);
  }

  /** A call started on a lease that is no longer held, or whose run has ended, never answers
      claim_ok, replays included: whatever is answered for such a lease later comes from a call
      that had started, and read the lease, before it ended. */
  lemma EndedNeverAnswers(ttl: int, actions: seq<Action>, i: nat, x: nat)
    requires OkAnswer(Reached(ttl, actions), i) && x <= |actions|
    requires var l := Reached(ttl, actions).given[i].lease;
             l < |At(ttl, actions, x).db.leases| && !HeldAndOn(At(ttl, actions, x).db, l)
    ensures exists p: Path :: AnsweredAlong(ttl, actions, i, Reached(ttl, actions).given[i], p) && p.read < x
  {
    GateWasPassed(ttl, actions, i);
    var g := Reached(ttl, actions).given[i];
    var p: Path :| AnsweredAlong(ttl, actions, i, g, p);
    if x <= p.read { LiveUntilRead(ttl, actions, i, g, p, x); }
  }

  /** The lease of an answering call is live in every state up to its read that has it. */
  lemma LiveUntilRead(ttl: int, actions: seq<Action>, i: nat, g: Given, p: Path, x: nat)
    requires AnsweredAlong(ttl, actions, i, g, p) && x <= p.read && x <= |actions| && g.lease < |At(ttl, actions, x).db.leases|
    ensures HeldAndOn(At(ttl, actions, x).db, g.lease)
  {
    PathWasLive(ttl, actions, i, g, p);
    LiveBack(ttl, actions, x, x, p.read, g.lease);
  }

  // ----- And not checked again -----

  /** The last action records a claim on a lease that is no longer held. */
  ghost predicate RecordsAfterEnd(ttl: int, actions: seq<Action>) {
    && actions != []
    && var s, t := Reached(ttl, actions[..|actions| - 1]), Reached(ttl, actions);
       && |t.db.claims| == |s.db.claims| + 1 && t.db.claims[|s.db.claims|].lease < |s.db.leases|
       && !s.db.leases[t.db.claims[|s.db.claims|].lease].state.Held?
  }

  /** A call that has read the one message. */
  function Late(n: nat): seq<Action> { Seat(Names(n)) + Calls(0, 0, EmailOTP, "k", false) + Turns(0, 1) }

  lemma ReadsOne(s: State, addrs: seq<string>, ttl: int)
    requires Sitting(s, addrs, ttl, 0, [], []) && |addrs| > 0
    ensures var t := Execute(s, Calls(0, 0, EmailOTP, "k", false) + Turns(0, 1));
            && t.db == s.db && t.ttl == ttl && t.busUp && |t.calls| == 1 && t.calls[0].lease == 0 && t.calls[0].key == "k"
            && t.calls[0].kind == EmailOTP && t.calls[0].pc.Taking? && t.calls[0].pc.rest != []
            && t.calls[0].pc.rest[0] == Offer(0, Secret(EmailOTP))
  {
    CallReads(s, addrs, 0, EmailOTP, "k", false);
    ExecuteAppend(s, Calls(0, 0, EmailOTP, "k", false), Turns(0, 1));
    FirstOffer(s.db, addrs, 0, EmailOTP);
    var c := Call(0, EmailOTP, "k", false, Querying(false), NoWaiter, s.db);
    var offers := Offers(s.db, ReadLease(s.db, 0, EmailOTP, Some(Lower(s.db, 0))).out, EmailOTP);
    OneTurn(s, c, c.(pc := Taking(offers, false), view := s.db));
    var r := Execute(s, Calls(0, 0, EmailOTP, "k", false));
    TurnsFirst(r, 0, 0);
    NoTurns(Step(r, StepCall(0, 50, false)), 0);
  }

  /** Recording looks at the row's identity, run and times, which a release leaves alone. */
  lemma TakesAnyway(db: Db, ttl: int, c: Call)
    requires ttl > 0 && c.lease == 0 && |db.leases| > 0 && |db.runs| == 1 && db.claims == []
    requires db.leases[0].run == 0 && db.leases[0].expires == 510 && db.runs[0].expires == 1001
    requires c.key != "" && c.pc.Taking? && c.pc.rest != [] && c.pc.rest[0].value != ""
    ensures var t := NextCall(db, ttl, true, c, 50, false); |t.db.claims| == 1 && t.db.claims[0].lease == 0
  {
  }

  lemma TakesAfterRelease(s: State)
    requires s.ttl > 0 && s.busUp && |s.calls| == 1 && |s.db.leases| > 0 && s.db.leases[0] == Rented(0)
    requires s.db.runs == [Run(Active, 1, 1001, None)] && s.db.claims == []
    requires s.calls[0].lease == 0 && s.calls[0].key != "" && s.calls[0].pc.Taking? && s.calls[0].pc.rest != []
    requires s.calls[0].pc.rest[0].value != ""
    ensures var mid := Step(s, Transact(OpRelease(0, 45)));
            var t := Step(mid, StepCall(0, 50, false));
            && |mid.db.leases| > 0 && !mid.db.leases[0].state.Held? && mid.db.claims == []
            && |t.db.claims| == 1 && t.db.claims[0].lease == 0
  {
    var mid := Step(s, Transact(OpRelease(0, 45)));
    TakesAnyway(mid.db, s.ttl, s.calls[0]);
  }

  function LateRelease(n: nat): seq<Action> { Late(n) + [Transact(OpRelease(0, 45))] }

  /** "Recorded, so still held" is not an invariant: a release between the read and the insert
      does not stop the claim. */
  lemma RecordedAfterRelease(ttl: int)
    requires ttl > 0
    ensures exists actions: seq<Action> :: RecordsAfterEnd(ttl, actions)
  {
    var addrs := Names(1);
    NamesSpread(1);
    Seated(ttl, addrs);
    var seat := Seat(addrs);
    ReadsOne(Reached(ttl, seat), addrs, ttl);
    ExecuteAppend(Init(ttl), seat, Calls(0, 0, EmailOTP, "k", false) + Turns(0, 1));
    assert Late(1) == seat + (Calls(0, 0, EmailOTP, "k", false) + Turns(0, 1));
    var s, last := Reached(ttl, Late(1)), StepCall(0, 50, false);
    TakesAfterRelease(s);
    ExecuteLast(Init(ttl), Late(1), Transact(OpRelease(0, 45)), LateRelease(1));
    ExecuteLast(Init(ttl), LateRelease(1), last, LateRelease(1) + [last]);
    assert (LateRelease(1) + [last])[..|LateRelease(1)|] == LateRelease(1);
    assert RecordsAfterEnd(ttl, LateRelease(1) + [last]);
  }
}
