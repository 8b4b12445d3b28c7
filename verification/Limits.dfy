/** Exactly which uses of idempotency keys keep claims exactly-once, and the runs that break
    the promise otherwise. */
module Limits {
  import opened Base
  import opened Clock
  import opened Tables
  import opened Invariants
  import opened Candidates
  import opened Lifecycle
  import opened Correlation
  import opened Protocol
  import opened ProtocolProofs
  import opened Histories
  import opened Guarantees
  import opened Wakeups
  import opened Fleets

  // ----- One key, two kinds -----

  datatype Request = Request(lease: nat, key: string, kind: Kind)

  /** Every call that has a key makes one of these requests. */
  predicate Uses(actions: seq<Action>, requests: iset<Request>) {
    forall i :: 0 <= i < |actions| && actions[i].StartCall? && actions[i].key != "" ==>
      Request(actions[i].lease, actions[i].key, actions[i].kind) in requests
  }

  predicate SameRequester(a: Request, b: Request) { a.lease == b.lease && a.key == b.key }

  /** Each key of each lease is used for one kind. */
  ghost predicate OneKindEach(requests: iset<Request>) {
    forall a, b :: a in requests && b in requests && a.key != "" && SameRequester(a, b) ==> a.kind == b.kind
  }

  /** All requests use one key of one lease. */
  ghost predicate OneRequester(requests: iset<Request>) {
    forall a, b :: a in requests && b in requests && a.key != "" && b.key != "" ==> SameRequester(a, b)
  }

  lemma UsesOneKind(actions: seq<Action>, requests: iset<Request>)
    requires Uses(actions, requests) && OneKindEach(requests)
    ensures OneKindPerKey(actions)
  {
    forall i, j | 0 <= i < |actions| && 0 <= j < |actions| && actions[i].StartCall? && actions[j].StartCall? && actions[i].key != ""
                  && actions[i].lease == actions[j].lease && actions[i].key == actions[j].key
      ensures actions[i].kind == actions[j].kind
    {
      assert SameRequester(Request(actions[i].lease, actions[i].key, actions[i].kind), Request(actions[j].lease, actions[j].key, actions[j].kind));
    }
  }

  /** Every successful answer is backed by a claim row of the kind it answers. */
  ghost predicate KindsBacked(s: State) {
    forall i: nat :: OkAnswer(s, i) ==>
      s.given[i].outcome.claim < |s.db.claims| && s.db.claims[s.given[i].outcome.claim].kind == s.given[i].kind
  }

  ghost predicate AlwaysBacked(ttl: int, requests: iset<Request>) {
    forall actions: seq<Action> :: Uses(actions, requests) ==> KindsBacked(Reached(ttl, actions))
  }

  /** Every successful answer with one message's secret of one kind is the same answer. */
  ghost predicate HandsOnce(s: State) {
    forall i: nat, j: nat :: OkAnswer(s, i) && OkAnswer(s, j) && SameSecret(s.given[i], s.given[j]) ==> s.given[i] == s.given[j]
  }

  predicate SameSecret(a: Given, b: Given) { a.outcome.msg == b.outcome.msg && a.kind == b.kind }

  ghost predicate AlwaysOnce(ttl: int, requests: iset<Request>) {
    forall actions: seq<Action> :: Uses(actions, requests) ==> HandsOnce(Reached(ttl, actions))
  }

  function Other(kind: Kind): Kind { if kind.EmailOTP? then MagicLink else EmailOTP }

  function Enough(lease: nat): seq<string> { Names(lease + 1) }

  /** One key asks for one kind and then for the other. */
  function Reuse(p: Request, second: Kind): seq<Action> {
    Seat(Enough(p.lease)) + TakeCall(0, p.lease, p.kind, p.key) + ReplayCall(1, p.lease, second, p.key)
  }

  function AnswerOf(lease: nat, kind: Kind, key: string, row: nat): Given {
    Given(lease, kind, key, Outcome(ClaimOK, row, 0, Secret(kind)))
  }

  lemma ThenTakes(ttl: int, front: seq<Action>, addrs: seq<string>, n: nat, claims: seq<Claim>, given: seq<Given>, lease: nat, kind: Kind, key: string)
    requires Sitting(Reached(ttl, front), addrs, ttl, n, claims, given) && lease < |addrs| && key != "" && ttl > 0
    requires !IsClaimed(claims, 0, kind) && !KeyUsed(claims, lease, key)
    ensures Sitting(Reached(ttl, front + TakeCall(n, lease, kind, key)), addrs, ttl, n + 1, claims + [TakenRow(ttl, lease, kind, key)],
                    given + [AnswerOf(lease, kind, key, |claims|)])
  {
    CallTakes(Reached(ttl, front), addrs, ttl, claims, given, lease, kind, key);
    ExecuteAppend(Init(ttl), front, TakeCall(n, lease, kind, key));
  }

  lemma ThenReplays(ttl: int, front: seq<Action>, addrs: seq<string>, n: nat, claims: seq<Claim>, given: seq<Given>, lease: nat, kind: Kind, key: string, row: nat)
    requires Sitting(Reached(ttl, front), addrs, ttl, n, claims, given) && lease < |addrs| && key != "" && ttl > 0
    requires ClaimByKey(claims, |claims|, lease, key) == Some(row) && claims[row].msg == 0 && claims[row].expires > 50
    ensures Sitting(Reached(ttl, front + ReplayCall(n, lease, kind, key)), addrs, ttl, n + 1, claims, given + [AnswerOf(lease, kind, key, row)])
  {
    CallReplays(Reached(ttl, front), addrs, ttl, claims, given, lease, kind, key, row);
    ExecuteAppend(Init(ttl), front, ReplayCall(n, lease, kind, key));
  }

  /** The first request of a run takes the secret. */
  lemma FirstTakes(ttl: int, n: nat, lease: nat, kind: Kind, key: string)
    requires ttl > 0 && key != "" && lease < n
    ensures Sitting(Reached(ttl, Seat(Names(n)) + TakeCall(0, lease, kind, key)), Names(n), ttl, 1,
                    [TakenRow(ttl, lease, kind, key)], [AnswerOf(lease, kind, key, 0)])
  {
    var row, g := TakenRow(ttl, lease, kind, key), AnswerOf(lease, kind, key, 0);
    NamesSpread(n);
    Seated(ttl, Names(n));
    ThenTakes(ttl, Seat(Names(n)), Names(n), 0, [], [], lease, kind, key);
    assert [] + [row] == [row] && [] + [g] == [g];
  }

  lemma ReuseAnswers(ttl: int, p: Request, second: Kind)
    requires ttl > 0 && p.key != ""
    ensures Sitting(Reached(ttl, Reuse(p, second)), Enough(p.lease), ttl, 2, [TakenRow(ttl, p.lease, p.kind, p.key)],
                    [AnswerOf(p.lease, p.kind, p.key, 0)] + [AnswerOf(p.lease, second, p.key, 0)])
  {
    var row := TakenRow(ttl, p.lease, p.kind, p.key);
    FirstTakes(ttl, p.lease + 1, p.lease, p.kind, p.key);
    assert ClaimByKey([row], 1, p.lease, p.key) == Some(0);
    ThenReplays(ttl, Seat(Enough(p.lease)) + TakeCall(0, p.lease, p.kind, p.key), Enough(p.lease), 1, [row],
                [AnswerOf(p.lease, p.kind, p.key, 0)], p.lease, second, p.key, 0);
  }

  // ----- Which requests a run makes -----

  lemma {:induction false} OpenStartsNothing(addrs: seq<string>, requests: iset<Request>)
    ensures Uses(OpenFleet(addrs), requests)
  {
    if addrs != [] { OpenStartsNothing(addrs[..|addrs| - 1], requests); }
  }

  lemma UsesJoined(front: seq<Action>, back: seq<Action>, requests: iset<Request>)
    requires Uses(front, requests) && Uses(back, requests)
    ensures Uses(front + back, requests)
  {
  }

  lemma SeatStartsNothing(addrs: seq<string>, requests: iset<Request>)
    ensures Uses(Seat(addrs), requests)
  {
    OpenStartsNothing(addrs, requests);
    UsesJoined(OpenFleet(addrs), Arrive(addrs, SECRETS), requests);
  }

  lemma ReuseUses(p: Request, second: Kind, requests: iset<Request>)
    requires p in requests && p.(kind := second) in requests
    ensures Uses(Reuse(p, second), requests)
  {
    SeatStartsNothing(Enough(p.lease), requests);
    UsesJoined(Seat(Enough(p.lease)), TakeCall(0, p.lease, p.kind, p.key), requests);
    UsesJoined(Seat(Enough(p.lease)) + TakeCall(0, p.lease, p.kind, p.key), ReplayCall(1, p.lease, second, p.key), requests);
  }

  lemma ReuseBreaks(ttl: int, requests: iset<Request>, p: Request, q: Request)
    requires ttl > 0 && p in requests && q in requests && p.key != "" && SameRequester(p, q) && p.kind != q.kind
    ensures !AlwaysBacked(ttl, requests)
  {
    ReuseAnswers(ttl, p, q.kind);
    assert q == p.(kind := q.kind);
    ReuseUses(p, q.kind, requests);
    assert OkAnswer(Reached(ttl, Reuse(p, q.kind)), 1);
  }

  /** Replay compares no kinds. Over all runs, every answer is backed by a claim of its own
      kind if and only if the keys in use have one kind each. */
  lemma KindsBackedIff(ttl: int, requests: iset<Request>)
    requires ttl > 0
    ensures AlwaysBacked(ttl, requests) <==> OneKindEach(requests)
  {
    if OneKindEach(requests) {
      forall actions: seq<Action> | Uses(actions, requests) ensures KindsBacked(Reached(ttl, actions)) {
        UsesOneKind(actions, requests);
        BackedWithOneKind(ttl, actions);
      }
    } else {
      var p, q :| p in requests && q in requests && p.key != "" && SameRequester(p, q) && p.kind != q.kind;
      ReuseBreaks(ttl, requests, p, q);
    }
  }

  lemma BackedWithOneKind(ttl: int, actions: seq<Action>)
    requires OneKindPerKey(actions)
    ensures KindsBacked(Reached(ttl, actions))
  {
    forall i: nat | OkAnswer(Reached(ttl, actions), i)
      ensures var s := Reached(ttl, actions);
              s.given[i].outcome.claim < |s.db.claims| && s.db.claims[s.given[i].outcome.claim].kind == s.given[i].kind
    {
      AnswerOwnsSecret(ttl, actions, i);
    }
  }

  // ----- Exactly once -----

  /** The first requester records the other kind, the second claims this kind, and the first
      replays its key for this kind. */
  function Twice(p: Request, q: Request): seq<Action> {
    var addrs := Names(Max(p.lease, q.lease) + 1);
    Seat(addrs) + TakeCall(0, p.lease, Other(q.kind), p.key) + TakeCall(1, q.lease, q.kind, q.key) + ReplayCall(2, p.lease, q.kind, p.key)
  }

  lemma TwiceStart(ttl: int, n: nat, p: Request, q: Request)
    requires ttl > 0 && p.key != "" && q.key != "" && !SameRequester(p, q) && p.lease < n && q.lease < n
    ensures Sitting(Reached(ttl, Seat(Names(n)) + TakeCall(0, p.lease, Other(q.kind), p.key) + TakeCall(1, q.lease, q.kind, q.key)),
                    Names(n), ttl, 2, [TakenRow(ttl, p.lease, Other(q.kind), p.key)] + [TakenRow(ttl, q.lease, q.kind, q.key)],
                    [AnswerOf(p.lease, Other(q.kind), p.key, 0)] + [AnswerOf(q.lease, q.kind, q.key, 1)])
  {
    FirstTakes(ttl, n, p.lease, Other(q.kind), p.key);
    ThenTakes(ttl, Seat(Names(n)) + TakeCall(0, p.lease, Other(q.kind), p.key), Names(n), 1,
              [TakenRow(ttl, p.lease, Other(q.kind), p.key)], [AnswerOf(p.lease, Other(q.kind), p.key, 0)], q.lease, q.kind, q.key);
  }

  lemma FirstRow(a: Claim, b: Claim)
    requires a.lease != b.lease || a.key != b.key
    ensures ClaimByKey([a] + [b], 2, a.lease, a.key) == Some(0)
  {
    assert ClaimByKey([a] + [b], 1, a.lease, a.key) == Some(0);
  }

  lemma TwiceAnswers(ttl: int, p: Request, q: Request)
    requires ttl > 0 && p.key != "" && q.key != "" && !SameRequester(p, q)
    ensures !HandsOnce(Reached(ttl, Twice(p, q)))
  {
    var n := Max(p.lease, q.lease) + 1;
    var front := Seat(Names(n)) + TakeCall(0, p.lease, Other(q.kind), p.key) + TakeCall(1, q.lease, q.kind, q.key);
    var rows := [TakenRow(ttl, p.lease, Other(q.kind), p.key)] + [TakenRow(ttl, q.lease, q.kind, q.key)];
    var given := [AnswerOf(p.lease, Other(q.kind), p.key, 0)] + [AnswerOf(q.lease, q.kind, q.key, 1)];
    TwiceStart(ttl, n, p, q);
    FirstRow(rows[0], rows[1]);
    ThenReplays(ttl, front, Names(n), 2, rows, given, p.lease, q.kind, p.key, 0);
    var t := Reached(ttl, Twice(p, q));
    assert t.given == given + [AnswerOf(p.lease, q.kind, p.key, 0)];
    assert OkAnswer(t, 1) && OkAnswer(t, 2) && SameSecret(t.given[1], t.given[2]);
    assert t.given[1] != t.given[2];
  }

  lemma TwiceUses(p: Request, q: Request, requests: iset<Request>)
    requires p.(kind := EmailOTP) in requests && p.(kind := MagicLink) in requests && q in requests
    ensures Uses(Twice(p, q), requests)
  {
    var seat := Seat(Names(Max(p.lease, q.lease) + 1));
    var first, second := TakeCall(0, p.lease, Other(q.kind), p.key), TakeCall(1, q.lease, q.kind, q.key);
    SeatStartsNothing(Names(Max(p.lease, q.lease) + 1), requests);
    UsesJoined(seat, first, requests);
    UsesJoined(seat + first, second, requests);
    UsesJoined(seat + first + second, ReplayCall(2, p.lease, q.kind, p.key), requests);
  }

  /** A requester with both kinds and anybody else can be handed one secret. */
  lemma TwiceBreaks(ttl: int, requests: iset<Request>, p: Request, q: Request)
    requires ttl > 0 && p.key != "" && q.key != "" && !SameRequester(p, q)
    requires p.(kind := EmailOTP) in requests && p.(kind := MagicLink) in requests && q in requests
    ensures !AlwaysOnce(ttl, requests)
  {
    TwiceAnswers(ttl, p, q);
    TwiceUses(p, q, requests);
  }

  lemma OnceWithOneKind(ttl: int, actions: seq<Action>)
    requires OneKindPerKey(actions)
    ensures HandsOnce(Reached(ttl, actions))
  {
    var s := Reached(ttl, actions);
    forall i: nat, j: nat | OkAnswer(s, i) && OkAnswer(s, j) && SameSecret(s.given[i], s.given[j]) ensures s.given[i] == s.given[j] {
      SecretHandedOnce(ttl, actions, i, j);
    }
  }

  lemma AskedIsUsed(actions: seq<Action>, requests: iset<Request>, lease: nat, key: string, kind: Kind)
    requires Uses(actions, requests) && Asked(actions, lease, key, kind)
    ensures key != "" && Request(lease, key, kind) in requests
  {
  }

  lemma OnceWithOneRequester(ttl: int, actions: seq<Action>, requests: iset<Request>)
    requires Uses(actions, requests) && OneRequester(requests)
    ensures HandsOnce(Reached(ttl, actions))
  {
    var s := Reached(ttl, actions);
    ReachableAsked(ttl, actions);
    forall i: nat, j: nat | OkAnswer(s, i) && OkAnswer(s, j) && SameSecret(s.given[i], s.given[j]) ensures s.given[i] == s.given[j] {
      var a, b := s.given[i], s.given[j];
      AskedIsUsed(actions, requests, a.lease, a.key, a.kind);
      AskedIsUsed(actions, requests, b.lease, b.key, b.kind);
      assert SameRequester(Request(a.lease, a.key, a.kind), Request(b.lease, b.key, b.kind));
      AnswersAgree(ttl, actions, i, j);
    }
  }

  /** Exactly once, exactly when: over all runs a secret is handed to one request only if and
      only if each key is used for one kind, or nobody but one key of one lease asks at all. */
  lemma HandsOnceIff(ttl: int, requests: iset<Request>)
    requires ttl > 0
    ensures AlwaysOnce(ttl, requests) <==> OneKindEach(requests) || OneRequester(requests)
  {
    if OneKindEach(requests) {
      forall actions: seq<Action> | Uses(actions, requests) ensures HandsOnce(Reached(ttl, actions)) {
        UsesOneKind(actions, requests);
        OnceWithOneKind(ttl, actions);
      }
    } else if OneRequester(requests) {
      forall actions: seq<Action> | Uses(actions, requests) ensures HandsOnce(Reached(ttl, actions)) {
        OnceWithOneRequester(ttl, actions, requests);
      }
    } else {
      var a, b :| a in requests && b in requests && a.key != "" && SameRequester(a, b) && a.kind != b.kind;
      var c, d :| c in requests && d in requests && c.key != "" && d.key != "" && !SameRequester(c, d);
      assert {a, b} == {a.(kind := EmailOTP), a.(kind := MagicLink)} by { BothKinds(a, b); }
      TwiceBreaks(ttl, requests, a, if SameRequester(a, c) then d else c);
    }
  }

  lemma BothKinds(a: Request, b: Request)
    requires SameRequester(a, b) && a.kind != b.kind
    ensures {a, b} == {a.(kind := EmailOTP), a.(kind := MagicLink)}
  {
    if a.kind.EmailOTP? {
      assert a == a.(kind := EmailOTP) && b == a.(kind := MagicLink);
    } else {
      assert a == a.(kind := MagicLink) && b == a.(kind := EmailOTP);
    }
  }
}
