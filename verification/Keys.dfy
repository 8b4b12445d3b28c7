/** Idempotency keys the MCP proxy derives (internal/mcp/proxy.go): which requests share a
    key, and why the proxy's callers always get exactly-once claims. */
module Keys {
  import opened Base
  import opened EventIds
  import opened Tables
  import opened Protocol
  import opened Histories
  import opened Guarantees

  function IdempotencyKey(lease: string, kind: string, attempt: int): string {
    "mcp:" + lease + ":" + kind + ":" + FormatInt(attempt)
  }

  lemma KeyExample()
    ensures IdempotencyKey("L1", KindName(EmailOTP), 2) == "mcp:L1:email_otp:2"
    ensures IdempotencyKey("L1", KindName(MagicLink), 0) == "mcp:L1:magic_link:0"
  {
  }

  predicate NoColon(s: string) { ':' !in s }

  lemma FormatHasNoColon(n: int)
    ensures NoColon(FormatInt(n))
  {
  }

  lemma FormatInjective(a: int, b: int)
    requires FormatInt(a) == FormatInt(b)
    ensures a == b
  {
    DecimalRoundTrip(if a < 0 then -a else a);
    DecimalRoundTrip(if b < 0 then -b else b);
    assert a < 0 <==> FormatInt(a)[0] == '-';
    assert b < 0 <==> FormatInt(b)[0] == '-';
    if a < 0 { assert FormatInt(a)[1..] == Decimal(-a) && FormatInt(b)[1..] == Decimal(-b); }
  }

  lemma TailAfter(front: string, tail: string, k: nat)
    requires NoColon(tail) && k < |front| + 1 + |tail| && (front + ":" + tail)[k] == ':'
    ensures k <= |front|
  {
  }

  lemma HeadBefore(head: string, back: string, k: nat)
    requires NoColon(head) && k < |head| + 1 + |back| && (head + ":" + back)[k] == ':'
    ensures k >= |head|
  {
  }

  /** The last separator is where the colon-free tail begins. */
  lemma LastColon(front: string, tail: string, front2: string, tail2: string)
    requires NoColon(tail) && NoColon(tail2) && front + ":" + tail == front2 + ":" + tail2
    ensures front == front2 && tail == tail2
  {
    var s := front + ":" + tail;
    TailAfter(front, tail, |front2|);
    TailAfter(front2, tail2, |front|);
    assert front == s[..|front|] && tail == s[|front| + 1..];
  }

  /** The first separator is where the colon-free head ends. */
  lemma FirstColon(head: string, back: string, head2: string, back2: string)
    requires NoColon(head) && NoColon(head2) && head + ":" + back == head2 + ":" + back2
    ensures head == head2 && back == back2
  {
    var s := head + ":" + back;
    HeadBefore(head, back, |head2|);
    HeadBefore(head2, back2, |head|);
    assert head == s[..|head|] && back == s[|head| + 1..];
  }

  function Tail(kind: string, attempt: int): string { kind + ":" + FormatInt(attempt) }

  lemma KeyParts(lease: string, kind: string, attempt: int)
    ensures IdempotencyKey(lease, kind, attempt) == "mcp:" + (lease + ":" + Tail(kind, attempt))
  {
  }

  lemma TailInjective(kind: string, attempt: int, kind2: string, attempt2: int)
    requires Tail(kind, attempt) == Tail(kind2, attempt2)
    ensures kind == kind2 && attempt == attempt2
  {
    FormatHasNoColon(attempt);
    FormatHasNoColon(attempt2);
    LastColon(kind, FormatInt(attempt), kind2, FormatInt(attempt2));
    FormatInjective(attempt, attempt2);
  }

  /** Within one lease, whatever its id looks like, a key names one kind and attempt. */
  lemma KeyWithinLease(lease: string, kind: string, attempt: int, kind2: string, attempt2: int)
    ensures IdempotencyKey(lease, kind, attempt) == IdempotencyKey(lease, kind2, attempt2) <==> kind == kind2 && attempt == attempt2
  {
    if IdempotencyKey(lease, kind, attempt) == IdempotencyKey(lease, kind2, attempt2) {
      KeyParts(lease, kind, attempt);
      KeyParts(lease, kind2, attempt2);
      Chop("mcp:", lease + ":" + Tail(kind, attempt), lease + ":" + Tail(kind2, attempt2));
      Chop(lease + ":", Tail(kind, attempt), Tail(kind2, attempt2));
      TailInjective(kind, attempt, kind2, attempt2);
    }
  }

  lemma Chop(front: string, a: string, b: string)
    requires front + a == front + b
    ensures a == b
  {
    assert a == (front + a)[|front|..] && b == (front + b)[|front|..];
  }

  /** Across leases a key names lease, kind and attempt, given ids without a colon. */
  lemma KeyInjective(lease: string, kind: string, attempt: int, lease2: string, kind2: string, attempt2: int)
    requires NoColon(lease) && NoColon(lease2)
    ensures IdempotencyKey(lease, kind, attempt) == IdempotencyKey(lease2, kind2, attempt2)
            <==> lease == lease2 && kind == kind2 && attempt == attempt2
  {
    if IdempotencyKey(lease, kind, attempt) == IdempotencyKey(lease2, kind2, attempt2) {
      KeyParts(lease, kind, attempt);
      KeyParts(lease2, kind2, attempt2);
      Chop("mcp:", lease + ":" + Tail(kind, attempt), lease2 + ":" + Tail(kind2, attempt2));
      FirstColon(lease, Tail(kind, attempt), lease2, Tail(kind2, attempt2));
      TailInjective(kind, attempt, kind2, attempt2);
    }
  }

  // ----- What it means for claims -----

  function KindName(kind: Kind): string { if kind.EmailOTP? then "email_otp" else "magic_link" }

  ghost predicate Derived(key: string, lease: string, kind: Kind) {
    exists attempt: int :: key == IdempotencyKey(lease, KindName(kind), attempt)
  }

  /** Every claim of the run comes through the proxy; `ids` are the lease ids. */
  ghost predicate ThroughProxy(actions: seq<Action>, ids: seq<string>) {
    forall i :: 0 <= i < |actions| && actions[i].StartCall? ==>
      actions[i].lease < |ids| && Derived(actions[i].key, ids[actions[i].lease], actions[i].kind)
  }

  lemma ProxyKeysHaveOneKind(actions: seq<Action>, ids: seq<string>)
    requires ThroughProxy(actions, ids)
    ensures OneKindPerKey(actions)
  {
    forall i, j | 0 <= i < |actions| && 0 <= j < |actions| && actions[i].StartCall? && actions[j].StartCall?
                  && actions[i].lease == actions[j].lease && actions[i].key == actions[j].key
      ensures actions[i].kind == actions[j].kind
    {
      var id := ids[actions[i].lease];
      var a: int :| actions[i].key == IdempotencyKey(id, KindName(actions[i].kind), a);
      var b: int :| actions[j].key == IdempotencyKey(id, KindName(actions[j].kind), b);
      KeyWithinLease(id, KindName(actions[i].kind), a, KindName(actions[j].kind), b);
    }
  }

  /** Exactly once without a hypothesis: callers of the proxy never get one secret twice. */
  lemma ProxySecretHandedOnce(ttl: int, actions: seq<Action>, ids: seq<string>, i: nat, j: nat)
    requires ThroughProxy(actions, ids) && OkAnswer(Reached(ttl, actions), i) && OkAnswer(Reached(ttl, actions), j)
    requires Reached(ttl, actions).given[i].outcome.msg == Reached(ttl, actions).given[j].outcome.msg
    requires Reached(ttl, actions).given[i].kind == Reached(ttl, actions).given[j].kind
    ensures Reached(ttl, actions).given[i] == Reached(ttl, actions).given[j]
  {
    ProxyKeysHaveOneKind(actions, ids);
    SecretHandedOnce(ttl, actions, i, j);
  }
}
