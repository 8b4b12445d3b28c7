/** Ingest (internal/smtp/ingest.go): store and acknowledge, settle each message to one
    terminal state and then announce it, and complete at startup what a crash left pending. */
module Ingest {
  import opened Base
  import opened Clock
  import opened Tables
  import opened Invariants
  import opened Correlation
  import opened Stores

  /** What the outside does to a message: whether its parts can be reread, what the
      extractor returns (nothing when it panics), and which of the two writes go through. */
  datatype Fate = Fate(readable: bool, result: Option<Extraction>, setWrites: bool, failWrites: bool)

  /** The terminal state a settlement reaches, or none when no write goes through. */
  function Terminal(f: Fate): Option<ExtractionState> {
    if f.readable && f.result.Some? && f.setWrites then Some(Success(f.result.value))
    else if f.failWrites then Some(ExtractionFailed)
    else None
  }

  function PendingIds(messages: seq<Message>, n: nat): seq<nat>
    requires n <= |messages|
  {
    if n == 0 then []
    else PendingIds(messages, n - 1) + if messages[n - 1].state.Pending? then [n - 1] else []
  }

  /** ORDER BY received_at, id. */
  function OlderMessage(messages: seq<Message>): (nat, nat) -> bool {
    (a: nat, b: nat) =>
      if a < |messages| && b < |messages|
      then messages[a].received < messages[b].received || (messages[a].received == messages[b].received && a <= b)
      else b >= |messages| && (a < |messages| || a <= b)
  }

  function Backlog(messages: seq<Message>): seq<nat> { Sort(PendingIds(messages, |messages|), OlderMessage(messages)) }

  lemma {:induction false} PendingMeaning(messages: seq<Message>, n: nat)
    requires n <= |messages|
    ensures forall m: nat :: m in PendingIds(messages, n) <==> m < n && messages[m].state.Pending?
    ensures forall i, j :: 0 <= i < j < |PendingIds(messages, n)| ==> PendingIds(messages, n)[i] < PendingIds(messages, n)[j]
  {
    if n > 0 {
      PendingMeaning(messages, n - 1);
      var front := PendingIds(messages, n - 1);
      assert forall i :: 0 <= i < |front| ==> front[i] in front;
    }
  }

  lemma {:induction false} DistinctByCount(s: seq<nat>)
    ensures Distinct(s) <==> forall x :: multiset(s)[x] <= 1
  {
    if s != [] {
      var n := |s| - 1;
      DistinctByCount(s[..n]);
      assert s == s[..n] + [s[n]];
      assert multiset(s) == multiset(s[..n]) + multiset{s[n]};
      if Distinct(s) {
        assert s[n] !in s[..n];
        assert multiset(s[..n])[s[n]] == 0;
      } else if Distinct(s[..n]) {
        var i, j :| 0 <= i < j < |s| && s[i] == s[j];
        assert s[i] == s[..n][i] && s[n] in s[..n];
        assert multiset(s)[s[n]] >= 2;
      } else {
        var x :| multiset(s[..n])[x] > 1;
        assert multiset(s)[x] > 1;
      }
    }
  }

  predicate ComesBefore(messages: seq<Message>, a: nat, b: nat) {
    && a < |messages| && b < |messages|
    && (messages[a].received < messages[b].received || (messages[a].received == messages[b].received && a < b))
  }

  predicate OldestFirst(messages: seq<Message>, ids: seq<nat>) {
    forall i, j :: 0 <= i < j < |ids| ==> ComesBefore(messages, ids[i], ids[j])
  }

  /** The backlog is every pending message once, oldest first. */
  lemma BacklogMeaning(messages: seq<Message>)
    ensures forall m: nat :: m in Backlog(messages) <==> m < |messages| && messages[m].state.Pending?
    ensures Distinct(Backlog(messages)) && OldestFirst(messages, Backlog(messages))
  {
    var ids := PendingIds(messages, |messages|);
    PendingMeaning(messages, |messages|);
    SortSorts(ids, OlderMessage(messages));
    DistinctByCount(ids);
    DistinctByCount(Backlog(messages));
    var backlog := Backlog(messages);
    forall i, j | 0 <= i < j < |backlog| ensures ComesBefore(messages, backlog[i], backlog[j]) {
      assert OlderMessage(messages)(backlog[i], backlog[j]);
      assert backlog[i] in backlog && backlog[j] in backlog;
    }
  }

  /** The tables after a settlement: a pending row takes its terminal state, and every other
      row, and a row already settled, stays. */
  function Settled(messages: seq<Message>, msg: nat, t: Option<ExtractionState>): seq<Message> {
    if msg < |messages| && messages[msg].state.Pending? && t.Some? then messages[msg := messages[msg].(state := t.value)] else messages
  }

  function Announced(messages: seq<Message>, msg: nat, t: Option<ExtractionState>): seq<nat> {
    if msg < |messages| && messages[msg].state.Pending? && t.Some? then [msg] else []
  }

  /** What becomes of one row: a pending one succeeds with exactly what the extractor returned
      when its message could be read and the write went through, fails when that is not so and
      the other write went through, and stays pending otherwise. A settled row stays. */
  ghost predicate Fated(before: Message, after: Message, f: Fate) {
    && after == before.(state := after.state)
    && (!before.state.Pending? ==> after.state == before.state)
    && (before.state.Pending? ==>
          && (forall v :: after.state == Success(v) <==> f.readable && f.setWrites && f.result == Some(v))
          && (after.state.ExtractionFailed? <==> f.failWrites && !(f.readable && f.setWrites && f.result.Some?))
          && (after.state.Pending? <==> !f.failWrites && !(f.readable && f.setWrites && f.result.Some?)))
  }

  /** One row is settled as its fate says, announced exactly when this moved it, and every
      other row stays. */
  ghost predicate OneFated(before: seq<Message>, after: seq<Message>, heard: seq<nat>, msg: nat, f: Fate) {
    && |after| == |before| && (forall m :: 0 <= m < |before| && m != msg ==> after[m] == before[m])
    && (msg < |before| ==> Fated(before[msg], after[msg], f))
    && heard == if msg < |before| && after[msg] != before[msg] then [msg] else []
  }

  lemma SettledIsFated(before: seq<Message>, msg: nat, f: Fate)
    ensures OneFated(before, Settled(before, msg, Terminal(f)), Announced(before, msg, Terminal(f)), msg, f)
  {
  }

  /** Every scanned row is settled as its fate says, and every other row stays. */
  ghost predicate AllFated(before: seq<Message>, after: seq<Message>, scanned: seq<nat>, fates: nat -> Fate) {
    && |after| == |before|
    && (forall m: nat :: m < |before| ==> if m in scanned then Fated(before[m], after[m], fates(m)) else after[m] == before[m])
  }

  /** After recovering the first k of the backlog: each of those is settled as its fate says. */
  ghost predicate Recovered(before: seq<Message>, after: seq<Message>, done: seq<nat>, fates: nat -> Fate) {
    && |after| == |before|
    && (forall m :: 0 <= m < |before| ==>
          after[m] == if m in done && Terminal(fates(m)).Some? then before[m].(state := Terminal(fates(m)).value) else before[m])
  }

  function Heard(done: seq<nat>, fates: nat -> Fate): seq<nat> {
    if done == [] then []
    else Heard(done[..|done| - 1], fates) + if Terminal(fates(done[|done| - 1])).Some? then [done[|done| - 1]] else []
  }

  lemma {:induction false} HeardAll(done: seq<nat>, fates: nat -> Fate)
    requires forall m :: m in done ==> Terminal(fates(m)).Some?
    ensures Heard(done, fates) == done
  {
    if done != [] {
      HeardAll(done[..|done| - 1], fates);
      assert done == done[..|done| - 1] + [done[|done| - 1]];
    }
  }

  lemma RecoveredIsFated(before: seq<Message>, after: seq<Message>, done: seq<nat>, fates: nat -> Fate)
    requires Recovered(before, after, done, fates) && forall m :: m in done ==> m < |before| && before[m].state.Pending?
    ensures AllFated(before, after, done, fates)
  {
  }

  /** What recovery announces, in order: exactly the scanned rows that it moved. */
  lemma {:induction false} HeardIsMoved(before: seq<Message>, after: seq<Message>, scanned: seq<nat>, done: seq<nat>, fates: nat -> Fate)
    requires Recovered(before, after, scanned, fates) && done <= scanned
    requires forall m :: m in scanned ==> m < |before| && before[m].state.Pending?
    ensures Heard(done, fates) == Moved(before, after, done)
    decreases |done|
  {
    if done != [] {
      var n := |done| - 1;
      assert done[n] == scanned[n] && scanned[n] in scanned;
      HeardIsMoved(before, after, scanned, done[..n], fates);
    }
  }

  function Moved(before: seq<Message>, after: seq<Message>, ids: seq<nat>): seq<nat> {
    if ids == [] then []
    else
      var m := ids[|ids| - 1];
      Moved(before, after, ids[..|ids| - 1]) + if m < |before| && m < |after| && after[m] != before[m] then [m] else []
  }

  ghost predicate Writable(ids: seq<nat>, fates: nat -> Fate) { forall m :: m in ids ==> fates(m).failWrites }

  predicate NonePending(messages: seq<Message>) { forall m :: 0 <= m < |messages| ==> !messages[m].state.Pending? }

  lemma RecoverStep(before: seq<Message>, mid: seq<Message>, done: seq<nat>, m: nat, fates: nat -> Fate)
    requires Recovered(before, mid, done, fates) && m < |before| && before[m].state.Pending? && m !in done
    ensures Recovered(before, Settled(mid, m, Terminal(fates(m))), done + [m], fates)
    ensures Heard(done + [m], fates) == Heard(done, fates) + Announced(mid, m, Terminal(fates(m)))
  {
    assert (done + [m])[..|done|] == done;
  }

  lemma RecoverAt(before: seq<Message>, mid: seq<Message>, scanned: seq<nat>, k: nat, fates: nat -> Fate)
    requires scanned == Backlog(before) && k < |scanned| && Recovered(before, mid, scanned[..k], fates)
    ensures var m := scanned[k];
            && Recovered(before, Settled(mid, m, Terminal(fates(m))), scanned[..k + 1], fates)
            && Heard(scanned[..k + 1], fates) == Heard(scanned[..k], fates) + Announced(mid, m, Terminal(fates(m)))
  {
    BacklogMeaning(before);
    assert scanned[..k + 1] == scanned[..k] + [scanned[k]];
    assert scanned[k] in scanned && scanned[k] !in scanned[..k];
    RecoverStep(before, mid, scanned[..k], scanned[k], fates);
  }

  lemma NothingLeft(before: seq<Message>, after: seq<Message>, fates: nat -> Fate)
    requires Recovered(before, after, Backlog(before), fates)
    requires Writable(Backlog(before), fates)
    ensures NonePending(after) && Heard(Backlog(before), fates) == Backlog(before)
  {
    BacklogMeaning(before);
    HeardAll(Backlog(before), fates);
  }

  class Pipeline {
    const store: Store
    var queue: seq<nat>
    var announced: seq<nat>

    constructor (store: Store)
      ensures this.store == store && queue == [] && announced == []
    {
      this.store, queue, announced := store, [], [];
    }

    /** The answer is Ok exactly when the blobs, the arrival trail and the transaction went through; from then on
        the message is stored pending, whether or not the queue still took it. */
    method Deliver(m: Message, blobsSynced: bool, trailWritten: bool, stopping: bool) returns (acked: Result<nat, ()>)
      requires BindingsOk(store.State()) && m.state.Pending?
      modifies this`queue, store`messages, store`bindings
      ensures acked.Ok? <==> blobsSynced && trailWritten && Tables.Deliver(old(store.State()), m).1.Ok?
      ensures acked.Ok? ==> acked.value == |old(store.messages)| && store.messages == old(store.messages) + [m]
                            && store.State() == Tables.Deliver(old(store.State()), m).0
      ensures acked.Err? ==> store.State() == old(store.State())
      ensures queue == if acked.Ok? && !stopping then old(queue) + [acked.value] else old(queue)
    {
      if !blobsSynced { return Err(()); }
      // A failed insert or trail rolls the transaction back before anything is bound.
      if !trailWritten { return Err(()); }
      var stored, unbound := store.Deliver(m);
      if stored.Err? { return Err(()); }
      if !stopping { queue := queue + [stored.value]; }
      return Ok(stored.value);
    }

    method Publish(msg: nat)
      modifies this`announced
      ensures announced == old(announced) + [msg]
    {
      announced := announced + [msg];
    }

    method Fail(msg: nat, writes: bool)
      modifies this`announced, store`messages
      ensures var t := if writes then Some(ExtractionFailed) else None;
              store.messages == Settled(old(store.messages), msg, t) && announced == old(announced) + Announced(old(store.messages), msg, t)
    {
      if !writes { return; }
      var r := store.SettleExtraction(msg, ExtractionFailed);
      if r.Err? { return; }
      Publish(msg);
    }

    /** Settles to exactly one terminal state and announces exactly when this call was the
        one that moved the row; losing the race to another settler announces nothing. */
    method Settle(msg: nat, f: Fate)
      requires f.readable
      modifies this`announced, store`messages
      ensures store.messages == Settled(old(store.messages), msg, Terminal(f))
      ensures announced == old(announced) + Announced(old(store.messages), msg, Terminal(f))
      ensures old(announced) <= announced && OneFated(old(store.messages), store.messages, announced[|old(announced)|..], msg, f)
    {
      SettledIsFated(store.messages, msg, f);
      if f.result.None? || !f.setWrites {
        Fail(msg, f.failWrites);
        return;
      }
      var r := store.SettleExtraction(msg, Success(f.result.value));
      if r == Err(ExtractionSettled) { return; }
      if r.Err? {
        Fail(msg, f.failWrites);
        return;
      }
      Publish(msg);
    }

    /** Recovery's turn for one row: what cannot be reread is settled failed. */
    method Complete(msg: nat, f: Fate)
      modifies this`announced, store`messages
      ensures store.messages == Settled(old(store.messages), msg, Terminal(f))
      ensures announced == old(announced) + Announced(old(store.messages), msg, Terminal(f))
      ensures old(announced) <= announced && OneFated(old(store.messages), store.messages, announced[|old(announced)|..], msg, f)
    {
      SettledIsFated(store.messages, msg, f);
      if !f.readable {
        Fail(msg, f.failWrites);
      } else {
        Settle(msg, f);
      }
    }

    /** Completes the backlog, oldest first: every scanned row that a write reaches leaves
        pending and is announced once, after it settled; nothing else changes. When the
        writes go through, nothing is left pending. */
    method Recover(fates: nat -> Fate) returns (scanned: seq<nat>)
      modifies this`announced, store`messages
      ensures scanned == Backlog(old(store.messages))
      ensures Recovered(old(store.messages), store.messages, scanned, fates)
      ensures announced == old(announced) + Heard(scanned, fates)
      ensures AllFated(old(store.messages), store.messages, scanned, fates)
      ensures announced == old(announced) + Moved(old(store.messages), store.messages, scanned)
      ensures Writable(scanned, fates) ==> announced == old(announced) + scanned && NonePending(store.messages)
    {
      ghost var before := store.messages;
      scanned := Backlog(store.messages);
      for k := 0 to |scanned|
        invariant Recovered(before, store.messages, scanned[..k], fates)
        invariant announced == old(announced) + Heard(scanned[..k], fates)
      {
        RecoverAt(before, store.messages, scanned, k, fates);
        Complete(scanned[k], fates(scanned[k]));
      }
      assert scanned[..|scanned|] == scanned;
      BacklogMeaning(before);
      RecoveredIsFated(before, store.messages, scanned, fates);
      HeardIsMoved(before, store.messages, scanned, scanned, fates);
      if Writable(scanned, fates) { NothingLeft(before, store.messages, fates); }
    }
  }
}
