/** The candidate read of a claim (internal/store/claims.go): which bound messages may back
    it, oldest first, and an account of every one that may not. */
module Candidates {
  import opened Base
  import opened Clock
  import opened Tables
  import opened Invariants

  datatype Verdict = Quarantined | Suspected | AlreadyClaimed | Stale | Unextracted | StillPending | Unreadable | Usable

  /** The first refusal that applies to a binding, in the order the read asks. */
  function Classify(db: Db, b: Binding, kind: Kind, notBefore: Option<Time>): Verdict
    requires b.msg < |db.messages|
  {
    var m := db.messages[b.msg];
    if m.quarantined then Quarantined
    else if !b.suspect.Clean? then Suspected
    else if IsClaimed(db.claims, b.msg, kind) then AlreadyClaimed
    else if notBefore.Some? && m.received < notBefore.value then Stale
    else if m.state.ExtractionFailed? then Unextracted
    else if !m.state.Success? then StillPending
    else if !m.extractionOpens then Unreadable
    else Usable
  }

  // ----- The rows of a lease -----

  /** The bindings of a lease whose message row exists: the join of the two tables. */
  function Joined(db: Db, n: nat, lease: nat): seq<Binding>
    requires n <= |db.bindings|
  {
    if n == 0 then []
    else
      var front := Joined(db, n - 1, lease);
      var b := db.bindings[n - 1];
      if b.lease == lease && b.msg < |db.messages| then front + [b] else front
  }

  function Received(db: Db, b: Binding): Time {
    if b.msg < |db.messages| then db.messages[b.msg].received else 0
  }

  /** ORDER BY received_at, id. */
  function Older(db: Db): (Binding, Binding) -> bool {
    (a: Binding, b: Binding) =>
      Received(db, a) < Received(db, b) || (Received(db, a) == Received(db, b) && a.msg <= b.msg)
  }

  function Rows(db: Db, lease: nat): seq<Binding> { Sort(Joined(db, |db.bindings|, lease), Older(db)) }

  lemma {:induction false} JoinedMeaning(db: Db, n: nat, lease: nat)
    requires n <= |db.bindings|
    ensures forall b :: b in Joined(db, n, lease) <==> b in db.bindings[..n] && b.lease == lease && b.msg < |db.messages|
  {
    if n > 0 {
      JoinedMeaning(db, n - 1, lease);
      assert db.bindings[..n] == db.bindings[..n - 1] + [db.bindings[n - 1]];
    }
  }

  lemma RowsMeaning(db: Db, lease: nat)
    ensures forall b :: b in Rows(db, lease) <==> b in db.bindings && b.lease == lease && b.msg < |db.messages|
    ensures SortedBy(Rows(db, lease), Older(db))
  {
    JoinedMeaning(db, |db.bindings|, lease);
    assert db.bindings[..|db.bindings|] == db.bindings;
    SortSorts(Joined(db, |db.bindings|, lease), Older(db));
  }

  // ----- The read -----

  datatype Rejections = Rejections(suspect: nat, alreadyClaimed: nat, stale: nat, extractionFail: nat, pending: nat, bindings: nat)

  const NO_REJECTIONS: Rejections := Rejections(0, 0, 0, 0, 0, 0)

  datatype ReadResult = ReadResult(out: seq<nat>, refused: Rejections)

  function Count(db: Db, rows: seq<Binding>, kind: Kind, notBefore: Option<Time>, v: Verdict): nat
    requires forall b :: b in rows ==> b.msg < |db.messages|
  {
    if rows == [] then 0
    else Count(db, rows[..|rows| - 1], kind, notBefore, v)
         + if Classify(db, rows[|rows| - 1], kind, notBefore) == v then 1 else 0
  }

  function UsableIds(db: Db, rows: seq<Binding>, kind: Kind, notBefore: Option<Time>): seq<nat>
    requires forall b :: b in rows ==> b.msg < |db.messages|
  {
    if rows == [] then []
    else
      var front := UsableIds(db, rows[..|rows| - 1], kind, notBefore);
      var b := rows[|rows| - 1];
      if Classify(db, b, kind, notBefore).Usable? then front + [b.msg] else front
  }

  /** What one pass over the rows answers: the usable messages and a count per refusal. */
  function Read(db: Db, rows: seq<Binding>, kind: Kind, notBefore: Option<Time>): ReadResult
    requires forall b :: b in rows ==> b.msg < |db.messages|
  {
    ReadResult(UsableIds(db, rows, kind, notBefore),
           Rejections(Count(db, rows, kind, notBefore, Suspected),
                      Count(db, rows, kind, notBefore, AlreadyClaimed),
                      Count(db, rows, kind, notBefore, Stale),
                      Count(db, rows, kind, notBefore, Unextracted) + Count(db, rows, kind, notBefore, Unreadable),
                      Count(db, rows, kind, notBefore, StillPending),
                      |rows|))
  }

  function ReadLease(db: Db, lease: nat, kind: Kind, notBefore: Option<Time>): ReadResult {
    RowsMeaning(db, lease);
    Read(db, Rows(db, lease), kind, notBefore)
  }

  /** LIMIT n, where 0 is no limit. */
  function Limited(rows: seq<Binding>, limit: nat): (r: seq<Binding>)
    ensures forall b :: b in r ==> b in rows
    ensures r <= rows && |r| == if limit == 0 then |rows| else Min(limit, |rows|)
  {
    if 0 < limit < |rows| then rows[..limit] else rows
  }

  function ReadLimited(db: Db, lease: nat, kind: Kind, notBefore: Option<Time>, limit: nat): ReadResult {
    RowsMeaning(db, lease);
    Read(db, Limited(Rows(db, lease), limit), kind, notBefore)
  }

  /** Every row lands in exactly one place: a candidate, a counted refusal, or quarantine. */
  lemma {:induction false} Accounting(db: Db, rows: seq<Binding>, kind: Kind, notBefore: Option<Time>)
    requires forall b :: b in rows ==> b.msg < |db.messages|
    ensures var a := Read(db, rows, kind, notBefore);
            a.refused.bindings == |a.out| + a.refused.suspect + a.refused.alreadyClaimed + a.refused.stale
                                  + a.refused.extractionFail + a.refused.pending
                                  + Count(db, rows, kind, notBefore, Quarantined)
  {
    if rows != [] { Accounting(db, rows[..|rows| - 1], kind, notBefore); }
  }

  lemma {:induction false} CountPositive(db: Db, rows: seq<Binding>, kind: Kind, notBefore: Option<Time>, v: Verdict)
    requires forall b :: b in rows ==> b.msg < |db.messages|
    ensures Count(db, rows, kind, notBefore, v) > 0 <==> exists b :: b in rows && Classify(db, b, kind, notBefore) == v
  {
    if rows != [] {
      CountPositive(db, rows[..|rows| - 1], kind, notBefore, v);
      assert rows == rows[..|rows| - 1] + [rows[|rows| - 1]];
    }
  }

  lemma {:induction false} UsableMeaning(db: Db, rows: seq<Binding>, kind: Kind, notBefore: Option<Time>)
    requires forall b :: b in rows ==> b.msg < |db.messages|
    ensures forall m :: m in UsableIds(db, rows, kind, notBefore)
              <==> exists b :: b in rows && b.msg == m && Classify(db, b, kind, notBefore).Usable?
  {
    if rows != [] {
      UsableMeaning(db, rows[..|rows| - 1], kind, notBefore);
      assert rows == rows[..|rows| - 1] + [rows[|rows| - 1]];
    }
  }

  ghost predicate OldestFirst(db: Db, ids: seq<nat>) {
    && (forall i :: 0 <= i < |ids| ==> ids[i] < |db.messages|)
    && (forall i, j :: 0 <= i < j < |ids| ==>
          db.messages[ids[i]].received < db.messages[ids[j]].received
          || (db.messages[ids[i]].received == db.messages[ids[j]].received && ids[i] <= ids[j]))
  }

  lemma {:induction false} UsableOrder(db: Db, rows: seq<Binding>, kind: Kind, notBefore: Option<Time>)
    requires forall b :: b in rows ==> b.msg < |db.messages|
    requires SortedBy(rows, Older(db))
    ensures OldestFirst(db, UsableIds(db, rows, kind, notBefore))
    ensures rows != [] ==> forall k :: 0 <= k < |UsableIds(db, rows, kind, notBefore)| ==>
              var m := UsableIds(db, rows, kind, notBefore)[k];
              var last := rows[|rows| - 1];
              m < |db.messages| && (db.messages[m].received < Received(db, last)
                                    || (db.messages[m].received == Received(db, last) && m <= last.msg))
  {
    if rows != [] {
      var n := |rows| - 1;
      UsableOrder(db, rows[..n], kind, notBefore);
      if n > 0 { assert Older(db)(rows[n - 1], rows[n]); }
    }
  }

  /** A message is a candidate exactly when it is claimable apart from its value, is not
      claimed for this kind yet, and its extraction can be read. Candidates come oldest
      first. */
  lemma CandidatesMeaning(db: Db, lease: nat, kind: Kind, notBefore: Option<Time>)
    ensures forall m: nat :: m in ReadLease(db, lease, kind, notBefore).out <==>
              && m < |db.messages| && CleanlyBound(db, m, lease) && !db.messages[m].quarantined
              && !IsClaimed(db.claims, m, kind)
              && (notBefore.Some? ==> notBefore.value <= db.messages[m].received)
              && db.messages[m].state.Success? && db.messages[m].extractionOpens
    ensures OldestFirst(db, ReadLease(db, lease, kind, notBefore).out)
  {
    RowsMeaning(db, lease);
    var rows := Rows(db, lease);
    UsableMeaning(db, rows, kind, notBefore);
    UsableOrder(db, rows, kind, notBefore);
    forall m: nat | m < |db.messages|
      ensures CleanlyBound(db, m, lease) <==> exists b :: b in rows && b.msg == m && b.suspect.Clean?
    {
      if CleanlyBound(db, m, lease) {
        var i :| 0 <= i < |db.bindings| && db.bindings[i].msg == m && db.bindings[i].lease == lease && db.bindings[i].suspect.Clean?;
        assert db.bindings[i] in rows;
      }
      if b :| b in rows && b.msg == m && b.suspect.Clean? {
        var i :| 0 <= i < |db.bindings| && db.bindings[i] == b;
        assert db.bindings[i].msg == m;
      }
    }
  }

  // ----- The explanation -----

  datatype Reason = ClaimOK | Timeout | NoBinding | StaleFiltered | SuspectBinding | ClaimedAlready
                  | ClaimExpired | NotHeld | SeedNotReady | RunNotRunning | ExtractionFail

  /** The reason of a claim that ran out of time with nothing to take, most specific first. */
  function Explain(refused: Rejections): Reason {
    if refused.suspect > 0 then SuspectBinding
    else if refused.alreadyClaimed > 0 then ClaimedAlready
    else if refused.stale > 0 then StaleFiltered
    else if refused.extractionFail > 0 then ExtractionFail
    else if refused.bindings == 0 then NoBinding
    else Timeout
  }

  /** The message was not refused for a reason worth reporting. */
  predicate Open(db: Db, b: Binding, kind: Kind, notBefore: Option<Time>) {
    b.msg < |db.messages| && Classify(db, b, kind, notBefore) in {Quarantined, StillPending, Usable}
  }

  ghost predicate AllOpen(db: Db, lease: nat, kind: Kind, notBefore: Option<Time>) {
    forall b :: b in db.bindings && b.lease == lease ==> Open(db, b, kind, notBefore)
  }

  ghost predicate AnyBound(db: Db, lease: nat) { exists b :: b in db.bindings && b.lease == lease }

  lemma NothingReported(db: Db, rows: seq<Binding>, kind: Kind, notBefore: Option<Time>)
    requires forall b :: b in rows ==> b.msg < |db.messages|
    ensures var r := Read(db, rows, kind, notBefore).refused;
            r.suspect == r.alreadyClaimed == r.stale == r.extractionFail == 0
            <==> forall b :: b in rows ==> Open(db, b, kind, notBefore)
  {
    CountPositive(db, rows, kind, notBefore, Suspected);
    CountPositive(db, rows, kind, notBefore, AlreadyClaimed);
    CountPositive(db, rows, kind, notBefore, Stale);
    CountPositive(db, rows, kind, notBefore, Unextracted);
    CountPositive(db, rows, kind, notBefore, Unreadable);
  }

  lemma RowsOfLease(db: Db, lease: nat)
    requires BindingsOk(db)
    ensures forall b :: b in Rows(db, lease) <==> b in db.bindings && b.lease == lease
    ensures forall b :: b in Rows(db, lease) ==> b.msg < |db.messages|
    ensures AnyBound(db, lease) <==> Rows(db, lease) != []
  {
    RowsMeaning(db, lease);
    forall b | b in db.bindings ensures b.msg < |db.messages| {
      var i :| 0 <= i < |db.bindings| && db.bindings[i] == b;
      assert BindingOk(db, db.bindings[i]);
    }
    if Rows(db, lease) != [] { assert Rows(db, lease)[0] in Rows(db, lease); }
  }

  lemma OpenRows(db: Db, lease: nat, kind: Kind, notBefore: Option<Time>)
    requires BindingsOk(db)
    ensures AllOpen(db, lease, kind, notBefore) <==> forall b :: b in Rows(db, lease) ==> Open(db, b, kind, notBefore)
  {
    RowsOfLease(db, lease);
  }

  /** "Nothing bound" is reported exactly when no message is bound to the lease, and a bare
      timeout exactly when something is and each bound message is quarantined, pending, or
      was a candidate of the same read. */
  lemma ExplainMeaning(db: Db, lease: nat, kind: Kind, notBefore: Option<Time>)
    requires BindingsOk(db)
    ensures var refused := ReadLease(db, lease, kind, notBefore).refused;
            && (Explain(refused).NoBinding? <==> !AnyBound(db, lease))
            && (Explain(refused).Timeout? <==> AnyBound(db, lease) && AllOpen(db, lease, kind, notBefore))
  {
    RowsOfLease(db, lease);
    OpenRows(db, lease, kind, notBefore);
    NothingReported(db, Rows(db, lease), kind, notBefore);
  }
}
