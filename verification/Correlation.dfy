/** Whose mail a message is: the binding written with it, when the store refuses to write
    it, and the transactions that settle and claim a bound message. */
module Correlation {
  import opened Base
  import opened Clock
  import opened Tables
  import opened Invariants

  /** The doubt a binding carries, each exactly under its own condition: a cooldown first, then
      what an ephemeral address can still say, then a missing or too early origin, and only
      then that the lease had ended. Origins are compared in whole seconds. */
  ghost predicate JudgedBy(l: Lease, mode: Mode, origin: Option<Time>, suspect: Suspicion) {
    var second := l.acquired - l.acquired % 1_000_000_000;
    && (suspect.Cooldown? <==> l.inCooldown)
    && (suspect.OriginUnknown? <==> !l.inCooldown && mode.Pooled? && origin.None?)
    && (suspect.PredatesLease? <==> !l.inCooldown && mode.Pooled? && origin.Some? && origin.value < second)
    && (suspect.AfterRelease? <==> !l.inCooldown && l.released.Some? && (mode.Pooled? ==> origin.Some? && second <= origin.value))
    && (suspect.Clean? <==> !l.inCooldown && l.released.None? && (mode.Pooled? ==> origin.Some? && second <= origin.value))
  }

  ghost predicate Judged(db: Db, m: Message, b: Binding) {
    && b.lease < |db.leases| && db.leases[b.lease].identity < |db.identities|
    && JudgedBy(db.leases[b.lease], db.identities[db.leases[b.lease].identity].mode, m.origin, b.suspect)
  }

  /** One binding row of a message: it names the lease that owned its address, and is judged
      against that lease. */
  ghost predicate RightRow(db: Db, msg: nat, m: Message, b: Binding) {
    && b.addr != "" && OwnsAddress(db, b.lease, b.addr, m.received) && Judged(db, m, b)
    && b.msg == msg && b.run == db.leases[b.lease].run && b.identity == db.leases[b.lease].identity
  }

  lemma RowForIsRight(db: Db, msg: nat, m: Message, addr: string, lease: nat)
    requires addr != "" && OwnsAddress(db, lease, addr, m.received)
    ensures RightRow(db, msg, m, RowFor(db, msg, m, addr, lease))
  {
    assert Truncate(db.leases[lease].acquired, SECOND) == db.leases[lease].acquired - db.leases[lease].acquired % 1_000_000_000;
  }

  ghost predicate HasOwner(db: Db, addr: string, at: Time) {
    exists i :: 0 <= i < |db.leases| && OwnsAddress(db, i, addr, at)
  }

  ghost predicate BoundTo(rows: seq<Binding>, addr: string) {
    exists i :: 0 <= i < |rows| && rows[i].addr == addr
  }

  ghost predicate RightRows(db: Db, msg: nat, m: Message, k: nat, rows: seq<Binding>)
    requires k <= |m.envelope|
  {
    && (forall i :: 0 <= i < |rows| ==> RightRow(db, msg, m, rows[i]) && rows[i].addr in m.envelope[..k])
    && (forall i, j :: 0 <= i < j < |rows| ==> rows[i].lease != rows[j].lease)
  }

  ghost predicate Answered(db: Db, m: Message, addr: string, b: Bound) {
    addr == "" || if HasOwner(db, addr, m.received) then BoundTo(b.bindings, addr) else addr in b.unbound
  }

  /** Every owned recipient is bound to its owner and every other one is reported unbound. */
  ghost predicate Resolved(db: Db, msg: nat, m: Message, k: nat, b: Bound)
    requires k <= |m.envelope|
  {
    && RightRows(db, msg, m, k, b.bindings)
    && (forall i :: 0 <= i < k ==> Answered(db, m, m.envelope[i], b))
    && (forall a :: a in b.unbound ==> a in m.envelope[..k] && !HasOwner(db, a, m.received))
  }

  lemma AnsweredMore(db: Db, m: Message, addr: string, b: Bound, rows: seq<Binding>, unbound: seq<string>)
    requires Answered(db, m, addr, b)
    ensures Answered(db, m, addr, Bound(b.bindings + rows, b.unbound + unbound))
  {
    if addr != "" && HasOwner(db, addr, m.received) {
      var i :| 0 <= i < |b.bindings| && b.bindings[i].addr == addr;
      assert (b.bindings + rows)[i] == b.bindings[i];
    }
  }

  lemma ResolvedSkip(db: Db, msg: nat, m: Message, k: nat, front: Bound)
    requires k < |m.envelope| && Resolved(db, msg, m, k, front)
    requires m.envelope[k] == "" || m.envelope[k] in m.envelope[..k]
    ensures Resolved(db, msg, m, k + 1, front)
  {
    assert m.envelope[..k + 1] == m.envelope[..k] + [m.envelope[k]];
    if m.envelope[k] in m.envelope[..k] {
      var j :| 0 <= j < k && m.envelope[j] == m.envelope[k];
    }
  }

  lemma ResolvedUnbound(db: Db, msg: nat, m: Message, k: nat, front: Bound)
    requires k < |m.envelope| && Resolved(db, msg, m, k, front)
    requires !HasOwner(db, m.envelope[k], m.received)
    ensures Resolved(db, msg, m, k + 1, front.(unbound := front.unbound + [m.envelope[k]]))
  {
    assert m.envelope[..k + 1] == m.envelope[..k] + [m.envelope[k]];
    forall i | 0 <= i < k ensures Answered(db, m, m.envelope[i], front.(unbound := front.unbound + [m.envelope[k]])) {
      AnsweredMore(db, m, m.envelope[i], front, [], [m.envelope[k]]);
      assert front.bindings + [] == front.bindings;
    }
  }

  lemma ResolvedRow(db: Db, msg: nat, m: Message, k: nat, front: Bound, lease: nat)
    requires k < |m.envelope| && Resolved(db, msg, m, k, front)
    requires m.envelope[k] != "" && OwnsAddress(db, lease, m.envelope[k], m.received)
    requires !LeaseBound(front.bindings, lease)
    ensures Resolved(db, msg, m, k + 1, front.(bindings := front.bindings + [RowFor(db, msg, m, m.envelope[k], lease)]))
  {
    var row := RowFor(db, msg, m, m.envelope[k], lease);
    var next := front.(bindings := front.bindings + [row]);
    assert m.envelope[..k + 1] == m.envelope[..k] + [m.envelope[k]];
    RowForIsRight(db, msg, m, m.envelope[k], lease);
    assert next.bindings[|front.bindings|] == row && RightRow(db, msg, m, row);
    assert HasOwner(db, m.envelope[k], m.received) && BoundTo(next.bindings, m.envelope[k]);
    forall i | 0 <= i < k ensures Answered(db, m, m.envelope[i], next) {
      AnsweredMore(db, m, m.envelope[i], front, [row], []);
      assert front.unbound + [] == front.unbound;
    }
  }

  lemma BindOneMeaning(db: Db, msg: nat, m: Message, k: nat, front: Bound)
    requires k < |m.envelope| && Resolved(db, msg, m, k, front)
    ensures BindOne(db, msg, m, k, front).Some? ==> Resolved(db, msg, m, k + 1, BindOne(db, msg, m, k, front).value)
  {
    var addr := m.envelope[k];
    var owner := LeaseAt(db, |db.leases|, addr, m.received);
    if addr == "" || addr in m.envelope[..k] {
      ResolvedSkip(db, msg, m, k, front);
    } else if owner.None? {
      ResolvedUnbound(db, msg, m, k, front);
    } else if !LeaseBound(front.bindings, owner.value) {
      ResolvedRow(db, msg, m, k, front, owner.value);
    }
  }

  lemma {:induction false} BindMeaning(db: Db, msg: nat, m: Message, k: nat)
    requires k <= |m.envelope|
    ensures BindRecipients(db, msg, m, k).Some? ==> Resolved(db, msg, m, k, BindRecipients(db, msg, m, k).value)
  {
    if k == 0 {
      NothingResolved(db, msg, m);
    } else {
      BindMeaning(db, msg, m, k - 1);
      BindNext(db, msg, m, k - 1, BindRecipients(db, msg, m, k - 1));
    }
  }

  lemma NothingResolved(db: Db, msg: nat, m: Message)
    ensures BindRecipients(db, msg, m, 0) == Some(Bound([], [])) && Resolved(db, msg, m, 0, Bound([], []))
  {
  }

  lemma BindUnfolds(db: Db, msg: nat, m: Message, k: nat, front: Option<Bound>)
    requires k < |m.envelope| && front == BindRecipients(db, msg, m, k)
    ensures BindRecipients(db, msg, m, k + 1) == if front.None? then None else BindOne(db, msg, m, k, front.value)
  {
  }

  lemma BindNext(db: Db, msg: nat, m: Message, k: nat, front: Option<Bound>)
    requires k < |m.envelope| && front == BindRecipients(db, msg, m, k)
    requires front.Some? ==> Resolved(db, msg, m, k, front.value)
    ensures BindRecipients(db, msg, m, k + 1).Some? ==> Resolved(db, msg, m, k + 1, BindRecipients(db, msg, m, k + 1).value)
  {
    BindUnfolds(db, msg, m, k, front);
    if front.Some? { BindOneMeaning(db, msg, m, k, front.value); }
  }

  /** Two recipients that are different strings but one owned address under the collation. */
  ghost predicate Clash(db: Db, m: Message, i: nat, j: nat)
    requires i < |m.envelope| && j < |m.envelope|
  {
    && m.envelope[i] != m.envelope[j] && m.envelope[i] != "" && m.envelope[j] != ""
    && SameAddress(m.envelope[i], m.envelope[j]) && HasOwner(db, m.envelope[i], m.received)
  }

  ghost predicate ClashWithin(db: Db, m: Message, k: nat)
    requires k <= |m.envelope|
  {
    exists i, j :: 0 <= i < j < k && Clash(db, m, i, j)
  }

  lemma OwnerFollowsCollation(db: Db, a: string, b: string, at: Time)
    requires SameAddress(a, b) && HasOwner(db, a, at)
    ensures HasOwner(db, b, at)
  {
    var i :| 0 <= i < |db.leases| && OwnsAddress(db, i, a, at);
    assert OwnsAddress(db, i, b, at);
  }

  /** A delivery is refused exactly when its envelope names one owned address in two
      spellings: the row for the second spelling has the key of the first. */
  lemma {:induction false} BindRefusedIff(db: Db, msg: nat, m: Message, k: nat)
    requires k <= |m.envelope| && Timeline(db.leases) && AddressesUnique(db.identities)
    ensures BindRecipients(db, msg, m, k).None? <==> ClashWithin(db, m, k)
  {
    if k > 0 {
      BindRefusedIff(db, msg, m, k - 1);
      BindMeaning(db, msg, m, k - 1);
      var front := BindRecipients(db, msg, m, k - 1);
      var addr := m.envelope[k - 1];
      ClashGrows(db, m, k);
      if front.None? || addr == "" {
      } else if addr in m.envelope[..k - 1] {
        LastIsRepeat(db, m, k);
      } else {
        LastIsNew(db, msg, m, k);
      }
    }
  }

  lemma ClashGrows(db: Db, m: Message, k: nat)
    requires 0 < k <= |m.envelope|
    ensures ClashWithin(db, m, k - 1) ==> ClashWithin(db, m, k)
    ensures m.envelope[k - 1] == "" && ClashWithin(db, m, k) ==> ClashWithin(db, m, k - 1)
  {
    if ClashWithin(db, m, k - 1) {
      var i, j :| 0 <= i < j < k - 1 && Clash(db, m, i, j);
      assert Clash(db, m, i, j) && j < k;
    }
    if m.envelope[k - 1] == "" && ClashWithin(db, m, k) {
      var i, j :| 0 <= i < j < k && Clash(db, m, i, j);
      assert j < k - 1;
    }
  }

  /** A recipient already seen verbatim cannot clash with anything new. */
  lemma LastIsRepeat(db: Db, m: Message, k: nat)
    requires 0 < k <= |m.envelope| && m.envelope[k - 1] in m.envelope[..k - 1]
    ensures ClashWithin(db, m, k) ==> ClashWithin(db, m, k - 1)
  {
    if ClashWithin(db, m, k) {
      var i, j :| 0 <= i < j < k && Clash(db, m, i, j);
      if j == k - 1 {
        var r :| 0 <= r < k - 1 && m.envelope[r] == m.envelope[k - 1];
        OwnerFollowsCollation(db, m.envelope[i], m.envelope[r], m.received);
        if i < r { assert Clash(db, m, i, r); } else { assert Clash(db, m, r, i); }
      }
    }
  }

  lemma LastIsNew(db: Db, msg: nat, m: Message, k: nat)
    requires 0 < k <= |m.envelope| && Timeline(db.leases) && AddressesUnique(db.identities)
    requires m.envelope[k - 1] != "" && m.envelope[k - 1] !in m.envelope[..k - 1]
    requires BindRecipients(db, msg, m, k - 1).Some? && !ClashWithin(db, m, k - 1)
    requires Resolved(db, msg, m, k - 1, BindRecipients(db, msg, m, k - 1).value)
    ensures BindRecipients(db, msg, m, k).None? <==> ClashWithin(db, m, k)
  {
    var rows := BindRecipients(db, msg, m, k - 1).value.bindings;
    var owner := LeaseAt(db, |db.leases|, m.envelope[k - 1], m.received);
    if owner.Some? && LeaseBound(rows, owner.value) { SameLeaseClashes(db, msg, m, k, rows, owner.value); }
    if ClashWithin(db, m, k) {
      RowsAreOwned(db, msg, m, k - 1, rows);
      ClashFindsLease(db, m, k, rows);
    }
  }

  ghost predicate OwnedRows(db: Db, m: Message, rows: seq<Binding>) {
    forall i :: 0 <= i < |rows| ==> OwnsAddress(db, rows[i].lease, rows[i].addr, m.received)
  }

  lemma RowsAreOwned(db: Db, msg: nat, m: Message, k: nat, rows: seq<Binding>)
    requires k <= |m.envelope| && RightRows(db, msg, m, k, rows)
    ensures OwnedRows(db, m, rows)
  {
  }

  lemma SameLeaseClashes(db: Db, msg: nat, m: Message, k: nat, rows: seq<Binding>, lease: nat)
    requires 0 < k <= |m.envelope| && RightRows(db, msg, m, k - 1, rows)
    requires m.envelope[k - 1] != "" && m.envelope[k - 1] !in m.envelope[..k - 1]
    requires OwnsAddress(db, lease, m.envelope[k - 1], m.received) && LeaseBound(rows, lease)
    ensures ClashWithin(db, m, k)
  {
    var r :| 0 <= r < |rows| && rows[r].lease == lease;
    assert RightRow(db, msg, m, rows[r]);
    var i :| 0 <= i < k - 1 && m.envelope[i] == rows[r].addr;
    assert OwnsAddress(db, lease, m.envelope[i], m.received);
    assert Clash(db, m, i, k - 1);
  }

  lemma ClashFindsLease(db: Db, m: Message, k: nat, rows: seq<Binding>)
    requires 0 < k <= |m.envelope| && Timeline(db.leases) && AddressesUnique(db.identities)
    requires OwnedRows(db, m, rows)
    requires forall i :: 0 <= i < k - 1 && m.envelope[i] != "" && HasOwner(db, m.envelope[i], m.received) ==> BoundTo(rows, m.envelope[i])
    requires ClashWithin(db, m, k) && !ClashWithin(db, m, k - 1)
    ensures var owner := LeaseAt(db, |db.leases|, m.envelope[k - 1], m.received);
            owner.Some? && LeaseBound(rows, owner.value)
  {
    var addr := m.envelope[k - 1];
    var i, j :| 0 <= i < j < k && Clash(db, m, i, j);
    assert j == k - 1;
    OwnerFollowsCollation(db, m.envelope[i], addr, m.received);
    var owner := LeaseAt(db, |db.leases|, addr, m.received);
    var r :| 0 <= r < |rows| && rows[r].addr == m.envelope[i];
    OneOwnerOfAddress(db, rows[r].lease, owner.value, rows[r].addr, addr, m.received);
  }

  lemma RightRowIsSound(db: Db, after: Db, msg: nat, m: Message, b: Binding)
    requires RightRow(db, msg, m, b) && b.addr in m.envelope && msg == |db.messages|
    requires after.leases == db.leases && after.identities == db.identities
    requires after.messages == db.messages + [m.(state := Pending)]
    ensures BindingOk(after, b)
  {
    assert after.messages[msg] == m.(state := Pending);
  }

  lemma StoredExtends(db: Db, m: Message)
    requires Inv(db) && Deliver(db, m).1.Ok?
    ensures Extends(db, Deliver(db, m).0)
  {
    var bound := BindRecipients(db, |db.messages|, m, |m.envelope|);
    BindMeaning(db, |db.messages|, m, |m.envelope|);
    forall i | 0 <= i < |bound.value.bindings| ensures bound.value.bindings[i].msg == |db.messages| {
      assert RightRow(db, |db.messages|, m, bound.value.bindings[i]);
    }
    ExtendsItself(db);
  }

  lemma SameLeasesOk(db: Db, after: Db)
    requires LeasesOk(db) && after.leases == db.leases && after.runs == db.runs && after.identities == db.identities
    ensures LeasesOk(after)
  {
    forall i | 0 <= i < |after.leases| ensures LeaseOk(after, after.leases[i]) { assert LeaseOk(db, db.leases[i]); }
  }

  /** Storing a message with its bindings keeps the invariant. */
  lemma DeliverKeepsInv(db: Db, m: Message)
    requires Inv(db)
    ensures Inv(Deliver(db, m).0) && Extends(db, Deliver(db, m).0)
  {
    var after := Deliver(db, m).0;
    ExtendsItself(db);
    if Deliver(db, m).1.Ok? {
      StoredExtends(db, m);
      BindingsAppend(db, after, m);
      SameLeasesOk(db, after);
      forall i | 0 <= i < |after.claims| ensures ClaimOk(after, after.claims[i]) { ClaimStable(db, after, db.claims[i]); }
    }
  }

  lemma BindingsAppend(db: Db, after: Db, m: Message)
    requires BindingsOk(db) && Extends(db, after) && Deliver(db, m).1.Ok? && after == Deliver(db, m).0
    ensures BindingsOk(after)
  {
    var msg := |db.messages|;
    BindMeaning(db, msg, m, |m.envelope|);
    var rows := BindRecipients(db, msg, m, |m.envelope|).value.bindings;
    forall i | 0 <= i < |db.bindings| ensures BindingOk(after, db.bindings[i]) && db.bindings[i].msg < msg {
      assert BindingOk(db, db.bindings[i]);
      BindingStable(db, after, db.bindings[i]);
    }
    forall i | 0 <= i < |rows| ensures BindingOk(after, rows[i]) && rows[i].msg == msg {
      assert RightRow(db, msg, m, rows[i]) && rows[i].addr in m.envelope[..|m.envelope|];
      RightRowIsSound(db, after, msg, m, rows[i]);
    }
    BindingsConcat(after, db.bindings, rows, msg);
  }

  lemma BindingsConcat(after: Db, earlier: seq<Binding>, rows: seq<Binding>, msg: nat)
    requires after.bindings == earlier + rows
    requires forall i :: 0 <= i < |earlier| ==> BindingOk(after, earlier[i]) && earlier[i].msg < msg
    requires forall i :: 0 <= i < |rows| ==> BindingOk(after, rows[i]) && rows[i].msg == msg
    requires forall i, j :: 0 <= i < j < |earlier| ==> earlier[i].msg != earlier[j].msg || earlier[i].lease != earlier[j].lease
    requires forall i, j :: 0 <= i < j < |rows| ==> rows[i].lease != rows[j].lease
    ensures BindingsOk(after)
  {
  }

  /** A binding is clean only when its lease was still held as the message committed. */
  lemma CleanWasHeld(db: Db, m: Message, b: Binding)
    requires Inv(db) && Deliver(db, m).1.Ok? && b in Deliver(db, m).0.bindings && b !in db.bindings
    ensures b.msg == |db.messages| && OwnsAddress(db, b.lease, b.addr, m.received)
    ensures b.suspect.Clean? ==> db.leases[b.lease].state.Held?
    ensures forall l :: 0 <= l < |db.leases| && OwnsAddress(db, l, b.addr, m.received) ==> l == b.lease
  {
    BindMeaning(db, |db.messages|, m, |m.envelope|);
    var rows := BindRecipients(db, |db.messages|, m, |m.envelope|).value.bindings;
    var i :| 0 <= i < |rows| && rows[i] == b;
    assert RightRow(db, |db.messages|, m, b) && LeaseOk(db, db.leases[b.lease]);
    forall l | 0 <= l < |db.leases| && OwnsAddress(db, l, b.addr, m.received) ensures l == b.lease {
      OneOwnerOfAddress(db, l, b.lease, b.addr, b.addr, m.received);
    }
  }

  lemma NewRow(db: Db, m: Message, b: Binding)
    requires Deliver(db, m).1.Ok? && b in Deliver(db, m).0.bindings && b !in db.bindings
    ensures var bound := BindRecipients(db, |db.messages|, m, |m.envelope|);
            bound.Some? && b in bound.value.bindings && RightRow(db, |db.messages|, m, b)
  {
    BindMeaning(db, |db.messages|, m, |m.envelope|);
    var rows := BindRecipients(db, |db.messages|, m, |m.envelope|).value.bindings;
    var i :| 0 <= i < |rows| && rows[i] == b;
  }

  /** The envelope spells a bound address one way only, so dropping entries that differ in case
      never drops the spelling a binding rests on. */
  lemma OnlySpelling(db: Db, m: Message, b: Binding, e: string)
    requires Inv(db) && Deliver(db, m).1.Ok? && b in Deliver(db, m).0.bindings && b !in db.bindings
    requires e in m.envelope && SameAddress(e, b.addr)
    ensures e == b.addr
  {
    NewRow(db, m, b);
    BindMeaning(db, |db.messages|, m, |m.envelope|);
    BindRefusedIff(db, |db.messages|, m, |m.envelope|);
    if e != b.addr { TwoSpellingsClash(db, m, b.lease, b.addr, e); }
  }

  lemma TwoSpellingsClash(db: Db, m: Message, lease: nat, a: string, e: string)
    requires a in m.envelope && e in m.envelope && SameAddress(e, a) && e != a && OwnsAddress(db, lease, a, m.received)
    ensures ClashWithin(db, m, |m.envelope|)
  {
    var i :| 0 <= i < |m.envelope| && m.envelope[i] == a;
    var j :| 0 <= j < |m.envelope| && m.envelope[j] == e;
    assert |Fold(a)| == |a| && |Fold(e)| == |e|;
    assert OwnsAddress(db, lease, e, m.received);
    if i < j { assert Clash(db, m, i, j); } else { assert Clash(db, m, j, i); }
  }

  /** Two bindings of one message for one address, however spelled, are the same row. */
  lemma OneBindingPerAddress(db: Db, m: Message, a: Binding, b: Binding)
    requires Inv(db) && Deliver(db, m).1.Ok?
    requires a in Deliver(db, m).0.bindings && a !in db.bindings && b in Deliver(db, m).0.bindings && b !in db.bindings
    requires SameAddress(a.addr, b.addr)
    ensures a == b
  {
    NewRow(db, m, a);
    NewRow(db, m, b);
    OneOwnerOfAddress(db, a.lease, b.lease, a.addr, b.addr, m.received);
    BindMeaning(db, |db.messages|, m, |m.envelope|);
    OneRowPerLease(BindRecipients(db, |db.messages|, m, |m.envelope|).value.bindings, a, b);
  }

  lemma OneRowPerLease(rows: seq<Binding>, a: Binding, b: Binding)
    requires forall i, j :: 0 <= i < j < |rows| ==> rows[i].lease != rows[j].lease
    requires a in rows && b in rows && a.lease == b.lease
    ensures a == b
  {
  }

  lemma SettleKeepsInv(db: Db, msg: nat, terminal: ExtractionState)
    requires Inv(db)
    ensures Inv(SettleExtraction(db, msg, terminal).0) && Extends(db, SettleExtraction(db, msg, terminal).0)
  {
    var after := SettleExtraction(db, msg, terminal).0;
    assert LeasesOk(after) by { assert forall i :: 0 <= i < |db.leases| ==> LeaseOk(db, db.leases[i]); }
    EvidenceStable(db, after);
  }

  function Recorded(db: Db, lease: nat, kind: Kind, msg: nat, key: string, ttl: int, now: Time): (Db, Result<nat, Refusal>)
    requires lease < |db.leases| && db.leases[lease].run < |db.runs|
  {
    var l := db.leases[lease];
    RecordClaim(db, lease, l.run, kind, msg, key, ttl, Some(EndOfGrant(db.runs[l.run], l)), now)
  }

  /** The recorded row passes both unique indexes and its window lies inside the grant. */
  lemma RecordedRow(db: Db, lease: nat, kind: Kind, msg: nat, key: string, ttl: int, now: Time)
    requires Claimable(db, lease, kind, msg) && Recorded(db, lease, kind, msg, key, ttl, now).1.Ok?
    ensures var after := Recorded(db, lease, kind, msg, key, ttl, now).0;
            && |after.claims| == |db.claims| + 1
            && var c := after.claims[|db.claims|];
               && after == db.(claims := db.claims + [c]) && Extends(db, after)
               && c.msg == msg && c.kind == kind && c.lease == lease && c.key == key
               && !IsClaimed(db.claims, msg, kind) && !KeyUsed(db.claims, lease, key)
               && c.run == db.leases[lease].run && c.claimed < c.expires <= EndOfGrant(db.runs[c.run], db.leases[lease])
  {
  }

  /** A sound claim table is all that recording has to keep. */
  lemma OnlyClaims(db: Db, after: Db)
    requires Inv(db) && Extends(db, after) && after == db.(claims := after.claims) && ClaimsOk(after)
    ensures Inv(after)
  {
    forall i | 0 <= i < |after.leases| ensures LeaseOk(after, after.leases[i]) { assert LeaseOk(db, db.leases[i]); }
    forall i | 0 <= i < |after.bindings| ensures BindingOk(after, after.bindings[i]) { BindingStable(db, after, db.bindings[i]); }
  }

  /** Recording a claim for a claimable message keeps the invariant: the two unique indexes
      keep the pairs apart and the cap keeps the window inside the grant. */
  lemma RecordKeepsInv(db: Db, lease: nat, kind: Kind, msg: nat, key: string, ttl: int, now: Time)
    requires Inv(db) && Claimable(db, lease, kind, msg)
    ensures var r := Recorded(db, lease, kind, msg, key, ttl, now); Inv(r.0) && Extends(db, r.0)
  {
    var r := Recorded(db, lease, kind, msg, key, ttl, now);
    if r.1.Ok? {
      RecordedRow(db, lease, kind, msg, key, ttl, now);
      ClaimableStable(db, r.0, lease, kind, msg);
      ClaimsAppend(db, r.0, r.0.claims[|db.claims|]);
      OnlyClaims(db, r.0);
    }
  }

  lemma ClaimsAppend(db: Db, after: Db, c: Claim)
    requires ClaimsOk(db) && Extends(db, after) && after.claims == db.claims + [c] && ClaimOk(after, c)
    requires !IsClaimed(db.claims, c.msg, c.kind) && !KeyUsed(db.claims, c.lease, c.key)
    ensures ClaimsOk(after)
  {
    forall i | 0 <= i < |after.claims| ensures ClaimOk(after, after.claims[i]) {
      if i < |db.claims| { ClaimStable(db, after, db.claims[i]); }
    }
  }
}
