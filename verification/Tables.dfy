/** The rows the lease, binding and claim protocol lives in, and each store transaction as
    a function on them (internal/store). An id is the row's position in its table: rows are
    only ever appended, so every new id is fresh. */
module Tables {
  import opened Base
  import opened Clock

  // ----- Rows -----

  datatype RunState = Active | Complete | RunFailed | RunExpired

  datatype Run = Run(state: RunState, checkpoint: Time, expires: Time, ended: Option<Time>)

  datatype Mode = Ephemeral | Pooled

  datatype Identity = Identity(addr: string, mode: Mode, cooldownUntil: Option<Time>)

  datatype LeaseState = Held | Released | Expired | Failed

  datatype SeedState = SeedPending | Seeded | SeedFailed | Skipped

  datatype Lease = Lease(run: nat, identity: nat, state: LeaseState, seed: SeedState,
                         acquired: Time, expires: Time, released: Option<Time>, inCooldown: bool)

  datatype Kind = EmailOTP | MagicLink

  datatype Extraction = Extraction(otpBest: string, verifyLinkBest: string)

  datatype ExtractionState = Pending | Success(result: Extraction) | ExtractionFailed

  /** `envelope` holds the normalized recipients; `origin` is the Date header; the two
      flags say whether the sealed body and the sealed extraction still open. */
  datatype Message = Message(envelope: seq<string>, received: Time, origin: Option<Time>, quarantined: bool,
                             bodyOpens: bool, extractionOpens: bool, state: ExtractionState)

  datatype Suspicion = Clean | Cooldown | AfterRelease | PredatesLease | OriginUnknown

  datatype Binding = Binding(msg: nat, lease: nat, run: nat, identity: nat, addr: string, suspect: Suspicion)

  datatype Claim = Claim(lease: nat, run: nat, kind: Kind, msg: nat, key: string, claimed: Time, expires: Time)

  datatype Db = Db(runs: seq<Run>, identities: seq<Identity>, leases: seq<Lease>,
                   messages: seq<Message>, bindings: seq<Binding>, claims: seq<Claim>)

  const EMPTY: Db := Db([], [], [], [], [], [])

  datatype Refusal = NotFound | BadInput | AddressTaken | RunNotActive | IdentityHeld | LeaseNotHeld
                   | ExtractionSettled | ClaimTaken | ClaimWindowClosed | DuplicateBinding

  /** The NOCASE collation of the address columns. */
  function Fold(s: string): (f: string)
    ensures |f| == |s|
  {
    seq(|s|, i requires 0 <= i < |s| => if 'A' <= s[i] <= 'Z' then s[i] - 'A' + 'a' else s[i])
  }

  predicate SameAddress(a: string, b: string) { Fold(a) == Fold(b) }

  // ----- Runs -----

  function CreateRun(db: Db, ttl: int, now: Time): (Db, Result<nat, Refusal>) {
    if ttl <= 0 then (db, Err(BadInput))
    else (db.(runs := db.runs + [Run(Active, now, now + ttl, None)]), Ok(|db.runs|))
  }

  /** Ends a held lease, never before the instant it began. */
  function Ended(l: Lease, state: LeaseState, at: Time): Lease {
    l.(state := state, released := Some(Max(at, l.acquired)))
  }

  function ReleaseRunLeases(leases: seq<Lease>, run: nat, at: Time): (r: seq<Lease>)
    ensures |r| == |leases|
  {
    seq(|leases|, i requires 0 <= i < |leases| =>
      if leases[i].run == run && leases[i].state.Held? then Ended(leases[i], Released, at) else leases[i])
  }

  function EndRun(db: Db, run: nat, state: RunState, now: Time): (Db, Result<(), Refusal>) {
    if state.Active? then (db, Err(BadInput))
    else if run >= |db.runs| then (db, Err(NotFound))
    else if db.runs[run].state == state then (db, Ok(()))
    else if !db.runs[run].state.Active? then (db, Err(RunNotActive))
    else (db.(runs := db.runs[run := db.runs[run].(state := state, ended := Some(now))],
              leases := ReleaseRunLeases(db.leases, run, now)), Ok(()))
  }

  /** The runs a sweep at `now` has to end, in table order. */
  function Overdue(runs: seq<Run>, now: Time): seq<nat> {
    if runs == [] then []
    else
      var n := |runs| - 1;
      Overdue(runs[..n], now) + if runs[n].state.Active? && runs[n].expires <= now then [n] else []
  }

  function EndRuns(db: Db, ids: seq<nat>, stamps: seq<Time>): Db
    requires |ids| == |stamps|
  {
    if ids == [] then db
    else
      var n := |ids| - 1;
      EndRun(EndRuns(db, ids[..n], stamps[..n]), ids[n], RunExpired, stamps[n]).0
  }

  // ----- Identities and leases -----

  function CreateIdentity(db: Db, addr: string, mode: Mode): (Db, Result<nat, Refusal>) {
    if addr == "" then (db, Err(BadInput))
    else if exists i :: 0 <= i < |db.identities| && SameAddress(db.identities[i].addr, addr) then (db, Err(AddressTaken))
    else (db.(identities := db.identities + [Identity(addr, mode, None)]), Ok(|db.identities|))
  }

  function SetCooldown(db: Db, identity: nat, until: Time): Db {
    if identity < |db.identities| && db.identities[identity].mode.Pooled?
    then db.(identities := db.identities[identity := db.identities[identity].(cooldownUntil := Some(until))])
    else db
  }

  /** The previous lease of an identity among the first n: the latest acquire, and among
      equal acquires the row inserted last. */
  function PreviousLease(leases: seq<Lease>, n: nat, identity: nat): (p: Option<nat>)
    requires n <= |leases|
    ensures p.Some? ==> p.value < n && leases[p.value].identity == identity
    ensures p.None? ==> forall i :: 0 <= i < n ==> leases[i].identity != identity
  {
    if n == 0 then None
    else
      var p := PreviousLease(leases, n - 1, identity);
      if leases[n - 1].identity == identity && (p.None? || leases[p.value].acquired <= leases[n - 1].acquired)
      then Some(n - 1) else p
  }

  /** The clock, or the end of the identity's previous lease if that is later. */
  function LeaseStart(leases: seq<Lease>, identity: nat, now: Time): Time {
    var p := PreviousLease(leases, |leases|, identity);
    if p.None? || leases[p.value].released.None? then now
    else Max(leases[p.value].released.value, now)
  }

  predicate IsHeld(leases: seq<Lease>, identity: nat) {
    exists i :: 0 <= i < |leases| && leases[i].identity == identity && leases[i].state.Held?
  }

  function AcquireLease(db: Db, run: nat, identity: nat, ttl: int, now: Time): (Db, Result<nat, Refusal>) {
    if ttl <= 0 then (db, Err(BadInput))
    else if run >= |db.runs| then (db, Err(NotFound))
    else if !db.runs[run].state.Active? then (db, Err(RunNotActive))
    else if identity >= |db.identities| then (db, Err(NotFound))
    else if IsHeld(db.leases, identity) then (db, Err(IdentityHeld))
    else
      var start := LeaseStart(db.leases, identity, now);
      var until := db.identities[identity].cooldownUntil;
      var lease := Lease(run, identity, Held, SeedPending, start, start + ttl, None, until.Some? && start < until.value);
      (db.(leases := db.leases + [lease]), Ok(|db.leases|))
  }

  function SettleSeed(db: Db, lease: nat, outcome: SeedState, now: Time): (Db, Result<(), Refusal>) {
    if outcome.SeedPending? then (db, Err(BadInput))
    else if lease >= |db.leases| || !db.leases[lease].state.Held? then (db, Err(LeaseNotHeld))
    else
      var l := db.leases[lease].(seed := outcome);
      (db.(leases := db.leases[lease := if outcome.SeedFailed? then Ended(l, Failed, now) else l]), Ok(()))
  }

  function ReleaseLease(db: Db, lease: nat, now: Time): (Db, Result<(), Refusal>) {
    if lease >= |db.leases| then (db, Err(NotFound))
    else if !db.leases[lease].state.Held? then (db, Ok(()))
    else (db.(leases := db.leases[lease := Ended(db.leases[lease], Released, now)]), Ok(()))
  }

  /** The sweep reads the clock twice: once for the release instant, once for the filter. */
  function ExpireLeases(db: Db, at: Time, now: Time): Db {
    db.(leases := seq(|db.leases|, i requires 0 <= i < |db.leases| =>
      if db.leases[i].state.Held? && db.leases[i].expires <= now then Ended(db.leases[i], Expired, at) else db.leases[i]))
  }

  // ----- Messages and bindings -----

  /** The lease owns its address over the half-open interval [acquired, released). */
  predicate OwnsAt(l: Lease, at: Time) {
    l.acquired <= at && (l.released.None? || at < l.released.value)
  }

  predicate OwnsAddress(db: Db, lease: nat, addr: string, at: Time) {
    && lease < |db.leases| && db.leases[lease].identity < |db.identities|
    && SameAddress(db.identities[db.leases[lease].identity].addr, addr)
    && OwnsAt(db.leases[lease], at)
  }

  /** The lease that owned an address at an instant, latest acquire first. */
  function LeaseAt(db: Db, n: nat, addr: string, at: Time): (o: Option<nat>)
    requires n <= |db.leases|
    ensures o.Some? ==> o.value < n && OwnsAddress(db, o.value, addr, at)
    ensures o.None? ==> forall i :: 0 <= i < n ==> !OwnsAddress(db, i, addr, at)
  {
    if n == 0 then None
    else
      var o := LeaseAt(db, n - 1, addr, at);
      if OwnsAddress(db, n - 1, addr, at) && (o.None? || db.leases[o.value].acquired <= db.leases[n - 1].acquired)
      then Some(n - 1) else o
  }

  /** Proven facts first, unprovable last; an ephemeral address is not guarded by age. */
  function Suspect(l: Lease, mode: Mode, origin: Option<Time>): Suspicion {
    if l.inCooldown then Cooldown
    else if mode.Ephemeral? then (if l.released.Some? then AfterRelease else Clean)
    else if origin.None? then OriginUnknown
    else if origin.value < Truncate(l.acquired, SECOND) then PredatesLease
    else if l.released.Some? then AfterRelease
    else Clean
  }

  datatype Bound = Bound(bindings: seq<Binding>, unbound: seq<string>)

  predicate LeaseBound(rows: seq<Binding>, lease: nat) {
    exists i :: 0 <= i < |rows| && rows[i].lease == lease
  }

  function RowFor(db: Db, msg: nat, m: Message, addr: string, lease: nat): Binding
    requires OwnsAddress(db, lease, addr, m.received)
  {
    var l := db.leases[lease];
    Binding(msg, lease, l.run, l.identity, addr, Suspect(l, db.identities[l.identity].mode, m.origin))
  }

  /** Resolves recipient k after the ones before it: blank and repeated entries are skipped,
      and the primary key refuses a second row for one lease. */
  function BindOne(db: Db, msg: nat, m: Message, k: nat, front: Bound): Option<Bound>
    requires k < |m.envelope|
  {
    var addr := m.envelope[k];
    if addr == "" || addr in m.envelope[..k] then Some(front)
    else
      var owner := LeaseAt(db, |db.leases|, addr, m.received);
      if owner.None? then Some(front.(unbound := front.unbound + [addr]))
      else if LeaseBound(front.bindings, owner.value) then None
      else Some(front.(bindings := front.bindings + [RowFor(db, msg, m, addr, owner.value)]))
  }

  /** The bindings of the first k recipients, or nothing when the store refuses one. */
  function BindRecipients(db: Db, msg: nat, m: Message, k: nat): Option<Bound>
    requires k <= |m.envelope|
  {
    if k == 0 then Some(Bound([], []))
    else
      var front := BindRecipients(db, msg, m, k - 1);
      if front.None? then None else BindOne(db, msg, m, k - 1, front.value)
  }

  /** The message row and its bindings commit together or not at all. */
  function Deliver(db: Db, m: Message): (Db, Result<nat, Refusal>) {
    var bound := BindRecipients(db, |db.messages|, m, |m.envelope|);
    if bound.None? then (db, Err(DuplicateBinding))
    else (db.(messages := db.messages + [m.(state := Pending)], bindings := db.bindings + bound.value.bindings),
          Ok(|db.messages|))
  }

  /** The guarded update from pending to a terminal state. */
  function SettleExtraction(db: Db, msg: nat, terminal: ExtractionState): (Db, Result<(), Refusal>) {
    if terminal.Pending? then (db, Err(BadInput))
    else if msg >= |db.messages| then (db, Err(NotFound))
    else if !db.messages[msg].state.Pending? then (db, Err(ExtractionSettled))
    else (db.(messages := db.messages[msg := db.messages[msg].(state := terminal)]), Ok(()))
  }

  // ----- Claims -----

  function ValueFor(e: Extraction, kind: Kind): string {
    match kind
    case EmailOTP => e.otpBest
    case MagicLink => e.verifyLinkBest
  }

  /** What a candidate read hands over: the extraction alone has to open. */
  function CandidateValue(m: Message, kind: Kind): string {
    if m.state.Success? && m.extractionOpens then ValueFor(m.state.result, kind) else ""
  }

  /** What a replay re-derives: the whole message has to be readable. */
  function ReplayValue(m: Message, kind: Kind): string {
    if m.quarantined || !m.bodyOpens then "" else CandidateValue(m, kind)
  }

  predicate IsClaimed(claims: seq<Claim>, msg: nat, kind: Kind) {
    exists i :: 0 <= i < |claims| && claims[i].msg == msg && claims[i].kind == kind
  }

  predicate KeyUsed(claims: seq<Claim>, lease: nat, key: string) {
    exists i :: 0 <= i < |claims| && claims[i].lease == lease && claims[i].key == key
  }

  /** The row recorded under an idempotency key, if any. */
  function ClaimByKey(claims: seq<Claim>, n: nat, lease: nat, key: string): (c: Option<nat>)
    requires n <= |claims|
    ensures c.Some? ==> c.value < n && claims[c.value].lease == lease && claims[c.value].key == key
    ensures c.None? ==> forall i :: 0 <= i < n ==> claims[i].lease != lease || claims[i].key != key
  {
    if n == 0 then None
    else if claims[n - 1].lease == lease && claims[n - 1].key == key then Some(n - 1)
    else ClaimByKey(claims, n - 1, lease, key)
  }

  /** The replay window is capped by the end of the grant; two unique indexes decide. */
  function RecordClaim(db: Db, lease: nat, run: nat, kind: Kind, msg: nat, key: string,
                       ttl: int, notAfter: Option<Time>, now: Time): (Db, Result<nat, Refusal>) {
    if key == "" || ttl <= 0 then (db, Err(BadInput))
    else
      var expires := if notAfter.Some? && notAfter.value < now + ttl then notAfter.value else now + ttl;
      if expires <= now then (db, Err(ClaimWindowClosed))
      else if IsClaimed(db.claims, msg, kind) || KeyUsed(db.claims, lease, key) then (db, Err(ClaimTaken))
      else (db.(claims := db.claims + [Claim(lease, run, kind, msg, key, now, expires)]), Ok(|db.claims|))
  }
}
