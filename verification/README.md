# A verified model of authstunt's core

authstunt hands one-time codes and login links from test mail to the run that asked for them, and
to nobody else. This project models the three parts that promise rests on and proves what they
promise:

1. **Leases, bindings and claims.** Runs lease addresses over half-open intervals; a message is
   bound to the lease that owned its address when it arrived; a claim hands out one secret of one
   bound message once, and replays it under an idempotency key. `Tables` holds each transaction as
   a function on rows, `Stores.Store`, `Leasing.Service` and `Ingest.Pipeline` are the objects
   whose methods change those rows and are proved equal to those functions, and `Protocol` is the
   state machine in which any number of claim calls, ingest workers, sweeps, crashes and the bus
   interleave, one statement or transaction at a time. `Guarantees`, `Gates`, `Arrivals` and
   `Wakeups` state what holds in every reachable state; `Rules` says what each transaction decides
   and `Turns` what each turn of a claim decides, in the fields of the rows alone; `Admissions`
   takes a message from its arrival to claim_ok; `Limits` and `Spellings` state exactly
   which callers and which spellings can break a promise, and `Fleets` and `Witnesses` build the
   runs that do. `Servers` shows that any series of calls on the objects is a run of `Protocol`.
2. **The event bus.** `Rings.Ring` (replay buffer), `Bus.Bus` (subscribers and waiters),
   `Frames` (what a browser reads back), and one client across evictions, lost frames, reconnects
   and restarts: `Sessions` as a machine on values, `Streams` as the objects that do what it does.
3. **The extraction scanners.** `Spans`, `Otp`, `Links` and `LinkLists`: loops that were rewritten
   into fast forms, each proved to give what the plain form gives. `Ranking` says what the ranking
   of codes means without its weights, and `Extract` composes the scanners.

`Base` holds a proved binary search (Go's `sort.Search`) and a proved sort (Go's
`slices.SortFunc`), `Clock` the store clock and its stored form, `EventIds` the event ids, `Keys`
the keys the MCP proxy derives, `Runes` the questions put to the Unicode tables.

## How it is modelled

- Row ids are row positions. Rows are only appended, so ids are fresh. The code draws ids at random
  (`internal/store/ids.go:17-25`), so the order it gives to messages with one receive time is
  arbitrary; the model gives them the order of insertion. Where order is claimed, a tie means no
  more than that one fixed order is used throughout.
- Every clock reading is a parameter and nothing relates the readings of different steps, so the
  wall clock may jump either way. An unset time is `None`.
- Addresses are the output of `NormalizeAddress`; comparing two of them in SQL is `SameAddress`
  (the NOCASE collation), comparing them in Go is `==`.
- A message's sealed body and sealed extraction are modelled by whether they still open.
- A connection may go down with any number of its last frames lost; the client then presents the
  last id it saw, and what was lost is sent again.
- An event announces the whole envelope. One published by recovery carries the stored recipients,
  from which entries that differ in case only are dropped; `Correlation.OnlySpelling` shows that a
  bound address is never spelled in two ways, so no claim can tell the difference.
- `Protocol.State.answeredAt` is bookkeeping: the clock reading each answer was given at.
- `Protocol.Call.view` is bookkeeping: the database as the call's last candidate read saw it.
- Among leases of one identity with equal `acquired_at`, the previous-lease lookup is assumed to
  return the one inserted last: the query does not say. `Invariants.TieBreak` and
  `Lifecycle.OtherTieBreakOverlaps` show that the promise depends on it, and `Lifecycle.TiesHappen`
  that such ties are reachable.

## Where code and comments disagree

The model follows the code.

- `internal/store/leases.go:345-348` describes the release comparison the other way round from the
  SQL below it, which is `? < released_at`: mail received at the release instant belongs to nobody.
- `internal/personas/claim.go:360-361` says a bare timeout means something bound and has not
  settled. A settled message without a value of the claimed kind, or a candidate lost to another
  claim after the read, gives the same answer (`Guarantees.ExplanationHonest`;
  `Witnesses.TimeoutOverSettledMail` is such a run).
- `internal/personas/claim.go:182-184`: the wakeup compares exact text while binding follows NOCASE, so
  mail whose envelope spells a leased address in another case is bound, settled and announced
  without waking the claim that waits for it. That is the only way to oversleep
  (`Spellings.AlwaysWokenIff`), and such mail is found at the deadline
  (`Guarantees.LastReadExhausted`).
- `internal/store/bindings.go:42-44` skips a repeated recipient so that it does not read as a
  failure; one repeated in another case is not skipped, meets the primary key and refuses the whole
  delivery (`Correlation.BindRefusedIff`; `Spellings.RefusedExample` is such a delivery).
- `internal/personas/claim.go:201-229` replays by lease and key and compares no kinds, so a key used
  for two kinds gives an answer no claim of that kind stands behind (`Limits.KindsBackedIff`) and can
  hand one secret to two requests (`Limits.HandsOnceIff`). Keys of the MCP proxy never do that
  (`Keys.ProxySecretHandedOnce`).
- `internal/store/store.go:289-293` says the nanoseconds by which colliding stamps drift against the
  wall cannot be observed. A receive time is the wall's, to the nanosecond, so mail that
  comes in within those nanoseconds of an acquire is older than the lease and bound to nobody
  although the lease is held and no clock went backwards (`Arrivals.MailMissed`). That is the only
  way to miss it (`Arrivals.HeldLeaseBinds`), and a clock that advances between readings never lets
  it happen (`Arrivals.AdvancingClocksBind`).
- `internal/personas/lease.go:464-467` reads cooldowns against the wall, the lease records them
  against the store clock, which is cut to a millisecond (`Leasing.CooledYetMarked`). A lease taken
  in that window (`Witnesses.MarkedLateHappens`) never backs a claim
  (`Guarantees.MarkedLeaseIsBarren`).

## Model

| member | source | states |
|---|---|---|
| Guarantees.Isolation | internal/personas/claim.go:71-310 | every claim in every reachable state belongs to its lease's run, rests on a clean binding of an unquarantined message with a non-empty value of its kind, received no earlier than checkpoint and acquire, passes the pooled handover guard, and has a window inside lease, run and TTL |
| Guarantees.ClaimedMailWasOwned | internal/store/bindings.go:31-76 | the claimed message was stored at a step where the claim's lease was held by an active run, owned one of its envelope addresses, and was the only lease that did |
| Guarantees.ClaimedOnce | internal/store/claims.go:179-221 | at most one claim per message and kind and per lease and key, over every interleaving |
| Guarantees.AnswersAgree | internal/personas/claim.go:201-295 | all successful answers to one lease and key carry one claim and one message, and one value per kind |
| Guarantees.AnswerOwnsSecret | internal/personas/claim.go:250-295 | with one kind per key, each successful answer is backed by the claim row of its own lease, key, message and kind |
| Guarantees.SecretHandedOnce | internal/personas/claim.go:71-150 | with one kind per key, two successful answers with the same message's secret of one kind are answers to the same request |
| Guarantees.NoLostWakeup | internal/personas/claim.go:112-143 | what a sleeping, unhinted claim could take and was addressed to its address is still between commit and dispatch |
| Guarantees.SeenOrInFlight | internal/sse/waiters.go:5-81 | every settled message for a sleeper's address was visible to its last read or is in flight |
| Guarantees.AnswerIsolated | internal/personas/claim.go:201-295 | every successful answer, replays and mixed kinds included, carries the value of a message that an isolated claim of the asking lease and key rests on |
| Guarantees.AnsweredInWindow | internal/personas/claim.go:201-229 | every successful answer, replays included, was given at a reading before its claim, its lease and its run expired |
| Guarantees.OldestTaken | internal/store/claims.go:57-61 | when a call records a claim, every older message its last read saw settled and that could back it has been claimed already |
| Gates.GateWasPassed | internal/personas/claim.go:85-99 | every successful answer, first or replayed, was given by a turn of a call that, after it started and with no crash since, read its lease as held with its seed seeded or skipped and then found its run active; `Turns.GateDecides` is the converse |
| Gates.PathWasLive | internal/personas/claim.go:153-166 | the lease of an answering call was held in every state from its start to its read, and its run active from its start to its gate |
| Gates.EndedNeverAnswers | internal/personas/claim.go:85-110 | a call started on a lease no longer held, or whose run has ended, never answers claim_ok: a later answer for that lease comes from a call that had read it before |
| Gates.RecordedAfterRelease | internal/personas/claim.go:97 | the gate is not checked again: a run records a claim on a lease released after the call's read |
| Turns.GateDecides | internal/personas/claim.go:153-166 | in every reachable state the gate admits a call if and only if the run is active and the lease it read was held with its seed seeded or skipped; each refusal exactly under its own condition, in that order |
| Turns.RecordedKeyDecides | internal/personas/claim.go:201-286 | a call whose key is recorded, found at once or after losing its insert to it, is given the recorded claim, message and value until that claim expires, while the message can be read and carries a value of the kind; expiry and unreadability are reported exactly otherwise |
| Turns.FreshKeyDecides | internal/personas/claim.go:101-110 | without a recorded key a call goes on, after a lost insert with the next candidate |
| Turns.RegisteringDecides | internal/personas/claim.go:112-124 | the waiter is registered before the first read, and a stopped bus ends a call that wants to wait |
| Turns.ReadingDecides | internal/personas/claim.go:233-243 | a read offers exactly the clean, unquarantined, unclaimed, fresh, extracted and openable messages of the lease, oldest first, each with its value |
| Turns.TakingDecides | internal/personas/claim.go:250-295 | an offer without a value is passed over; one with a value is recorded with its exact window and answered, unless the grant ended or the message or key was claimed |
| Turns.UsedUpDecides | internal/personas/claim.go:126-143 | with nothing left a call reads once more at its deadline or when it does not wait, and sleeps otherwise |
| Turns.SleepingDecides | internal/personas/claim.go:133-143 | a sleeper reads again when hinted, reads for the last time at its deadline, and sleeps on otherwise |
| Turns.ReceivingDecides | internal/smtp/ingest.go:186-248 | mail is acknowledged exactly when it was stored, under the id it was stored with |
| Turns.SettlingDecides | internal/store/messages.go:409-466 | only a pending message takes a terminal state and waits to be announced |
| Turns.LastAnswerDecides | internal/personas/claim.go:343-363 | the final reason is the first that applies of doubt, claim, age, failed extraction, anything bound, nothing bound, each in the fields of the bindings the last read saw |
| Turns.PublishDecides | internal/sse/bus.go:228-239 | a settled message is handed over exactly while the bus runs and fewer than 64 events wait |
| Turns.StopDecides | internal/sse/bus.go:119-131 | a stopped bus keeps nothing on its channel; a crash forgets calls and what was on its way and keeps the rest |
| Admissions.MailIsClaimed | internal/personas/claim.go:71-150 | in every run, a message that arrives for a lease that may claim, is meant for it and settles with a value leads to claim_ok, unless its envelope names one leased address in two spellings: a call with a fresh key, stepped by its own turns before lease or run expire, is answered with it or with an older one nobody had taken |
| Admissions.EveryGrantWins | internal/store/models.go:347-350 | a run in which the claim of a lease, pooled or ephemeral, seeded or skipped, is answered claim_ok, with mail dated by the very second the lease began in |
| Arrivals.HeldLeaseBinds | internal/store/bindings.go:137-168 | a message stored while a lease is held and naming its address binds to it exactly when the lease did not begin after the receive time |
| Arrivals.HeldMailBinds | internal/store/bindings.go:31-76 | in every run whose stamps are not past the receive time, mail for a held lease is bound to it |
| Arrivals.AdvancingNeverAhead | internal/store/store.go:277-304 | a clock that advances between readings never runs ahead of them |
| Arrivals.AdvancingClocksBind | internal/store/bindings.go:31-76 | in every run whose stamps come from clocks that advance between readings, over any restarts, mail received no earlier than the last reading and addressed to a held lease is bound to it |
| Arrivals.MailMissed | internal/personas/lease.go:434-442 | a run without a backward reading in which mail for a held address is bound to nobody |
| Guarantees.MarkedLeaseIsBarren | internal/store/bindings.go:118-123 | a lease acquired in cooldown backs no claim and no answer in any later state |
| Wakeups.HintFromFlight | internal/sse/bus.go:138-166 | a matching message between commit and dispatch hints the sleeper, however full the publish channel is |
| Wakeups.EveryScheduleRouses | internal/sse/bus.go:138-166 | in every run, by the time a matching message is no longer on its way the sleeper has had its hint, unless a deadline, an abort, a stopped bus or a crash ended its sleep before |
| Wakeups.WakeupEndsInAnswer | internal/personas/claim.go:120-143 | a sleeping claim with something to take can be run to its own answer before its deadline, by hand-overs, dispatches and its own turns alone, if and only if some message for its address is on its way; unless its key was recorded meanwhile the answer is claim_ok |
| Guarantees.LastReadExhausted | internal/personas/claim.go:312-342 | when a call answers from its final read, nothing that read saw settled can still be taken |
| Guarantees.ExplanationHonest | internal/personas/claim.go:328-363 | "no binding" exactly when the final read saw none; a timeout only when each bound message was quarantined, pending, without a value, or claimed by another request |
| Guarantees.AckedIsDurable | internal/smtp/ingest.go:186-248 | an acknowledged message keeps its row and exactly its bindings in every later state, crashes included, and a terminal state is final |
| Guarantees.AnnouncedOnce | internal/smtp/ingest.go:298-394 | no message is published twice, and each published one is in a terminal state |
| Guarantees.AnnouncedIsFinal | internal/smtp/ingest.go:298-394 | a published message is unchanged in every later state |
| Limits.KindsBackedIff | internal/personas/claim.go:201-229 | over all runs that make only the given requests, answers are always backed by a claim of their kind if and only if each key of a lease is used for one kind |
| Limits.HandsOnceIff | internal/personas/claim.go:201-295 | over all runs that make only the given requests, a secret is handed to one request only if and only if each key of a lease is used for one kind or one key of one lease makes all requests |
| Spellings.AlwaysWokenIff | internal/personas/claim.go:185-198 | over all runs whose identities and envelopes use the given spellings, no claim oversleeps mail it could take if and only if no two different spellings are one address |
| Spellings.NeverOversleeps | internal/personas/claim.go:112-143 | with unambiguous spellings an unhinted sleeper can take only what is still in flight, addressed in whatever way |
| Spellings.RefusedDelivery | internal/store/bindings.go:31-76 | in a reachable store a delivery naming a leased address in two spellings is refused |
| Spellings.RefusedExample | internal/store/bindings.go:42-67 | the envelope a@x, A@x is one |
| Witnesses.MarkedLateHappens | internal/personas/lease.go:464-467 | an acquire after the cooldown ended can be marked as inside it |
| Witnesses.MarkedLateIsBarren | internal/store/leases.go:167-185 | every lease so marked backs no claim and no answer later |
| Witnesses.TimeoutOverSettledMail | internal/personas/claim.go:352-363 | a run answers a bare timeout while no message is pending or quarantined |
| Keys.KeyWithinLease | internal/mcp/proxy.go:200-202 | for one lease, whatever its id, equal keys mean equal kind and attempt |
| Keys.KeyInjective | internal/mcp/proxy.go:200-202 | across leases whose ids hold no colon, equal keys mean equal lease, kind and attempt |
| Keys.ProxyKeysHaveOneKind | internal/mcp/proxy.go:156-174 | claims made through the proxy use one kind per key |
| Keys.ProxySecretHandedOnce | internal/mcp/proxy.go:156-202 | exactly-once for all callers of the proxy, without a hypothesis on keys |
| ProtocolProofs.ReachableOk | internal/personas/claim.go:71-150 | the inductive invariant of tables, calls, answers, mail and wakeups holds after every sequence of actions |
| ProtocolProofs.NextTurn | internal/personas/claim.go:71-363 | each statement of a claim call keeps the tables sound, the call's offers sound and complete for what it last saw, and its answer backed by a row |
| ProtocolProofs.NextHears | internal/personas/claim.go:112-143 | no statement of a claim call makes it miss a settled message |
| ProtocolProofs.OffersSound | internal/personas/claim.go:233-243 | the offers of a read are settled and claimable, and nothing else settled by then can be taken |
| ProtocolProofs.ReplayIsBacked | internal/personas/claim.go:201-229 | a replay answers exactly when the key is recorded, and a successful one matches the recorded row |
| ProtocolProofs.TakeableBack | internal/store/claims.go:101-127 | a settled message that can be taken later could be taken already: settled mail never becomes eligible afterwards |
| ProtocolProofs.DispatchOk | internal/sse/bus.go:138-171 | taking an event off the channel keeps every sleeper hinted or up to date, although a full buffer drops events |
| Histories.LaterExtends | internal/store/messages.go:402-466 | every later state extends an earlier one: rows persist, ended rows and terminal states are final, answers and publications stand |
| Histories.EveryBindingArrived | internal/smtp/ingest.go:218-233 | every binding was written by the transaction that stored its message |
| Histories.ReachableAsked | internal/personas/claim.go:250-295 | every claim and answer carries the lease, key and kind of a call that was made |
| Invariants.StartKeepsTimeline | internal/store/leases.go:120-156 | a lease that begins where leaseStart says keeps the identity's intervals ordered and disjoint for any clock reading |
| Invariants.PreviousIsLast | internal/store/leases.go:131-137 | the previous-lease lookup finds the identity's last lease, also among equal acquires |
| Invariants.OneOwner | internal/store/leases.go:120-156 | at most one lease of an identity owns an instant |
| Invariants.OneOwnerOfAddress | internal/store/bindings.go:137-168 | at most one lease owns an address at an instant under any spelling, so LIMIT 1 never chooses |
| Invariants.TieBreak | internal/store/leases.go:131-137 | picking any of the latest acquires keeps the timeline if and only if the start it gives is not before the last release |
| Lifecycle.TiesHappen | internal/store/leases.go:120-156 | two leases of one identity can begin at one instant |
| Lifecycle.OtherTieBreakOverlaps | internal/store/leases.go:131-137 | in a reachable state, reading back the other of two equal acquires would grant an overlapping lease |
| Lifecycle.ApplyKeepsInv | internal/store/leases.go:64-307 | every run, identity and lease transaction keeps the whole invariant and only moves rows forward |
| Lifecycle.Reachable | internal/store/runs.go:143-226 | in every reachable state a held lease's run is active, a lease is held exactly while released_at is unset, released_at is not before acquired_at, and timelines are ordered |
| Lifecycle.EndRunKeeps | internal/store/runs.go:143-180 | ending a run ends its leases in the same transaction and keeps the coupling |
| Lifecycle.ExpireRunsMeaning | internal/store/runs.go:188-226 | after the run sweep no active run is overdue at its stamp |
| Lifecycle.SweepLeavesNothingOverdue | internal/personas/lease.go:593-603 | after both halves no active run, no held lease and no held lease's run is past its expiry at the respective stamp |
| Rules.AcquireRefused | internal/store/leases.go:64-118 | which acquires are refused and why, each reason exactly |
| Rules.AcquireGrants | internal/store/leases.go:64-185 | a new lease is held and pending, begins at the stamp or at the end of the identity's last lease, lasts its TTL, and is marked exactly when it begins inside the cooldown |
| Rules.SeedSettles | internal/store/leases.go:205-232 | a seeded or skipped lease stays held with that seed and no release; a failed one ends in the same statement at the stamp or its start; nothing else changes, and every other lease is refused |
| Rules.ReleaseEnds | internal/store/leases.go:244-268 | giving back ends a held lease once and changes nothing else |
| Rules.ExpiryEnds | internal/store/leases.go:286-307 | a sweep ends exactly the held leases whose expiry has come |
| Rules.RunEnds | internal/store/runs.go:143-180 | ending a run ends exactly the leases it held |
| Rules.EndRefused | internal/store/runs.go:143-180 | which ends of a run are refused and why, each reason exactly |
| Rules.OwnedUntilEnd | internal/store/bindings.go:137-168 | however a held lease ends, its address was its own from its start up to that end and not at it |
| Rules.RunLasts | internal/store/runs.go:60-97 | a run is due from its creation plus its TTL on, and not before |
| Rules.LeaseLasts | internal/store/leases.go:286-307 | a sweep ends a lease from its start plus its TTL on, and not before |
| Rules.CooldownMarks | internal/store/leases.go:158-185 | cooling an identity down marks the leases that begin before its end, if the identity is pooled |
| Rules.SameAddressIff | internal/store/address.go:9-20 | two addresses compare equal exactly when they differ at most in the case of ASCII letters |
| Rules.IdentityRefused | internal/store/identities.go:42-84 | an identity is refused exactly without an address or with one taken in any case |
| Correlation.BindMeaning | internal/store/bindings.go:31-76 | every owned recipient is bound to its owner and judged against that lease as `Rules.DeliveryJudges` spells out, every other one is reported unbound, no lease twice |
| Correlation.BindRefusedIff | internal/store/bindings.go:31-76 | binding is refused exactly when the envelope names one owned address in two spellings |
| Rules.DeliveryJudges | internal/store/bindings.go:117-135 | every row a delivery adds carries exactly its doubt: clean if and only if the lease was not taken in a cooldown, has not ended and, if pooled, the origin is not before the second it began; each other value exactly under its own condition, in the order of the source |
| Correlation.CleanWasHeld | internal/store/bindings.go:118-135 | a binding names the only lease that owned the address, and a clean one was still held at the commit |
| Correlation.OneBindingPerAddress | internal/store/bindings.go:37-44 | two bindings of one message for one address, however spelled, are one row |
| Correlation.OnlySpelling | internal/store/messages.go:78-84 | the envelope of a bound message spells the bound address one way only |
| Correlation.DeliverKeepsInv | internal/smtp/ingest.go:218-233 | storing a message with its bindings keeps the invariant |
| Correlation.SettleKeepsInv | internal/store/messages.go:402-466 | settling an extraction keeps the invariant |
| Correlation.RecordKeepsInv | internal/store/claims.go:186-221 | recording a claimable message keeps the invariant, uniqueness and the capped window included |
| Candidates.CandidatesMeaning | internal/store/claims.go:62-150 | a message is offered exactly when it is cleanly bound, unquarantined, unclaimed for the kind, fresh, extracted and readable; oldest first |
| Candidates.Accounting | internal/store/claims.go:86-149 | every binding is a candidate, one counted refusal, or quarantined |
| Candidates.ExplainMeaning | internal/personas/claim.go:343-363 | "no binding" if and only if nothing is bound; timeout if and only if something is and every binding is quarantined, pending or usable |
| Rules.ClaimRecorded | internal/store/claims.go:186-221 | why a claim is not recorded, each reason exactly, and the window of one that is: its TTL, cut at the end of the grant |
| Rules.ValueHandedOver | internal/personas/claim.go:366-402 | a candidate has a value exactly when it settled well, opens and its field of the kind is not empty; a replay asks for the whole message as well |
| Stores.Store.AcquireLease | internal/store/leases.go:64-118 | the new tables and result are those of the acquire transaction at the stamp it took; refusals change nothing |
| Stores.Store.StartOfLease | internal/store/leases.go:131-156 | the later of the new stamp and the previous lease's end |
| Stores.Store.SettleSeed | internal/store/leases.go:205-232 | a held lease takes the outcome: seeded or skipped it stays held, failed it ends at the stamp and never before it began; every other row stays |
| Stores.Store.ReleaseLease | internal/store/leases.go:244-268 | ends a held lease; repeating it changes nothing; an unknown lease is reported |
| Stores.Store.ExpireLeases | internal/store/leases.go:286-307 | ends exactly the overdue held leases, returns their number, and leaves no held lease overdue |
| Stores.Store.EndRun | internal/store/runs.go:143-180 | ends an active run and its held leases together; ending it the same way twice is no error |
| Stores.Store.ExpireRuns | internal/store/runs.go:188-226 | ends exactly the overdue runs, no single end is refused, and no overdue active run is left |
| Stores.Store.OverdueRuns | internal/store/runs.go:191-214 | the scan returns the overdue active runs |
| Stores.Store.CreateRun | internal/store/runs.go:60-97 | an active run from its stamp to stamp plus TTL |
| Stores.Store.CreateIdentity | internal/store/identities.go:42-84 | a new identity unless its persona does not fit its mode, its address is empty or taken under the collation |
| Stores.Store.SetCooldown | internal/store/identities.go:155-162 | only a pooled identity cools down |
| Stores.Store.BindRecipients | internal/store/bindings.go:31-76 | the rows written and the unbound list are those of the binding rule, in envelope order, each row judged against the lease it names |
| Stores.Store.Deliver | internal/smtp/ingest.go:218-236 | the message and all its bindings commit, or the tables are as before; each new row is judged against the lease it names; the unbound list is exactly the recipients nobody owned |
| Stores.Store.SettleExtraction | internal/store/messages.go:409-466 | only a pending row takes a terminal state; otherwise which of the two reasons applied |
| Stores.Store.ClaimCandidates | internal/store/claims.go:62-150 | the loop returns the candidates and counts of the row-by-row definition, over all rows or the oldest up to the limit |
| Stores.Store.RecordClaim | internal/store/claims.go:186-221 | the row with its capped window, or closed window, or taken, and then nothing changes |
| Leasing.Service.ReserveEphemeral | internal/personas/lease.go:398-430 | the minted identity and its lease commit together or neither does |
| Leasing.Service.ReservePooled | internal/personas/lease.go:443-490 | leases the first candidate that is neither cooling nor held; "none available" exactly when there is none; no policy, no lease |
| Leasing.Service.Settle | internal/personas/lease.go:523-561 | a lease that was held takes the outcome and stays held exactly if its seed did not fail; a failed seed cools a pooled identity down; a lost hold changes nothing |
| Leasing.Service.Release | internal/personas/lease.go:564-589 | the lease is no longer held and a pooled identity cools down |
| Leasing.Service.Sweep | internal/personas/lease.go:593-603 | nothing live is past its expiry at the stamp its half read |
| Leasing.CooledYetMarked | internal/personas/lease.go:464-467 | which leases taken after a cooldown ended are marked as taken inside it, and that the reading is then less than a millisecond past that end |
| Ingest.Pipeline.Deliver | internal/smtp/ingest.go:186-248 | acknowledged exactly when blobs, arrival trail and bindings went through; stored pending then, and unchanged otherwise, whether or not the queue took it |
| Ingest.Pipeline.Settle | internal/smtp/ingest.go:298-325 | a pending row becomes exactly what the extractor returned if that write goes through, failed if not and the other write goes through, and stays pending otherwise; announced exactly when this call moved it |
| Ingest.Pipeline.Fail | internal/smtp/ingest.go:345-360 | marks a pending row failed and announces it; a settled row is left alone |
| Ingest.Pipeline.Recover | internal/smtp/ingest.go:257-278 | each scanned row becomes what its own outcome says, unreadable ones failed, and those that moved are announced once, in order; with working writes nothing stays pending |
| Ingest.BacklogMeaning | internal/store/messages.go:249-290 | the backlog is every pending message once, oldest first |
| Servers.Perform | internal/smtp/ingest.go:186-394 | one call on the store or the pipeline does what the protocol's actions for it do, at the stamps its readings give |
| Servers.PerformAll | internal/smtp/ingest.go:186-394 | any series of calls on a new store and pipeline ends in the tables and announcements the protocol reaches by the actions of those calls |
| Servers.SettleCommandFates | internal/smtp/ingest.go:298-360 | in the protocol a settlement makes of a pending message what its outcome says and publishes it exactly when it moved |
| Servers.RecoverCommandFates | internal/smtp/ingest.go:257-278 | in the protocol a recovery does that for every pending message, oldest first |
| Servers.OfferHint | internal/sse/bus.go:147-160 | the bus loop's treatment of a claim's waiter is the protocol's hint |
| Servers.Await | internal/sse/waiters.go:47-54 | a wait is the parked call's turn: a fresh read with an empty slot, the last attempt, or more sleep |
| Clock.StoreClock.Now | internal/store/store.go:295-304 | the millisecond of the reading, or one nanosecond past the last stamp |
| Clock.StampFormula | internal/store/store.go:277-304 | stamp k is the maximum over readings j up to k of the truncated reading plus k - j nanoseconds, and of the start |
| Clock.StampsIncrease | internal/store/store.go:277-304 | stamps strictly increase for any readings |
| Clock.StoredOrder | internal/store/store.go:374-385 | over any calendar, the stored text of four-digit years orders exactly as the times do |
| Clock.TimestampLayout | internal/store/store.go:374-385 | the stored text is the calendar fields in the layout 2006-01-02T15:04:05.000000000Z |
| Clock.FixedReadsBack | internal/store/store.go:374-385 | each number of the text reads back as its field |
| Clock.StoredStampsIncrease | internal/store/store.go:277-304 | the texts one process stores sort in the order it stored them, whatever its clock read |
| Rings.Ring.Add | internal/sse/ring.go:24-31 | after any number of adds the ring mirrors the last events of the log |
| Rings.Ring.Snapshot | internal/sse/ring.go:34-43 | the last min(n, size) events of the log in order |
| Rings.Ring.After | internal/sse/ring.go:52-68 | the log past an id, failing exactly when the id is below oldest - 1 or above newest, or not zero on an empty ring |
| Bus.Bus.Dispatch | internal/sse/bus.go:138-171 | the event is numbered next, every matching waiter with a free slot holds it, every subscriber with room gets it and the others are evicted |
| Bus.Bus.Subscribe | internal/sse/bus.go:173-204 | reset exactly when a presented id cannot be continued; otherwise the replay is the log past the id, without a gap before the live stream |
| Bus.Bus.SubscribeMatch | internal/sse/bus.go:206-209 | a registered, open, empty waiter |
| Bus.Bus.Receive | internal/sse/bus.go:297-300 | a reader takes the oldest buffered event, also after the channel was closed, and keeps every subscription on the log |
| Bus.Bus.Drop | internal/sse/bus.go:211-220 | registered and open stay the same thing; a second close changes nothing |
| Bus.Bus.DropWaiter | internal/sse/bus.go:221-226 | the same for a waiter |
| Bus.Bus.Stop | internal/sse/bus.go:119-131 | every channel ever handed out is closed, each once |
| Bus.Bus.Distribute | internal/sse/bus.go:161-165 | every subscriber keeps following the log or is closed and removed |
| Bus.Subscription.Deliver | internal/sse/bus.go:322-335 | a free buffer takes the event, a full one closes the channel and marks the eviction |
| Bus.Waiter.Deliver | internal/sse/waiters.go:76-81 | a full slot keeps its hint and drops the event |
| Bus.Waiter.Wait | internal/sse/waiters.go:47-54 | a buffered event is taken unless a passed deadline wins, a closed channel or passed deadline lets go, and otherwise it sleeps |
| Streams.Client.Connect | internal/sse/hub.go:54-83 | the connection begins as the machine's does: reset or continued, from where, and with what replay |
| Streams.Client.SendReplay | internal/sse/hub.go:80-84 | each replayed event is the log's next one after the last sent |
| Streams.Client.SendLive | internal/sse/hub.go:86-102 | each live event is the log's next one after the last sent |
| Streams.Client.Hangup | internal/sse/hub.go:71-72 | the client keeps what arrived, presents the id of the last frame it saw, and what was lost is not counted as seen |
| Streams.Play | internal/sse/hub.go:54-103 | each move of the server, its bus and its client does exactly what the machine's step does |
| Streams.PlayAll | internal/sse/hub.go:54-103 | any series of moves ends in the log, the connection and the stream the machine computes from that series |
| Sessions.RunIsConsecutive | internal/sse/hub.go:54-103 | through any series of publications, evictions, lost frames, reconnects and restarts, every stretch seen between two resets, and the one under way, is consecutive in the log of one server start |
| Sessions.ResetExactly | internal/sse/bus.go:189-202 | a client is reset exactly when its header is unreadable, the server restarted, or more than a ring was published since; otherwise it goes on right after what it saw |
| Sessions.EvictedExactly | internal/sse/bus.go:322-335 | a publication evicts an open connection exactly when 64 events wait in its buffer |
| Sessions.OpenHoldsAll | internal/sse/bus.go:173-204 | an open connection holds everything published since it began, and has nothing to send exactly when it has sent all of it |
| Sessions.RunSound | internal/sse/bus.go:113-224 | in every state of the machine, log, replay, buffer bound and presented id fit together |
| Frames.WriteFrame | internal/sse/hub.go:108-129 | the loop writes the frame of the event |
| Frames.FrameRoundTrip | internal/sse/hub.go:105-129 | a parser of sections 9.2.5 and 9.2.6 of the WHATWG HTML Living Standard reads id, name and data back if and only if the payload holds no CR |
| Frames.StreamRoundTrip | internal/sse/hub.go:105-129 | any sequence of frames is read back as its events, in order |
| EventIds.ParseInvertsPrint | internal/sse/id.go:34-72 | parsing inverts printing exactly for ids without a negative part |
| EventIds.ParsedShape | internal/sse/id.go:43-72 | what parses is two non-empty runs of digits around one hyphen |
| Otp.DigitRuns | internal/extract/otp.go:215-232 | every standalone digit run, in order, and nothing else |
| Otp.FindWords | internal/extract/extract.go:217-234 | every whole-word occurrence of a context word and nothing else |
| Otp.ScoreCandidate | internal/extract/otp.go:144-195 | the windowed loop with its early break gives the score over all words; `Ranking.RankingByPlace` says what that score decides |
| Otp.ScanWords | internal/extract/otp.go:144-183 | the binary-searched start and the early break leave out only words out of range |
| Otp.WindowSuffices | internal/extract/otp.go:137-195 | words outside the window cannot change the score |
| Otp.FullScoreIsTrue | internal/extract/otp.go:144-195 | the score over all words is the score of the text alone |
| Otp.FirstsMeaning | internal/extract/otp.go:119-135 | keeping the first of each code keeps the best ranked one of each |
| Otp.OtpCandidates | internal/extract/otp.go:88-135 | distinct codes by score descending and position ascending, each its best then earliest standalone 4 to 8 digit run outside the excluded spans; the order in terms of the text is `Ranking.RankingByPlace` |
| Otp.BestIsFirstPositive | internal/extract/extract.go:86-103 | the best code is the first with a positive score, none if there is none |
| Otp.NoBestMeaning | internal/extract/extract.go:86-103 | no best code exactly when every eligible run is neither 6 nor 8 digits long and is a year or has no context word within reach |
| Ranking.RankingByPlace | internal/extract/otp.go:88-212 | every ranking holds each code once at the best of its places, better places first: any code before a year, then a context word within 40, 80 or 160 bytes, then one at most 24 bytes in front, then six digits, then eight, then the earlier place |
| Ranking.NearerComesFirst | internal/extract/otp.go:171-183 | of two codes both years or both not, one that stands somewhere in a nearer band than the other does anywhere comes first |
| Ranking.YearsComeLast | internal/extract/otp.go:191-212 | a code that looks like a year comes after every code that does not |
| Ranking.RankingIsUnique | internal/extract/otp.go:84-87 | the order is total: a text has one ranking |
| Ranking.BestIsFirst | internal/extract/extract.go:86-103 | the best code is the first of the ranking, if it has six or eight digits or is no year and has a context word within 160 bytes; otherwise no code may be chosen |
| Links.UrlSpans | internal/extract/otp.go:243-250 | exactly the ranges of the plain URLs, ascending |
| Extract.Codes | internal/extract/extract.go:81-104 | the ranking leaves out exactly the runs a plain URL overlaps, and no code is best exactly when every other 4 to 8 digit run is worthless |
| Extract.Extract | internal/extract/extract.go:66-107 | codes, best code, links and best link of one message: the codes by place with the first of them if it may be chosen, every URL once, and the first openable verify link, or else magic link |
| Spans.MergeSpans | internal/extract/extract.go:166-188 | the in-place sort and coalesce leaves the merged list in front |
| Spans.MergedMeaning | internal/extract/extract.go:160-188 | the merged list is ascending, disjoint and covers the same positions |
| Spans.InSpansMeaning | internal/extract/extract.go:191-194 | the binary search on an ascending list answers "some span overlaps" |
| Spans.MergedOverlap | internal/extract/extract.go:160-194 | on the merged list it answers for the original spans, for every non-empty query |
| Links.TrimURLTail | internal/extract/links.go:542-584 | the running tallies give what recounting brackets after each dropped byte gives |
| Links.TrimMeaning | internal/extract/links.go:532-584 | the result is a prefix, is not trimmed further, and trimming is idempotent |
| Links.TrimEnds | internal/extract/links.go:560-584 | a URL keeps its last byte exactly when that is no sentence mark and no closing bracket outnumbering its openers; otherwise the byte goes and the rest is trimmed the same way |
| Links.FindSchemeURLs | internal/extract/links.go:476-509 | exactly the URLs at the first mark of each token, ascending and disjoint, each the text at its span |
| Links.SchemeURLShape | internal/extract/links.go:476-509 | each such URL is a scheme that is all there is of one in front of ://, runs on to the end of its token, and leaves off only a tail of sentence marks and closing brackets |
| Links.FindBareHostURLs | internal/extract/links.go:423-445 | exactly the bare-host URLs outside the excluded spans |
| Links.BareHostIs | internal/extract/links.go:459-469 | a bare host is one exactly when, up to the first / ? or #, its first label is not empty and a dot follows |
| Links.ByteClasses | internal/extract/links.go:511-530 | which bytes end a URL and which spell a scheme |
| Links.FindPlainURLs | internal/extract/links.go:377-390 | exactly the plain URLs of the text, strictly ascending and pairwise disjoint, each the text at its span |
| LinkLists.Around | internal/extract/links.go:169-192 | the context of a URL is the clipped line the scan outwards finds |
| LinkLists.IndexFindsStart | internal/extract/links.go:137-173 | the binary search over newline offsets gives the line start a backward scan gives |
| LinkLists.IndexFindsEnd | internal/extract/links.go:174-177 | and the line end a forward scan gives |
| LinkLists.ContextMeaning | internal/extract/links.go:155-192 | the context holds the URL, crosses no line break and reaches at most 120 bytes either way |
| LinkLists.ContextBegins | internal/extract/links.go:169-192 | the context begins with the line, or with the first whole rune of the 120 bytes before the URL when the line begins further off |
| LinkLists.ContextEnds | internal/extract/links.go:169-192 | and ends with the line, or before the last byte in reach that starts a rune |
| LinkLists.NewLineIndex | internal/extract/links.go:145-153 | every newline offset, ascending |
| LinkLists.CollectLinks | internal/extract/links.go:99-135 | the list collected from the hrefs and then from exactly the plain URLs of the text, each with its context as anchor |
| LinkLists.CollectedMeaning | internal/extract/links.go:92-135 | every URL once, in order of first appearance, with the first telling kind any occurrence has |
| LinkLists.TellingKindMeaning | internal/extract/links.go:92-135 | a URL's kind is that of its first occurrence that tells, and other when none does |
| LinkLists.VerifyLinkBest | internal/extract/extract.go:115-124 | the first actionable verify link, else the first actionable magic link, else nothing |
| LinkLists.NoLinkMeaning | internal/extract/extract.go:106-124 | nothing is chosen exactly when no followable URL's first telling kind is verify or magic |

## Left out

- SQL engine, migrations, files and blobs: transactions are atomic steps, guarded updates and the
  uniqueness constraints are in the row functions, and writing blobs is a flag.
- Encryption, tokens and id generation: whether a payload opens is a flag, and ids are row numbers.
- MIME parsing, the HTML tokenizer, Unicode folding, IDNA, JSON and regular expressions: library code;
  the scanners take bytes and a decoder with the properties they use, the link list takes the word
  lists behind `classify` and the URL parser behind `actionable` as function values.
- Projects, roles, ledger entries, seed fingerprints and `bound_at`: they decide nothing here.
- Quarantine's allowlist: the flag is an input of a message.
- `InsertMessage` with a ready extraction, message deletion and retention: not part of ingest or claims.
- The `totp` kind: it is refused before anything is read.
- Calendar arithmetic: `Clock.Civil` holds a time's calendar fields, and the conversion is not modelled.
- `Protocol.Step`: a message counts as acknowledged at its commit, which is earlier than the answer.
- `Protocol.NextCall`: store errors other than the modelled refusals end a call at any point (`AbortCall`).
- Personas, sessions, relay comparison, cursors, HTTP and SMTP front ends, the CLI, TypeScript packages
  and the demo: plumbing, or members that would only be easy.
