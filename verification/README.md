# A verified model of RouteCairn's control plane, collaborator and benchmark scoring

The project models three components of RouteCairn that carry promises over whole histories or over
every input, and proves those promises.

**The distributed control plane.** `Leader.dfy` is the scheduler lease with fencing tokens,
`Outbox.dfy` the transactional outbox read by a cursor, `JobQueue.dfy` the remote job queue, and
`Replay.dfy` the rejection of replayed worker requests. Each is a state machine whose steps are SQL
statements or transactions, as the row locks make them, over a clock that never goes back. Where
the code depends on the order of finer steps, they are separate: a leader tick is sent, executed
and answered (or fails, its statement executing later or never); a publishing transaction takes
its lock, draws ids and ends; a drain marks itself, queries and delivers; a request is checked and
later inserts its nonce. An event that is not possible in a state changes nothing, so every
statement about `Run` ranges over all sequences of events.

**The collaborator.** `DnsName.dfy`, `DnsQuery.dfy`, `DnsReader.dfy` and `DnsAnswer.dfy` are the
DNS codec byte by byte (sections 3.1, 4.1 and 4.2 of RFC 1035, section 6.1.2 of RFC 6891, section 3
of RFC 2308): the question printer, the query parser, the name reader with compression pointers,
the answer builder and the answer inspector, and the composition of server and client.
`DnsMessage.dfy` says which messages are queries, and `DnsContent.dfy` what replies say.
`OastLease.dfy` is the lease and evidence store, `TcpReassembly.dfy` the framing over TCP and
`RateLimiter.dfy` the fixed-window limiter. `Collaborator.dfy` joins them: from the bytes of a query
to the evidence and the reply. `Bytes.dfy` holds what they share, and
`Common.dfy` what all components share.

**Benchmark scoring.** `PracticalScoring.dfy` follows the counts through the case, application, run
and summary levels. `Evaluator.dfy` is the classification of cases, the confusion counts, the
categories and the required-case gates. `Wilson.dfy` is the confidence interval over exact reals.

Code that changes fields or tables in place is a class whose methods are specified by the step
functions of the state machine; loops are methods proved against a recursive specification; the
rest is functions. The properties are lemmas about those specifications.

## Assumptions

- Instance ids are distinct, and instance clocks run at the rate of the database clock with
  arbitrary offsets. Their times are real numbers.
- Lease tokens, lease ids and job ids are new; digests and keyed signatures are injective.
- Configuration, manifest and request schemas hold where their parsing is not modelled.

## Where code and documentation, or code and expectation, differ

- A tick computes its new expiry before it can lock the row. A statement that waits for the row
  while its client gives up keeps that old stamp, and nothing orders it after the instance's later
  ticks: it can move the row's expiry back under a live leader, and another instance takes over.
  `OvertakenStatementMakesTwoLeaders` is such a run. `AtMostOneLeader` holds for all runs without
  it, and `TwoLeadersIffEarly` says that the condition is exact. Tokens and fenced work stay in
  order even then.
- README.md line 1810 of the repository says workers can be permanently revoked. `setStatus` does
  not look at the current status, so an operator can lift a revocation; `RevokedIffLastSet` says
  exactly when, `RevokedWorkerReturns` is such a run, and `BumpedLeaseIsDead` says what stays revoked for good.
- Decoding a label as "ascii" drops the top bit of every byte, so a query name with bytes above 127
  is accepted and answered under another name. `ReprintUpToCaseIffAscii` gives the exact condition
  and `TopBitIsDropped` an input.
- The client refuses answers above 4096 bytes, but a valid configuration can have a longer
  delegation. `ReplyIsReadIff` gives the exact condition over all questions and
  `SomeDelegationIsRefused` a configuration.
- A request accepted exactly 300 s before its timestamp, or one delayed between its timestamp check
  and its nonce, can be accepted twice: `ReplayNeedsLatency` and `LatencyBoundIsExact`.
- A TCP stream above 4098 bytes is handled or destroyed depending on how it is cut:
  `OtherStreamsDependOnChunking`.

## Model

| member | source | states |
|---|---|---|
| `LeaderElection.AtMostOneLeader` | src/controlPlane/PostgresControlPlane.ts:195-224 | In every run of ticks (sent, executed with a stamp of any age since the tick began, answered late, failed), lost statements, shutdowns and time passing, at most one instance has `isLeader()` true, provided no lost statement executes with a stamp older than the grant its instance relies on |
| `LeaderElection.TwoLeadersIffEarly` | src/controlPlane/PostgresControlPlane.ts:195-224 | The condition is exact: from any state kept by such runs, with another instance able to lead, a step can be followed (without a further lost statement) to two leaders if and only if it executes a lost statement early |
| `LeaderElection.EarlyStampAdmitsTwoLeaders` | src/controlPlane/PostgresControlPlane.ts:199-206 | The continuation itself: after an early lost statement the row expires under a live leader and any other unstopped instance takes it over |
| `LeaderElection.EarlyStampUnfencesLeader` | src/controlPlane/PostgresControlPlane.ts:125-131 | After an early lost statement some continuation has a leader whose every token a fenced transaction rejects |
| `LeaderElection.OvertakenStatementMakesTwoLeaders` | src/controlPlane/PostgresControlPlane.ts:195-218 | A concrete run from the start, with leases of 10 ms, that ends with two leaders |
| `LeaderElection.PromptStampsAreOrderly` | src/controlPlane/PostgresControlPlane.ts:199-200 | Runs whose lost statements did not wait for the row, and runs without any, meet the condition |
| `LeaderElection.LiveLeaderIsFenced` | src/controlPlane/PostgresControlPlane.ts:125-131 | Under the same condition, while an instance believes it leads, the row carries it and its token, a fenced transaction with that token is admitted, and no higher token was ever issued |
| `LeaderElection.TokensNeverShared` | src/controlPlane/PostgresControlPlane.ts:199-206 | Over every run tokens are issued in nondecreasing order and no token goes to two instances |
| `LeaderElection.GrantIsFreshUnlessRenewal` | src/controlPlane/PostgresControlPlane.ts:201-206 | A grant repeats the previous token exactly when the same holder renews an unexpired row; a lapsed, released or new holder gets a token above all earlier ones |
| `LeaderElection.OldTokensNeverCommit` | src/controlPlane/PostgresControlPlane.ts:125-131 | Once a token is on the row, no continuation of any run commits fenced work with a lower one, and committed work is never lost; early lost statements included |
| `LeaderElection.WorkInTokenOrder` | src/controlPlane/PostgresControlPlane.ts:125-131 | Committed fenced work is in nondecreasing token order in every run |
| `LeaderElection.TakeOverLeadsForLease` | src/controlPlane/PostgresControlPlane.ts:207-218 | An instance that takes an expired row over leads for exactly its lease time, under the next token |
| `LeaderElection.RenewalExtendsLeadership` | src/controlPlane/PostgresControlPlane.ts:199-218 | A live leader's next tick keeps its token and makes it leader for its full lease time from then |
| `LeaderElection.FailedTickEndsLeadership` | src/controlPlane/PostgresControlPlane.ts:214-216 | A failed tick ends leadership at once, whatever the deadline |
| `LeaderElection.UnsafeTokenIsRefused` | src/controlPlane/PostgresControlPlane.ts:208-212 | A granted tick makes the holder leader up to its deadline, except with a token beyond the safe integers once the error is caught |
| `LeaderElection.StoppedNeverLeads` | src/controlPlane/PostgresControlPlane.ts:218-221 | After its shutdown an instance never leads again, in any continuation |
| `LeaderElection.LeaderCommitsWork` | src/controlPlane/PostgresControlPlane.ts:125-131 | Fenced work of a live leader is admitted, holds the row, and is recorded under its token exactly if it commits |
| `LeaderElection.FencedRowIsLocked` | src/controlPlane/PostgresControlPlane.ts:127 | While a fenced transaction holds the row no upsert and no release changes it |
| `LeaderElection.ReleaseAdmitsTakeOver` | src/controlPlane/PostgresControlPlane.ts:220-224 | After a stopped holder's release and any positive time, another instance's tick makes it leader under the next token |
| `LeaderElection.ReleaseEndsFencing` | src/controlPlane/PostgresControlPlane.ts:127-128 | After the release no fenced transaction with that token is admitted on a clock reading at or after it, in any continuation without a second release by the same instance |
| `LeaderElection.StaleReleaseChangesNothing` | src/controlPlane/PostgresControlPlane.ts:223 | A release whose token is no longer on the row changes nothing |
| `LeaderElection.RunKeepsInv` | src/controlPlane/PostgresControlPlane.ts:195-224 | Every run without an early lost statement keeps: the row outlives each unexpired local deadline and carries its token, also for replies still under way |
| `LeaderElection.RunKeepsTokens` | src/controlPlane/PostgresControlPlane.ts:125-206 | Every run whatsoever keeps the history of tokens and of fenced work in order |
| `LeaderElection.SchedulerRuns.constructor` | src/controlPlane/PostgresControlPlane.ts:199-200 | Starts without a row |
| `LeaderElection.SchedulerRuns.InsertOrTakeOver` | src/controlPlane/PostgresControlPlane.ts:199-206 | The tick's upsert: takes the row if it is absent, strictly expired or its own, bumps the token unless it is a live renewal, and returns the token or no row |
| `LeaderElection.SchedulerRuns.ExpireIfHeld` | src/controlPlane/PostgresControlPlane.ts:223 | Shutdown's update expires the row only while it carries this holder and token |
| `LeaderElection.SchedulerRuns.LockFence` | src/controlPlane/PostgresControlPlane.ts:126-128 | A fenced transaction locks the row exactly when holder and token match and the row expires strictly after the clock read before any wait for the lock |
| `LeaderElection.Election.constructor` | src/controlPlane/PostgresControlPlane.ts:183-191 | A new election holds nothing |
| `LeaderElection.Election.BeginTick` | src/controlPlane/PostgresControlPlane.ts:196-197 | Remembers the local time before the query; does nothing while ticking or stopped |
| `LeaderElection.Election.FinishTick` | src/controlPlane/PostgresControlPlane.ts:207-214 | Processes a reply: deadline counted from before the query, token stored, unsafe token handled as the error path does |
| `LeaderElection.Election.FailTick` | src/controlPlane/PostgresControlPlane.ts:214-216 | A failed timer tick drops leadership |
| `LeaderElection.Election.Shutdown` | src/controlPlane/PostgresControlPlane.ts:221 | Stops and drops leadership |
| `LeaderElection.Election.Token` | src/controlPlane/PostgresControlPlane.ts:218-219 | Returns the token exactly while the instance is leader |
| `Outbox.InFlightAboveCommitted` | src/controlPlane/PostgresControlPlane.ts:110-118 | For every interleaving, an id still in flight exceeds every committed id |
| `Outbox.DispatchedOnceInOrder` | src/controlPlane/PostgresControlPlane.ts:153-166 | In every run a subscriber has dispatched committed events after its starting cursor in strictly increasing id order, and every unpruned event its cursor has passed was dispatched |
| `Outbox.DispatchedIsForever` | src/controlPlane/PostgresControlPlane.ts:153-166 | In every run the cursor never moves back and what was dispatched stays dispatched |
| `Outbox.CommittedIsKept` | src/controlPlane/PostgresControlPlane.ts:104 | A committed event stays in the table for seven days from its publication |
| `Outbox.PageIsGapless` | src/controlPlane/PostgresControlPlane.ts:158 | A page of the query is ordered, lies above the cursor, and skips no row up to its last one |
| `Outbox.PageCount` | src/controlPlane/PostgresControlPlane.ts:158 | A page has as many rows as are pending, up to the limit, and leaves the others above its end |
| `Outbox.DeliverIsWhole` | src/controlPlane/PostgresControlPlane.ts:159-164 | With valid topics the loop dispatches the whole page in order and ends with the cursor on its last id |
| `Outbox.DrainShrinksBacklog` | src/controlPlane/PostgresControlPlane.ts:153-166 | An undisturbed drain dispatches min(512, backlog) rows and shrinks the backlog by that many |
| `Outbox.DrainsCatchUp` | src/controlPlane/PostgresControlPlane.ts:153-166 | After n undisturbed drains with 512 * n at least the backlog, every row of the table above the starting cursor has been dispatched |
| `Outbox.CommitPublishes` | src/controlPlane/PostgresControlPlane.ts:105-118 | From any state kept by runs, lock, any insertions interleaved with anything else, and commit put each accepted draft into log and table exactly once, with topic, key, payload and time of insertion, under new ids in order, and nothing else new |
| `Outbox.RollbackPublishesNothing` | src/controlPlane/PostgresControlPlane.ts:105-109 | After a rollback none of the inserted rows is in the log, then or in any continuation |
| `Outbox.PublishedIsDispatched` | src/controlPlane/PostgresControlPlane.ts:105-118 | A subscriber that started before a committed publication dispatches exactly that draft once enough drains follow |
| `Outbox.StartSkipsOlder` | src/controlPlane/PostgresControlPlane.ts:94-95 | A subscriber is never given a row that was in the table when it started |
| `Outbox.StartedCanDrain` | src/controlPlane/PostgresControlPlane.ts:96-97 | A started subscriber can drain |
| `Outbox.ShutdownIsFinal` | src/controlPlane/PostgresControlPlane.ts:138-139 | After a shutdown outside a drain nothing more is dispatched, in any continuation |
| `Outbox.FailedDrainIsRetried` | src/controlPlane/PostgresControlPlane.ts:156-165 | A failed drain leaves cursor and dispatched rows as they were and can be repeated |
| `Outbox.MaintenanceDeletesOld` | src/controlPlane/PostgresControlPlane.ts:104 | Maintenance deletes exactly the rows published more than seven days ago |
| `Outbox.ServiceTopicsArePublishable` | src/controlPlane/PostgresControlPlane.ts:111-112 | Drafts under the service topics are accepted exactly up to 200 characters of key and 7000 bytes of payload; other topics are refused |
| `Outbox.RunKeepsInv` | src/controlPlane/PostgresControlPlane.ts:110-166 | Every run keeps: committed ids are settled, missing rows are old, and each subscriber's dispatched rows and fetched page are gapless extracts of the log |
| `Outbox.EventReader.constructor` | src/controlPlane/PostgresControlPlane.ts:94-95 | Starts at the newest committed id |
| `Outbox.EventReader.BeginDrain` | src/controlPlane/PostgresControlPlane.ts:154-155 | Queries only when neither stopped nor draining, and marks itself draining |
| `Outbox.EventReader.DeliverRows` | src/controlPlane/PostgresControlPlane.ts:159-165 | The loop moves the cursor before each dispatch, stops at an invalid topic, and always clears `draining` |
| `JobQueue.LeaseRequestsNeedLatestToken` | src/controlPlane/PostgresRemoteWorkerService.ts:88-98 | In every run renew and complete are accepted if and only if the token is the job's most recent lease's, unexpired, from its worker and generation, and that generation is current and active |
| `JobQueue.AttemptsAreBounded` | src/controlPlane/PostgresRemoteWorkerService.ts:74-84 | In every run leases handed out equal `attempt_count` and never exceed `max_attempts`; QUEUED has attempts left; token and expiry are set exactly while LEASED or RUNNING; at most one completion succeeds; non-renewal transitions are at most 2 * max_attempts |
| `JobQueue.LeasesOnlyToQualified` | src/controlPlane/PostgresRemoteWorkerService.ts:54-81 | Every lease ever granted went to a worker of the job's organization with all required capabilities, the one implied by the job's kind included, and a matching zone |
| `JobQueue.TerminalIsForever` | src/controlPlane/PostgresRemoteWorkerService.ts:74-84 | COMPLETED and FAILED jobs never change again |
| `JobQueue.BumpedLeaseIsDead` | src/controlPlane/PostgresRemoteWorkerService.ts:100 | A lease granted before a generation bump is never renewed or completed afterwards, by anyone |
| `JobQueue.WithdrawalHolds` | src/controlPlane/PostgresRemoteWorkerService.ts:49-53 | Until an operator sets its status, a draining, quarantined or revoked worker keeps status and generation whatever it reports, and gets no lease |
| `JobQueue.RevokedIffLastSet` | src/controlPlane/PostgresRemoteWorkerService.ts:100 | After every run a worker is revoked if and only if the last operator statement about it revoked it, or there was none and it was revoked before |
| `JobQueue.RevokedWorkerReturns` | src/controlPlane/PostgresRemoteWorkerService.ts:69-100 | A run from the start (enrol, revoke, set ONLINE, enqueue, claim) after which the once-revoked worker holds the latest lease of a job |
| `JobQueue.DrainingFinishes` | src/controlPlane/PostgresRemoteWorkerService.ts:88-98 | In every run a draining worker can complete the latest lease it holds; the job then keeps that outcome and its one completion for ever, and no request about it is accepted again |
| `JobQueue.AdmittedClaimSucceeds` | src/controlPlane/PostgresRemoteWorkerService.ts:69-87 | For every state and whatever rows are locked during each of the two queries, an admitted claim has an outcome, and it yields a job whenever an eligible one was queued and is unlocked during the second |
| `JobQueue.ClaimTakesBest` | src/controlPlane/PostgresRemoteWorkerService.ts:78-82 | After every accepted claim no unlocked job that still waits for this worker has a higher priority than the one taken, and none of equal priority is older; a claim that takes none leaves none |
| `JobQueue.EnqueuedIsClaimable` | src/controlPlane/PostgresRemoteWorkerService.ts:54-58 | An enqueued job is waiting with its own organization, capabilities, zone, priority and age: no claim of a worker that may run it comes back empty-handed or takes a job it beats |
| `JobQueue.GrantLastsForLease` | src/controlPlane/PostgresRemoteWorkerService.ts:83-84 | Renewing with a lease just granted is accepted for exactly the lease time |
| `JobQueue.RenewalLastsForLease` | src/controlPlane/PostgresRemoteWorkerService.ts:98 | After an accepted renewal, renewal and completion are accepted for exactly the full lease time from then |
| `JobQueue.LapsedIsRecovered` | src/controlPlane/PostgresRemoteWorkerService.ts:74-77 | A claim puts an unlocked lapsed job of its organization back to waiting (or leases it) while attempts remain and fails it otherwise, unless a hundred others that lapsed no later were recovered instead |
| `JobQueue.HeartbeatAdmits` | src/controlPlane/PostgresRemoteWorkerService.ts:49-53 | A heartbeat sets what it reports unless draining, and after ONLINE the worker can claim for exactly 90 seconds |
| `JobQueue.EnrolledCanClaim` | src/controlPlane/PostgresRemoteWorkerService.ts:31-36 | A newly enrolled worker has its own data and can claim for exactly 90 seconds without a heartbeat |
| `JobQueue.StaleStatusCannotClaim` | src/controlPlane/PostgresRemoteWorkerService.ts:70 | A request authenticated while its worker was not ONLINE claims nothing |
| `JobQueue.StatusChangeEndsLeases` | src/controlPlane/PostgresRemoteWorkerService.ts:100 | Setting any status but DRAINING ends every lease the worker was ever given, in every continuation; DRAINING ends none |
| `JobQueue.ZonesMatchIgnoringCase` | src/controlPlane/PostgresRemoteWorkerService.ts:112 | A worker's zone becomes a job's zone exactly when they agree up to the case of letters |
| `JobQueue.ImpliedIsLowerCase` | src/controlPlane/PostgresRemoteWorkerService.ts:55 | Each job kind implies the capability of its own name in lower case |
| `JobQueue.OneToTenAttempts` | src/controlPlane/PostgresRemoteWorkerService.ts:55 | A job is taken in for one to ten attempts and no others |
| `JobQueue.SweepChoiceExists` | src/controlPlane/PostgresRemoteWorkerService.ts:74 | The sweep always has a choice: the 100 earliest lapsed unlocked leases, or all when fewer |
| `JobQueue.ClaimChoiceExists` | src/controlPlane/PostgresRemoteWorkerService.ts:78-82 | There is always a first candidate by priority then age, unless there is none at all |
| `JobQueue.RunKeepsInv` | src/controlPlane/PostgresRemoteWorkerService.ts:54-100 | Every run keeps the per-job and per-grant invariants above |
| `JobQueue.RemoteWorkerService.constructor` | src/controlPlane/PostgresRemoteWorkerService.ts:56-57 | Starts with empty tables |
| `JobQueue.RemoteWorkerService.EnrollWorker` | src/controlPlane/PostgresRemoteWorkerService.ts:30-36 | Inserts an ONLINE worker of generation 1 seen now, with its zone normalized or the enrolment refused |
| `JobQueue.RemoteWorkerService.EnqueueJob` | src/controlPlane/PostgresRemoteWorkerService.ts:54-60 | Inserts a QUEUED job without attempts, for 1 to 10 attempts, requiring the capability its kind implies as well |
| `JobQueue.RemoteWorkerService.ClaimNow` | src/controlPlane/PostgresRemoteWorkerService.ts:69-87 | Sweeps lapsed leases, leases the best eligible job under a new token, changes no other row; does nothing for a stale, silent or non-ONLINE worker |
| `JobQueue.RemoteWorkerService.RenewLease` | src/controlPlane/PostgresRemoteWorkerService.ts:98 | Extends the lease exactly when the request holds it |
| `JobQueue.RemoteWorkerService.CompleteJob` | src/controlPlane/PostgresRemoteWorkerService.ts:88-97 | Finishes the job and clears the lease exactly when the request holds it |
| `JobQueue.RemoteWorkerService.RecordHeartbeat` | src/controlPlane/PostgresRemoteWorkerService.ts:49-53 | Updates status and last-seen time; DRAINING is never lifted |
| `JobQueue.RemoteWorkerService.SetWorkerStatus` | src/controlPlane/PostgresRemoteWorkerService.ts:100 | Sets any status; bumps the generation unless the new status is DRAINING |
| `RequestReplay.ReplayNeedsLatency` | src/controlPlane/PostgresRemoteWorkerService.ts:41-46 | In every run a request accepted twice spent, the second time, at least (first acceptance - timestamp + 300 s) between its timestamp check and its nonce insertion |
| `RequestReplay.PromptRequestsNeverReplay` | src/controlPlane/PostgresRemoteWorkerService.ts:41-46 | With prompt insertion, a request first accepted strictly later than 300 s before its timestamp is never accepted again |
| `RequestReplay.LatencyBoundIsExact` | src/controlPlane/PostgresRemoteWorkerService.ts:41-46 | For every first acceptance time that latency suffices for a second acceptance, so the bound is exact; at the very edge none is needed |
| `RequestReplay.RequestIsAcceptedIff` | src/controlPlane/PostgresRemoteWorkerService.ts:41-46 | A request inserted at once is accepted if and only if its timestamp is within 300 s and its worker has no such nonce stored |
| `RequestReplay.NonceIsHeldTenMinutes` | src/controlPlane/PostgresRemoteWorkerService.ts:46 | An accepted nonce is refused, clean-ups included, for exactly ten minutes |
| `RequestReplay.RunKeepsInv` | src/controlPlane/PostgresControlPlane.ts:104 | Every run keeps: an accepted request's nonce stays in the table until ten minutes after acceptance |
| `RequestReplay.NonceTable.constructor` | src/controlPlane/PostgresRemoteWorkerService.ts:46 | Starts empty |
| `RequestReplay.NonceTable.Insert` | src/controlPlane/PostgresRemoteWorkerService.ts:46 | Succeeds exactly when the worker's nonce is not in the table, and stores it for ten minutes |
| `RequestReplay.NonceTable.DeleteExpired` | src/controlPlane/PostgresControlPlane.ts:104 | Keeps exactly the nonces that expire later than now |
| `TcpReassembly.ChunkingDoesNotMatter` | src/oast/OastService.ts:151-165 | Every split of a stream of at most 4098 bytes, or one with an illegal prefix, gives the same outcome |
| `TcpReassembly.CompleteMessageIsHandled` | src/oast/OastService.ts:151-165 | A complete stream of at most 4098 bytes with a prefix n in 17..4096 hands over exactly its n bytes after the prefix, for every split |
| `TcpReassembly.OutcomeOfStream` | src/oast/OastService.ts:153-160 | What becomes of every such stream, for every split: destroyed for a prefix outside 17..4096, waiting for more, or handed over |
| `TcpReassembly.OtherStreamsDependOnChunking` | src/oast/OastService.ts:156 | The condition is exact: every other stream has a split that is handled and one that is destroyed |
| `TcpReassembly.Session.constructor` | src/oast/OastService.ts:152 | A fresh connection |
| `TcpReassembly.Session.OnData` | src/oast/OastService.ts:153-161 | One `data` event, as the specification function |
| `RateLimiter.AnySecondIsBounded` | src/oast/OastService.ts:96-99 | For every nondecreasing call times, any half-open 1000 ms interval holds at most 2 * max allowed calls and each window at most max |
| `RateLimiter.AnyRealSecondIsBounded` | src/oast/OastService.ts:96-99 | Once the clock reads at least 1000 ms the bound is 2 * max - 1 |
| `RateLimiter.BoundIsReached` | src/oast/OastService.ts:96-99 | For every max and every start some call times reach 2 * max - 1 |
| `RateLimiter.TraceWindows` | src/oast/OastService.ts:97 | Each call lies in its window and windows start at least 1000 ms apart |
| `RateLimiter.WindowIsBounded` | src/oast/OastService.ts:98 | A window allows at most max calls |
| `RateLimiter.AllowedIffWindowHasRoom` | src/oast/OastService.ts:96-99 | A call is allowed if and only if fewer than max fell into its window before it; a new window opens if and only if the current one started at least a second before |
| `RateLimiter.RequestLimiter.constructor` | src/oast/OastService.ts:29-30 | Both counters start at zero |
| `RateLimiter.RequestLimiter.AllowRequest` | src/oast/OastService.ts:96-99 | One call, as the specification function |
| `DnsName.JoinOfSplit` | src/oast/OastDns.ts:64 | Splitting a name at dots and joining it gives the name |
| `DnsName.SplitOfJoin` | src/oast/OastDns.ts:31 | Joining labels without dots and splitting gives the labels |
| `DnsName.WireLength` | src/oast/OastDns.ts:64 | The wire form is two bytes longer than the text |
| `DnsName.PrintedLabels` | src/oast/OastDns.ts:64 | Printing the lower-case ASCII text of readable labels prints exactly those labels, lower-case and ASCII |
| `DnsName.WireNameInjective` | src/oast/OastDns.ts:64 | The wire form of a name determines its labels |
| `DnsName.LabelCharsAre` | src/oast/OastDns.ts:16 | Labels consist of letters, digits, underscore and hyphen |
| `DnsName.LowerIsLowerCase` | src/oast/OastDns.ts:31 | Lower-casing leaves no capital and changes only capitals, to their small letters |
| `DnsQuery.ParseOfQuestion` | src/oast/OastDns.ts:6-32 | Parsing a printed question of any legal name gives its lower-case name, type and full length |
| `DnsQuery.ParsesExactlyLegal` | src/oast/OastDns.ts:63-64 | Over all byte strings, a printed question is parsed if and only if the name is legal |
| `DnsQuery.ReprintGivesQuestion` | src/oast/OastDns.ts:6-32 | For every accepted message, with or without OPT, reprinting the parsed name and type gives the question bytes, the name part ASCII-decoded and in lower case |
| `DnsQuery.ReprintUpToCaseIffAscii` | src/oast/OastDns.ts:15 | The question name and its reprint differ by letter case only if and only if no byte has its top bit set |
| `DnsQuery.TopBitIsDropped` | src/oast/OastDns.ts:15 | A concrete accepted message whose label byte 0xE1 becomes the letter a |
| `DnsQuery.ReadQuestionName` | src/oast/OastDns.ts:10-19 | The label loop computes the specified labels and end, for every message |
| `DnsQuery.ParseQuery` | src/oast/OastDns.ts:6-32 | The parser with its loops computes the specified result, without an out-of-range read |
| `DnsQuery.ParseOpt` | src/oast/OastDns.ts:24-29 | The OPT record fills the rest of the message, option by option |
| `DnsQuery.CallbackRoundTrip` | src/oast/OastDns.ts:34-38 | A callback name in any letter case is parsed exactly when the zone has at most 187 bytes, and then yields its lease identity |
| `DnsQuery.IdentityOfCallback` | src/oast/OastDns.ts:34-38 | The identity of a lease's callback name is that lease's |
| `DnsQuery.IdentityIsExact` | src/oast/OastDns.ts:34-38 | A name yields a lease identity if and only if it is that identity's callback name |
| `DnsMessage.AcceptedIff` | src/oast/OastDns.ts:6-32 | A message is accepted if and only if it is at most 4096 bytes and encodes a proper query: the header bits, one question of at least one label, at most 255 name bytes, class IN, and nothing or one OPT record of version 0 after it |
| `DnsMessage.MessageIsParsed` | src/oast/OastDns.ts:6-32 | Every such encoding, with any flags, labels and options, is parsed into its name, type, question end and RD bit |
| `DnsMessage.ParsedIsMessage` | src/oast/OastDns.ts:6-32 | Every accepted message is such an encoding |
| `DnsReader.ReadName` | src/oast/OastDnsTransport.ts:28 | For every byte string and start the reader ends (16 jumps, then remaining bytes), never reads out of range, and returns the name that section 4.1.4 of RFC 1035 denotes |
| `DnsReader.NameReadBounds` | src/oast/OastDnsTransport.ts:28 | A returned end lies strictly after the start and within the message; the name has at most 253 bytes |
| `DnsReader.CompressedName` | src/oast/OastDnsTransport.ts:28 | Labels followed by a pointer denote those labels and then the name at the target; the end is after the pointer |
| `DnsReader.PlainName` | src/oast/OastDnsTransport.ts:28 | An uncompressed name denotes its own labels and ends after its terminator |
| `DnsReader.ReadsNameBytes` | src/oast/OastDnsTransport.ts:28 | Reading a printed legal name gives it back in lower case |
| `DnsReader.ChainIsReadIff` | src/oast/OastDnsTransport.ts:28 | A chain of pointers to a root name is followed if and only if it has at most 16 |
| `DnsReader.ReadRecord` | src/oast/OastDnsTransport.ts:11 | The owner, fixed part and data of one record |
| `DnsReader.WalkAll` | src/oast/OastDnsTransport.ts:11 | The record loop computes the specified name servers, types and end |
| `DnsReader.InspectAnswer` | src/oast/OastDnsTransport.ts:7-14 | The inspector accepts exactly what the specification does and reports its flags |
| `DnsReader.AcceptedIsConsumed` | src/oast/OastDnsTransport.ts:11-12 | An accepted answer is its question followed by exactly the announced records, without a gap, to its last byte |
| `DnsReader.AnswerIsAcceptedIff` | src/oast/OastDnsTransport.ts:7-12 | An answer is accepted if and only if it is at most 4096 bytes, answers the question's id and bytes, announces at most 32 records, and these fill the rest exactly with one name in each NS answer |
| `DnsReader.RecordIsIn` | src/oast/OastDnsTransport.ts:11 | A record that is read has class IN, and the type and data length of its bytes |
| `DnsReader.ReportedFlagsAreTheBytes` | src/oast/OastDnsTransport.ts:9-13 | The reported AA, TC, RA and code make up the flag bytes of the answer, and one type is reported for each announced answer |
| `DnsAnswer.ServerAndClientAgree` | src/oast/OastDns.ts:40-61 | For every message the server accepts, with or without OPT or RD, and every valid configuration, a client that asked its question section accepts the reply if and only if it is at most 4096 bytes, with AA inside the zone, RA clear, TC on truncation, rcode 0, 3 or 5, and the answers sent |
| `DnsAnswer.PrintedQuestionAgrees` | src/oast/OastDns.ts:63 | The same for the client's own printed question of any legal name, type and id |
| `DnsAnswer.ReplyIsReadIff` | src/oast/OastDnsTransport.ts:8 | Over all accepted messages and valid configurations the client accepts the reply if and only if it is not the zone's own delegation over TCP, or the delegation's length, a sum over the configured names, is at most 4096 |
| `DnsAnswer.UdpReplyFits` | src/oast/OastDns.ts:58-59 | Every UDP reply, to any accepted message, is at most 512 bytes |
| `DnsAnswer.AnswersOrSoa` | src/oast/OastDns.ts:46-60 | Read off the reply's bytes, for every accepted message: an in-zone reply that is not cut has answers or exactly one authority record, never both; every answer has the asked type and the asked name, and the authority is an SOA owned by the zone; outside the zone there are no records |
| `DnsAnswer.DelegationIsRead` | src/oast/OastDns.ts:50 | Over TCP, when the delegation is at most 4096 bytes, the client reads exactly the configured name servers |
| `DnsAnswer.SomeDelegationIsRefused` | src/oast/OastDnsTransport.ts:8 | A valid configuration whose delegation has 4221 bytes, which the client refuses |
| `DnsAnswer.RecordsAreLaid` | src/oast/OastDns.ts:65 | Printed records are read back one after the other, each at its place with its type and extent |
| `DnsAnswer.PushDelegation` | src/oast/OastDns.ts:50 | The loop over the name servers pushes their NS records and glue in order |
| `DnsAnswer.PushRecords` | src/oast/OastDns.ts:46-52 | The records of the three sections for a query |
| `DnsContent.ReplySays` | src/oast/OastDns.ts:40-61 | Read off the bytes of every reply to an accepted message: the query's id and RD, AA inside the zone, TC exactly when cut, code 5, 0 or 3, the echoed question, and, unless cut, exactly the due records with owner, 30 seconds and data: the configured IPv4 or IPv6 address, the zone's NS records with both addresses under each server's name, or one SOA with its two names and five numbers |
| `DnsContent.SectionsAreDue` | src/oast/OastDns.ts:46-52 | For every query the records of the three sections are the due ones: an address question for a known name gets that one address, IPv6 exactly when published, the zone its servers or its SOA, everything else in the zone one SOA authority, and nothing outside |
| `DnsContent.AddressReplyIsCutIff` | src/oast/OastDns.ts:59 | The reply to an address question for a known name is cut if and only if it goes over UDP and the name has more than 239 bytes |
| `DnsContent.RecordsAreCarried` | src/oast/OastDns.ts:65 | Printed records stand in the message one after the other with their owner, time to live and data bytes |
| `OastLease.CallbacksAreAcceptedOnce` | src/oast/OastStore.ts:53-79 | In every run at most one callback is accepted per lease and protocol, only for granted protocols, only in [created, expires), and none after revocation even if validated before |
| `OastLease.EvidenceIsRetained` | src/oast/OastStore.ts:96 | In every run accepted evidence, with its time, delay and fingerprints, stays until the retention has elapsed after expiry |
| `OastLease.LimitsHold` | src/oast/OastStore.ts:45 | In every run the store holds at most maxLeases leases and a lease at most maxEventsPerLease events, so polling omits none; every lease lives between 30 seconds and the configured maximum |
| `OastLease.StatusNeverReturns` | src/oast/OastStore.ts:81-88 | Once a lease polls as expired or revoked it never polls as active again, and revoked stays revoked |
| `OastLease.CallbackIsAcceptedIff` | src/oast/OastStore.ts:53-79 | A callback of any protocol is accepted, with its time and fingerprints, if and only if its lease is active, unexpired, grants the protocol, was signed for it, and has room; a repeated one is marked and nothing else changes |
| `OastLease.CreatedLeaseIsUsable` | src/oast/OastStore.ts:34-48 | A new lease is usable, and polls as active, for exactly the requested time taken between 30 seconds and the maximum; it is refused only at the limit of retained leases |
| `OastLease.PruneDeletesOld` | src/oast/OastStore.ts:96 | Pruning deletes exactly the leases whose retention has elapsed, with their events |
| `OastLease.RevocationIsFinal` | src/oast/OastStore.ts:90-94 | Revoking with the right token ends the lease in every continuation; with any other nothing changes |
| `OastLease.RunKeepsInv` | src/oast/OastService.ts:128-148 | Every run, with validation and record as separate steps, keeps the lease, event and history invariants |
| `OastLease.Store.constructor` | src/oast/OastStore.ts:10-20 | Starts with empty tables |
| `OastLease.Store.PruneExpired` | src/oast/OastStore.ts:96 | Deletes exactly the leases whose retention has elapsed, and their events |
| `OastLease.Store.CreateLease` | src/oast/OastStore.ts:34-51 | Prunes, refuses at the limit, clamps the time to live, and inserts one active lease |
| `OastLease.Store.ValidateIdentity` | src/oast/OastStore.ts:53-58 | Yields the lease exactly when active, unexpired, rightly signed and granted for the protocol |
| `OastLease.Store.RecordCallback` | src/oast/OastStore.ts:63-79 | Accepts once per protocol on a usable lease; marks replays; respects the event limit |
| `OastLease.Store.Poll` | src/oast/OastStore.ts:81-88 | With the right token: the status and the lease's evidence, oldest first by time and id, all of it unless it exceeds the limit |
| `OastLease.OldestFirst` | src/oast/OastStore.ts:85 | The rows of one lease ordered by time and id and cut at the limit: each once, sorted, none omitted that comes before a listed one, all of them if and only if they fit |
| `OastLease.Store.RevokeLease` | src/oast/OastStore.ts:90-94 | With the right token: revokes this lease and changes no other |
| `Collaborator.QueriesAreAcceptedOnce` | src/oast/OastService.ts:141-149 | After any history of DNS queries given as bytes and other store steps, a query is accepted for a lease if and only if it asks for its callback name while the lease is usable for DNS and holds no DNS evidence; over the whole history no lease has two accepted DNS callbacks, none outside [created, expires) and none after revocation |
| `Collaborator.RecordedIff` | src/oast/OastService.ts:143-147 | For every byte string: it becomes evidence for a lease exactly under that condition, and any other message leaves the history as it is |
| `Collaborator.LeaseOfIff` | src/oast/OastService.ts:145-146 | A query is valid for a lease if and only if it asks for that lease's own callback name while the lease is usable and granted DNS |
| `Collaborator.CallbackIsAnswered` | src/oast/OastService.ts:141-149 | A client that prints a lease's callback name in any letter case gets a reply it accepts: authoritative, code 0 exactly while the lease is usable for DNS (or the name is a configured server), 3 otherwise; an A question for a usable lease yields answer types [1] and one record with the configured address, unless the name is longer than 239 bytes over UDP |
| `Collaborator.CallbackOverTcp` | src/oast/OastService.ts:141-165 | For every way the length-prefixed question of a lease's callback name is cut into chunks, the connection hands over that question; it becomes evidence exactly while the lease is usable for DNS and open, and the whole reply, at most 4096 bytes, is read by the client with the same code, and for an A question of a usable lease with the configured address |
| `Collaborator.FramedIsHandled` | src/oast/OastService.ts:153-161 | However a framed message of 17 to 4096 bytes is cut, and whatever follows it up to 4098 bytes in all, exactly that message is handed over |
| `Collaborator.InputsAreEvents` | src/oast/OastService.ts:141-149 | Every history of queries and other steps is a run of the store, so the store's results hold for it |
| `Wilson.IntervalIsScoreTest` | src/benchmark/BenchmarkEvaluator.ts:201-208 | For all 0 <= s <= n, n > 0, in exact reals: 0 <= lower <= s/n <= upper <= 1, the clamps change nothing, and the interval is exactly the set of proportions the score test keeps, its endpoints the two solutions of (s/n - x)^2 = z^2 x (1 - x) / n |
| `Wilson.EndpointsSolve` | src/benchmark/BenchmarkEvaluator.ts:204-207 | Both endpoints solve (s/n - x)^2 = z^2 x (1 - x) / n with z = 1.959963984540054 |
| `Wilson.IntervalMirrors` | src/benchmark/BenchmarkEvaluator.ts:201-208 | Counting failures instead of successes mirrors the interval |
| `Wilson.IntervalIsMonotone` | src/benchmark/BenchmarkEvaluator.ts:201-208 | More successes never lower an endpoint |
| `PracticalScoring.DenominatorsAreFixed` | src/benchmark/PracticalAssessmentBenchmark.ts:89-121 | For any accepted receipts, missing runs and predictions included, the eight counts of the summary add up to cases times expected repetitions |
| `PracticalScoring.RevealedTotals` | src/benchmark/HeldOutDiscoveryEvaluation.ts:111-178 | A revealed run accounts for every case of the contract, application by application, in contract order |
| `PracticalScoring.CountsPartition` | src/benchmark/ApplicationDiscoveryEvaluation.ts:67-88 | The eight classifications partition the cells of an application |
| `PracticalScoring.CasesOfSize` | src/benchmark/HeldOutDiscoveryEvaluation.ts:112-127 | An application is scored on exactly its own cases of the oracle, each once |
| `PracticalScoring.SummaryMeans` | src/benchmark/PracticalAssessmentBenchmark.ts:114-120 | Each of the eight summary counts is the number of cases whose truth and predictions put them in that class, over all runs and applications; a missing run adds all cases to the untested ones and nothing else |
| `PracticalScoring.ScoreMeans` | src/benchmark/ApplicationDiscoveryEvaluation.ts:40-88 | Each count of an application's score is the number of its cases that the truth and the set of predictions put in that class |
| `PracticalScoring.RevealSucceedsIff` | src/benchmark/HeldOutDiscoveryEvaluation.ts:87-120 | Reveal succeeds if and only if the receipt is the commitment to this contract, the oracle is the committed one, and its membership is exact |
| `PracticalScoring.CommitSucceedsIff` | src/benchmark/HeldOutDiscoveryEvaluation.ts:56-79 | A commitment is made if and only if ids are unique and every measurement fits the fixed opportunities, budget and cases of an application, and it binds contract and measurements |
| `PracticalScoring.CommitPredictions` | src/benchmark/HeldOutDiscoveryEvaluation.ts:56-85 | The validation with its loop over the measurements |
| `PracticalScoring.SummarySucceedsIff` | src/benchmark/PracticalAssessmentBenchmark.ts:89-92 | A summary is made if and only if there are no more runs than expected, under distinct ids, each bound to this manifest and revealed by this oracle |
| `PracticalScoring.PredictionsAreItsOwn` | src/benchmark/HeldOutDiscoveryEvaluation.ts:120-129 | An application is scored on its own measurement's predictions, and on none when it was not measured |
| `PracticalScoring.CasesAreTheOracles` | src/benchmark/HeldOutDiscoveryEvaluation.ts:127 | An application's cases are the oracle's own entries for its ids |
| `PracticalScoring.CommittedIsScored` | src/benchmark/ApplicationDiscoveryEvaluation.ts:29-39 | The scorer never refuses the predictions of a committed receipt |
| `PracticalScoring.LookupsSucceed` | src/benchmark/PracticalAssessmentBenchmark.ts:95-97 | Both non-null look-ups of the summary succeed in every accepted run and find the run's own prediction or UNTESTED |
| `PracticalScoring.CellsAgreeWithCounts` | src/benchmark/PracticalAssessmentBenchmark.ts:93-120 | The summary's untested count, taken run by run from the scores, equals the UNTESTED entries of its padded cells |
| `PracticalScoring.OutcomeRow` | src/benchmark/PracticalAssessmentBenchmark.ts:95-98 | One cell: the outcomes of the executed runs in order, then UNTESTED up to the expected repetitions |
| `PracticalScoring.AddRuns` | src/benchmark/PracticalAssessmentBenchmark.ts:114-120 | The reduce over the runs, seeded with the missing ones, is the key-by-key sum |
| `Evaluator.ClassesPartitionCells` | src/benchmark/BenchmarkEvaluator.ts:47-53 | The six classes partition all case-by-run cells, with the unexpected findings on top, and recall's denominator is positive cases times runs |
| `Evaluator.ConfusionMeans` | src/benchmark/BenchmarkEvaluator.ts:47-49 | Each of the six counts is the number of case-run pairs whose expectation, findings and observed cases put them in that class, false positives with the unexpected findings on top |
| `Evaluator.CategoryMeans` | src/benchmark/BenchmarkEvaluator.ts:105-111 | The same for every row of the category breakdown |
| `Evaluator.ClassMeans` | src/benchmark/BenchmarkEvaluator.ts:90 | A cell has a class if and only if its case and report put it there |
| `Evaluator.RecallMeans` | src/benchmark/BenchmarkEvaluator.ts:53 | Recall is the share of true positives among all pairs whose case expects a finding, and zero when there is none |
| `Evaluator.SelectorAsksForEachField` | src/benchmark/BenchmarkEvaluator.ts:94-96 | A selector matches a finding exactly when each of its fields does, a case id on either side of the finding |
| `Evaluator.SelectorOfObserved` | src/benchmark/BenchmarkEvaluator.ts:98 | Observed cases are selected by workflow, case and module, and never by finding type |
| `Evaluator.DomainIsFirstField` | src/benchmark/BenchmarkEvaluator.ts:97 | A finding is in a selector's domain exactly when it agrees with the first of workflow, module and type that the selector names |
| `Evaluator.RecallCountsEveryPositiveCell` | src/benchmark/BenchmarkEvaluator.ts:53 | Recall divides by positive cases times runs, for the whole and for every category |
| `Evaluator.CategoriesAddUp` | src/benchmark/BenchmarkEvaluator.ts:105-114 | Category confusions, case counts and positive counts add up to the whole apart from unexpected findings, for every order of the categories, and overall recall is the mean of category recalls weighted by positive cases |
| `Evaluator.FindingsAreConserved` | src/benchmark/BenchmarkEvaluator.ts:44-46 | In every run each reported finding is credited to exactly one case, listed as unexpected, or out of every selector's domain: the three counts add up |
| `Evaluator.CheckSelectors` | src/benchmark/BenchmarkEvaluator.ts:137-148 | Passes if and only if no finding and no observed case of any report is selected by two cases |
| `Evaluator.CollectUnexpected` | src/benchmark/BenchmarkEvaluator.ts:44-46 | The nested loops list the unexpected findings of every run in order |
| `Evaluator.ObservationMeans` | src/benchmark/BenchmarkEvaluator.ts:81-92 | A case counts as found if and only if some reported finding or proven case is selected for it; as absent only without one and with a proven absence; as uncovered only when nothing observed is selected |
| `Evaluator.AggregateIsCorrectIff` | src/benchmark/BenchmarkEvaluator.ts:100 | A case's aggregate is its correct class if and only if every repetition observed what was expected |
| `Evaluator.AggregateMeans` | src/benchmark/BenchmarkEvaluator.ts:100 | The aggregate is a wrong class if any repetition is wrong, else inconclusive, else uncovered if any is, and the correct class otherwise |
| `Evaluator.GatesAreTheRequiredCases` | src/benchmark/BenchmarkEvaluator.ts:180 | Exactly the required cases raise a gate, each under its own id with its own verdict |
| `Evaluator.RequiredGatesPassIff` | src/benchmark/BenchmarkEvaluator.ts:180 | All required-case gates pass if and only if every required case was observed as expected in every run |
| `Evaluator.RequiredGates` | src/benchmark/BenchmarkEvaluator.ts:180 | One gate per required case, in order |

## Left out

- Cryptography: signatures, digests and random tokens are injective values, and a request in the replay model has a valid signature.
- PostgreSQL and SQLite mechanics beyond the atomic effect of each statement: isolation anomalies, connection loss inside a transaction, statement timeouts, sequence overflow.
- LISTEN and NOTIFY, reconnects, timers and the `claim` polling loop: they only decide when the modelled steps happen.
- The leadership callback, and columns no decision depends on (acquired and renewed times, results, errors, labels, resources).
- Fencing tokens above 2^53: the rejection of an unsafe token is modelled, the rounding of the stored number is not.
- Enrollment tokens, their expiry and single use; payload safety checks and error redaction.
- HTTP routing, request bodies, TLS, sockets, connection limits and the UDP server.
- The client's exchange: address pinning, timeouts and its own accumulation of TCP data.
- Text parsing of IPv4 and IPv6 addresses: addresses in the configuration are bytes.
- The several clock readings inside `createLease` and `recordTransaction` are one reading, and times compared as ISO strings are compared as numbers.
- Queries refused by the rate limiter before they are parsed, in the joined model of a DNS query.
- Other transactions that commit between the sweep and the selection of one claim: the claim is one step, with the rows locked during each query as parameters.
- Zone names outside ASCII, whose lower-casing is not modelled.
- The startup checks of the store (signing key, zone and schema migration).
- The schemas' size limits of the scoring inputs, and an empty oracle.
- Fingerprints, costs, coverage ratios, the neutral baseline, repeatability flags and the false-positive review list of the practical summary.
- Precision, false-positive, coverage and stability rates, percentiles, efficiency, slices, cleanup, other gates and regressions: filters and ratios of the counts that are modelled.
- The sorting of matched finding ids and of category names: statements hold for every order.
- How observed cases are collected from a report: they are an arbitrary list.
- Floating-point rounding: ratios and the interval are exact reals, and the square root is any number with its defining property.
