/**
 The durable job queue of `PostgresRemoteWorkerService`: enrolment, enqueueing, claiming with an
 expiry sweep, renewal, completion, heartbeats and operator status changes.

 Each transaction is one step, as its row locks make it.  What other transactions hold locked at
 that moment (`SKIP LOCKED`) and how the database breaks ties are parameters of the step.
 Requests carry the worker row read at authentication, which may be stale.
 */
module JobQueue {

  import opened Common

  type WorkerId = nat
  type JobId = nat
  type Token = nat

  /** The stored hash of a lease token; digests of distinct tokens differ. */
  datatype Digest = Digest(token: Token)

  datatype WorkerStatus = Online | Draining | Quarantined | Revoked

  datatype Worker = Worker(
    org: nat, capabilities: set<string>, zone: string,
    status: WorkerStatus, generation: nat, lastSeen: int)

  datatype JobStatus = Queued | Leased | Running | Completed | Failed

  datatype Kind = Scan | Export | Module | Ping

  datatype Job = Job(
    org: nat, kind: Kind, required: set<string>, zone: Option<string>, priority: int, createdAt: int, maxAttempts: nat,
    status: JobStatus, attempts: nat,
    holder: Option<WorkerId>, token: Option<Digest>, expires: Option<int>, generation: Option<nat>)

  /** The authenticated request's copy of the worker row. */
  datatype Credential = Credential(id: WorkerId, org: nat, status: WorkerStatus, generation: nat)

  const SWEEP_LIMIT: nat := 100
  const FRESH_MS: nat := 90_000

  // ---------------------------------------------------------------- statements on one row

  predicate Active(j: Job) {
    j.status == Leased || j.status == Running
  }

  predicate Terminal(j: Job) {
    j.status == Completed || j.status == Failed
  }

  /** The row's lease columns, read together. */
  predicate LeasedUntilAfter(j: Job, now: int) {
    Active(j) && j.expires.Some? && j.expires.value > now
  }

  predicate Lapsed(j: Job, now: int) {
    Active(j) && j.expires.Some? && j.expires.value <= now
  }

  function Swept(j: Job): Job {
    j.(status := if j.attempts >= j.maxAttempts then Failed else Queued,
       holder := None, token := None, expires := None, generation := None)
  }

  function LeasedTo(j: Job, worker: WorkerId, generation: nat, token: Token, expires: int): Job {
    j.(status := Leased, attempts := j.attempts + 1,
       holder := Some(worker), token := Some(Digest(token)), expires := Some(expires), generation := Some(generation))
  }

  predicate Eligible(j: Job, w: Worker) {
    && j.org == w.org && j.status == Queued && j.attempts < j.maxAttempts
    && j.required <= w.capabilities && (j.zone.None? || j.zone.value == w.zone)
  }

  /** The `WHERE` of renewal and completion. */
  predicate HoldsLease(j: Job, c: Credential, token: Token, now: int) {
    && j.holder == Some(c.id) && j.token == Some(Digest(token)) && j.generation == Some(c.generation)
    && LeasedUntilAfter(j, now)
  }

  function Renewed(j: Job, expires: int): Job {
    j.(status := Running, expires := Some(expires))
  }

  function Finished(j: Job, succeeded: bool): Job {
    j.(status := if succeeded then Completed else Failed, token := None, expires := None)
  }

  /** `lockActiveWorker` */
  predicate ActiveWorker(workers: map<WorkerId, Worker>, c: Credential) {
    c.id in workers && workers[c.id].generation == c.generation &&
    (workers[c.id].status == Online || workers[c.id].status == Draining)
  }

  /** The check that opens a claim. */
  predicate MayClaim(workers: map<WorkerId, Worker>, c: Credential, now: int) {
    && c.status == Online
    && c.id in workers && workers[c.id].generation == c.generation
    && workers[c.id].status == Online && workers[c.id].lastSeen > now - FRESH_MS
  }

  function HeartbeatRow(w: Worker, requested: WorkerStatus, now: int): Worker {
    w.(status := if w.status == Draining then Draining else requested, lastSeen := now)
  }

  function StatusRow(w: Worker, status: WorkerStatus): Worker {
    w.(status := status, generation := w.generation + if status == Draining then 0 else 1)
  }

  /** `kind.toLowerCase()`, the capability every job of the kind requires. */
  function Implied(k: Kind): string {
    match k
    case Scan => "scan"
    case Export => "export"
    case Module => "module"
    case Ping => "ping"
  }

  predicate ZoneStart(c: char) { 'a' <= c <= 'z' || '0' <= c <= '9' }

  predicate ZoneChar(c: char) { ZoneStart(c) || c == '.' || c == '_' || c == '-' }

  predicate ValidZone(z: string) {
    1 <= |z| <= 64 && ZoneStart(z[0]) && forall k | 0 <= k < |z| :: ZoneChar(z[k])
  }

  function LowerChar(c: char): char {
    if 'A' <= c <= 'Z' then c - 'A' + 'a' else c
  }

  /** `normalizeZone`, on ASCII text; `None` is `REMOTE_WORKER_NETWORK_ZONE_INVALID`. */
  function NormalZone(zone: Option<string>): Option<string> {
    var given := if zone.Some? then zone.value else "default";
    var lower := seq(|given|, k requires 0 <= k < |given| => LowerChar(given[k]));
    if ValidZone(lower) then Some(lower) else None
  }

  function Enrolled(org: nat, capabilities: set<string>, zone: string, now: int): Worker {
    Worker(org, capabilities, zone, Online, 1, now)
  }

  function NewJob(org: nat, kind: Kind, required: set<string>, zone: Option<string>, priority: int, maxAttempts: nat, now: int): Job {
    Job(org, kind, required + {Implied(kind)}, zone, priority, now, maxAttempts, Queued, 0, None, None, None, None)
  }

  // ---------------------------------------------------------------- set-level parts of a claim

  type Jobs = map<JobId, Job>

  function LapsedJobs(jobs: Jobs, org: nat, locked: set<JobId>, now: int): set<JobId> {
    set id | id in jobs && jobs[id].org == org && Lapsed(jobs[id], now) && id !in locked
  }

  function ExpiryOf(jobs: Jobs, id: JobId): int {
    if id in jobs && jobs[id].expires.Some? then jobs[id].expires.value else 0
  }

  /** `ORDER BY lease_expires_at LIMIT 100 FOR UPDATE SKIP LOCKED`, up to the order of ties. */
  predicate SweepChoice(jobs: Jobs, org: nat, locked: set<JobId>, now: int, swept: set<JobId>) {
    var lapsed := LapsedJobs(jobs, org, locked, now);
    && swept <= lapsed
    && |swept| == (if |lapsed| < SWEEP_LIMIT then |lapsed| else SWEEP_LIMIT)
    && IsLowest(jobs, lapsed, swept)
  }

  predicate IsLowest(jobs: Jobs, ids: set<JobId>, low: set<JobId>) {
    forall a, b | a in low && b in ids && b !in low :: ExpiryOf(jobs, a) <= ExpiryOf(jobs, b)
  }

  function AfterSweep(jobs: Jobs, swept: set<JobId>): Jobs {
    map id | id in jobs :: if id in swept then Swept(jobs[id]) else jobs[id]
  }

  function Candidates(jobs: Jobs, w: Worker, locked: set<JobId>): set<JobId> {
    set id | id in jobs && Eligible(jobs[id], w) && id !in locked
  }

  predicate Precedes(a: Job, b: Job) {
    a.priority > b.priority || (a.priority == b.priority && a.createdAt <= b.createdAt)
  }

  /** `ORDER BY priority DESC, created_at LIMIT 1`, up to ties. */
  predicate BestCandidate(jobs: Jobs, w: Worker, locked: set<JobId>, id: JobId) {
    id in Candidates(jobs, w, locked) && forall other | other in Candidates(jobs, w, locked) :: Precedes(jobs[id], jobs[other])
  }

  predicate ClaimChoice(jobs: Jobs, w: Worker, locked: set<JobId>, chosen: Option<JobId>) {
    match chosen
    case None => Candidates(jobs, w, locked) == {}
    case Some(id) => BestCandidate(jobs, w, locked, id)
  }

  // ---------------------------------------------------------------- the system with its history

  datatype Grant = Grant(worker: WorkerId, generation: nat, token: Token)

  /** A job row with its history: leases handed out, status changes other than renewals, completions. */
  datatype Entry = Entry(row: Job, grants: seq<Grant>, moves: nat, completions: nat)

  datatype System = System(now: int, leaseMs: nat, workers: map<WorkerId, Worker>, jobs: map<JobId, Entry>, tokens: set<Token>)

  datatype Event =
    | Advance(elapsed: nat)
    | Enroll(worker: WorkerId, org: nat, capabilities: set<string>, zone: Option<string>)
    | Enqueue(job: JobId, jobOrg: nat, kind: Kind, required: set<string>, jobZone: Option<string>, priority: int, maxAttempts: nat)
    | Claim(who: Credential, sweepLocked: set<JobId>, swept: set<JobId>, claimLocked: set<JobId>, chosen: Option<JobId>, unused: Token)
    | Renew(who: Credential, job: JobId, token: Token)
    | Complete(who: Credential, job: JobId, token: Token, succeeded: bool)
    | Heartbeat(who: Credential, requested: WorkerStatus)
    | SetStatus(worker: WorkerId, status: WorkerStatus)

  function Rows(s: System): Jobs {
    map id | id in s.jobs :: s.jobs[id].row
  }

  /** Whether a request is accepted. */
  predicate Accepted(s: System, e: Event) {
    match e
    case Advance(_) => true
    case Enroll(w, _, _, zone) => w !in s.workers && NormalZone(zone).Some?
    case Enqueue(j, _, _, _, zone, _, max) => j !in s.jobs && 1 <= max <= 10 && (zone.Some? ==> ValidZone(zone.value))
    case Claim(c, sweepLocked, swept, claimLocked, chosen, unused) =>
      && MayClaim(s.workers, c, s.now) && unused !in s.tokens
      && SweepChoice(Rows(s), c.org, sweepLocked, s.now, swept)
      && ClaimChoice(AfterSweep(Rows(s), swept), s.workers[c.id], claimLocked, chosen)
    case Renew(c, j, token) => ActiveWorker(s.workers, c) && j in s.jobs && HoldsLease(s.jobs[j].row, c, token, s.now)
    case Complete(c, j, token, _) => ActiveWorker(s.workers, c) && j in s.jobs && HoldsLease(s.jobs[j].row, c, token, s.now)
    case Heartbeat(c, requested) => ActiveWorker(s.workers, c) && (requested == Online || requested == Draining)
    case SetStatus(w, _) => w in s.workers
  }

  function SweptEntry(x: Entry): Entry {
    x.(row := Swept(x.row), moves := x.moves + 1)
  }

  function GrantedEntry(x: Entry, c: Credential, token: Token, expires: int): Entry {
    x.(row := LeasedTo(x.row, c.id, c.generation, token, expires),
       grants := x.grants + [Grant(c.id, c.generation, token)], moves := x.moves + 1)
  }

  function SweepAll(jobs: map<JobId, Entry>, swept: set<JobId>): map<JobId, Entry> {
    map id | id in jobs :: if id in swept then SweptEntry(jobs[id]) else jobs[id]
  }

  /** One step. A request that is not accepted changes nothing. */
  function Next(s: System, e: Event): System {
    if !Accepted(s, e) then s else
    match e
    case Advance(elapsed) => s.(now := s.now + elapsed)
    case Enroll(w, org, capabilities, zone) => s.(workers := s.workers[w := Enrolled(org, capabilities, NormalZone(zone).value, s.now)])
    case Enqueue(j, org, kind, required, zone, priority, max) =>
      s.(jobs := s.jobs[j := Entry(NewJob(org, kind, required, zone, priority, max, s.now), [], 0, 0)])
    case Claim(c, _, swept, _, chosen, unused) =>
      var jobs := SweepAll(s.jobs, swept);
      (match chosen
       case None => s.(jobs := jobs)
       case Some(id) =>
         if id !in jobs then s
         else s.(jobs := jobs[id := GrantedEntry(jobs[id], c, unused, s.now + s.leaseMs)], tokens := s.tokens + {unused}))
    case Renew(c, j, _) => s.(jobs := s.jobs[j := s.jobs[j].(row := Renewed(s.jobs[j].row, s.now + s.leaseMs))])
    case Complete(c, j, _, succeeded) =>
      var x := s.jobs[j];
      s.(jobs := s.jobs[j := Entry(Finished(x.row, succeeded), x.grants, x.moves + 1, x.completions + 1)])
    case Heartbeat(c, requested) => s.(workers := s.workers[c.id := HeartbeatRow(s.workers[c.id], requested, s.now)])
    case SetStatus(w, status) => s.(workers := s.workers[w := StatusRow(s.workers[w], status)])
  }

  function Run(s: System, es: seq<Event>): System
    decreases |es|
  {
    if es == [] then s else Run(Next(s, es[0]), es[1..])
  }

  predicate Initial(s: System) {
    s.workers == map[] && s.jobs == map[] && s.tokens == {}
  }

  // ---------------------------------------------------------------- the invariant

  function LastGrant(x: Entry): Grant
    requires x.grants != []
  {
    x.grants[|x.grants| - 1]
  }

  predicate Carries(j: Job, g: Grant) {
    j.holder == Some(g.worker) && j.generation == Some(g.generation) && j.token == Some(Digest(g.token))
  }

  /** What is true of one job without looking at the workers. */
  ghost predicate EntryInv(x: Entry, tokens: set<Token>) {
    && Implied(x.row.kind) in x.row.required
    && 1 <= x.row.maxAttempts && x.row.attempts <= x.row.maxAttempts
    && (x.row.status == Queued ==> x.row.attempts < x.row.maxAttempts)
    && (Active(x.row) <==> x.row.token.Some?) && (Active(x.row) <==> x.row.expires.Some?)
    && |x.grants| == x.row.attempts
    && x.moves + (if Active(x.row) then 1 else 0) == 2 * x.row.attempts
    && x.completions <= 1 && (x.completions == 1 ==> Terminal(x.row))
    && (Active(x.row) ==> x.grants != [] && Carries(x.row, LastGrant(x)))
    && (forall k | 0 <= k < |x.grants| :: x.grants[k].token in tokens)
    && (forall a, b | 0 <= a < b < |x.grants| :: x.grants[a].token != x.grants[b].token)
  }

  /** Every lease ever granted went to a known worker able to run the job, at a past or current generation. */
  ghost predicate GrantInv(x: Entry, workers: map<WorkerId, Worker>) {
    forall k | 0 <= k < |x.grants| ::
      && x.grants[k].worker in workers && x.grants[k].generation <= workers[x.grants[k].worker].generation
      && Qualified(x.row, workers[x.grants[k].worker])
  }

  predicate Qualified(j: Job, w: Worker) {
    j.org == w.org && j.required <= w.capabilities && (j.zone.None? || j.zone.value == w.zone)
  }

  ghost predicate Inv(s: System) {
    forall id | id in s.jobs :: EntryInv(s.jobs[id], s.tokens) && GrantInv(s.jobs[id], s.workers)
  }

  // ---------------------------------------------------------------- steps keep the invariant

  lemma SweptKeeps(x: Entry, tokens: set<Token>, workers: map<WorkerId, Worker>, now: int)
    requires EntryInv(x, tokens) && GrantInv(x, workers) && Lapsed(x.row, now)
    ensures EntryInv(SweptEntry(x), tokens) && GrantInv(SweptEntry(x), workers)
  {
  }

  lemma GrantKeeps(x: Entry, tokens: set<Token>, workers: map<WorkerId, Worker>, c: Credential, unused: Token, expires: int)
    requires EntryInv(x, tokens) && GrantInv(x, workers) && unused !in tokens
    requires c.id in workers && workers[c.id].generation == c.generation && Eligible(x.row, workers[c.id])
    ensures EntryInv(GrantedEntry(x, c, unused, expires), tokens + {unused})
    ensures GrantInv(GrantedEntry(x, c, unused, expires), workers)
  {
    assert LastGrant(GrantedEntry(x, c, unused, expires)) == Grant(c.id, c.generation, unused);
  }

  lemma TokensGrow(x: Entry, tokens: set<Token>, more: set<Token>)
    requires EntryInv(x, tokens) && tokens <= more
    ensures EntryInv(x, more)
  {
  }

  function SweptIf(x: Entry, swept: bool): Entry {
    if swept then SweptEntry(x) else x
  }

  /** A claim's effect on one job. */
  function ClaimedEntry(s: System, e: Event, id: JobId): Entry
    requires e.Claim? && id in s.jobs
  {
    var x := SweptIf(s.jobs[id], id in e.swept);
    if e.chosen == Some(id) then GrantedEntry(x, e.who, e.unused, s.now + s.leaseMs) else x
  }

  /** What the invariant needs to know of an accepted claim. */
  ghost predicate ClaimFacts(s: System, e: Event) {
    && e.Claim? && e.unused !in s.tokens
    && e.who.id in s.workers && s.workers[e.who.id].generation == e.who.generation && s.workers[e.who.id].status == Online
    && (forall id | id in e.swept :: id in s.jobs && Lapsed(s.jobs[id].row, s.now))
    && (e.chosen.Some? ==> e.chosen.value in s.jobs)
    && (e.chosen.Some? ==> Eligible(SweptIf(s.jobs[e.chosen.value], e.chosen.value in e.swept).row, s.workers[e.who.id]))
  }

  lemma ClaimParts(s: System, e: Event)
    requires e.Claim? && Accepted(s, e)
    ensures ClaimFacts(s, e)
  {
    assert forall id | id in e.swept :: id in LapsedJobs(Rows(s), e.who.org, e.sweepLocked, s.now);
  }

  function TokensAfter(s: System, e: Event): set<Token>
    requires e.Claim?
  {
    if e.chosen.Some? then s.tokens + {e.unused} else s.tokens
  }

  lemma ClaimIsPerJob(s: System, e: Event)
    requires e.Claim? && Accepted(s, e)
    ensures var t := Next(s, e);
            && t.workers == s.workers && t.jobs.Keys == s.jobs.Keys && t.tokens == TokensAfter(s, e)
            && forall id | id in s.jobs :: t.jobs[id] == ClaimedEntry(s, e, id)
  {
    ClaimParts(s, e);
  }

  lemma SweptIfKeeps(x: Entry, swept: bool, tokens: set<Token>, workers: map<WorkerId, Worker>, now: int)
    requires EntryInv(x, tokens) && GrantInv(x, workers) && (swept ==> Lapsed(x.row, now))
    ensures EntryInv(SweptIf(x, swept), tokens) && GrantInv(SweptIf(x, swept), workers)
  {
    if swept {
      SweptKeeps(x, tokens, workers, now);
    }
  }

  lemma ClaimKeepsJob(s: System, e: Event, id: JobId)
    requires Inv(s) && ClaimFacts(s, e) && id in s.jobs
    ensures EntryInv(ClaimedEntry(s, e, id), TokensAfter(s, e)) && GrantInv(ClaimedEntry(s, e, id), s.workers)
  {
    var x := SweptIf(s.jobs[id], id in e.swept);
    SweptIfKeeps(s.jobs[id], id in e.swept, s.tokens, s.workers, s.now);
    GrantedIfKeeps(x, e.chosen == Some(id), s.tokens, TokensAfter(s, e), s.workers, e.who, e.unused, s.now + s.leaseMs);
  }

  lemma GrantedIfKeeps(x: Entry, granted: bool, tokens: set<Token>, more: set<Token>, workers: map<WorkerId, Worker>, c: Credential, unused: Token, expires: int)
    requires EntryInv(x, tokens) && GrantInv(x, workers) && tokens <= more
    requires granted ==> more == tokens + {unused} && unused !in tokens &&
                         c.id in workers && workers[c.id].generation == c.generation && Eligible(x.row, workers[c.id])
    ensures var y := if granted then GrantedEntry(x, c, unused, expires) else x;
            EntryInv(y, more) && GrantInv(y, workers)
  {
    if granted {
      GrantKeeps(x, tokens, workers, c, unused, expires);
    } else {
      TokensGrow(x, tokens, more);
    }
  }

  lemma WorkerStepKeepsJob(s: System, e: Event, id: JobId)
    requires Inv(s) && (e.Heartbeat? || e.SetStatus? || e.Enroll?) && Accepted(s, e) && id in s.jobs
    ensures var t := Next(s, e); id in t.jobs && EntryInv(t.jobs[id], t.tokens) && GrantInv(t.jobs[id], t.workers)
  {
    assert GrantInv(s.jobs[id], s.workers);
  }

  lemma JobStepKeepsJob(s: System, e: Event, id: JobId)
    requires Inv(s) && (e.Renew? || e.Complete? || e.Enqueue? || e.Advance?) && Accepted(s, e) && id in Next(s, e).jobs
    ensures var t := Next(s, e); EntryInv(t.jobs[id], t.tokens) && GrantInv(t.jobs[id], t.workers)
  {
    if id in s.jobs {
      assert EntryInv(s.jobs[id], s.tokens) && GrantInv(s.jobs[id], s.workers);
    }
  }

  lemma StepKeepsInv(s: System, e: Event)
    requires Inv(s)
    ensures Inv(Next(s, e))
  {
    if Accepted(s, e) {
      var t := Next(s, e);
      forall id | id in t.jobs ensures EntryInv(t.jobs[id], t.tokens) && GrantInv(t.jobs[id], t.workers) {
        if e.Claim? {
          ClaimParts(s, e);
          ClaimIsPerJob(s, e);
          ClaimKeepsJob(s, e, id);
        } else if e.Heartbeat? || e.SetStatus? || e.Enroll? {
          WorkerStepKeepsJob(s, e, id);
        } else {
          JobStepKeepsJob(s, e, id);
        }
      }
    }
  }

  lemma {:induction false} RunKeepsInv(s: System, es: seq<Event>)
    requires Inv(s)
    ensures Inv(Run(s, es))
    decreases |es|
  {
    if es != [] {
      StepKeepsInv(s, es[0]);
      RunKeepsInv(Next(s, es[0]), es[1..]);
    }
  }

  // ---------------------------------------------------------------- main results

  /** The job is under lease, and this is the newest lease in its history, unexpired and of a live generation. */
  ghost predicate LatestLease(t: System, j: JobId, c: Credential, token: Token) {
    && j in t.jobs && t.jobs[j].grants != [] && LastGrant(t.jobs[j]) == Grant(c.id, c.generation, token)
    && Active(t.jobs[j].row) && t.jobs[j].row.expires.Some? && t.now < t.jobs[j].row.expires.value
    && c.id in t.workers && t.workers[c.id].generation == c.generation
    && (t.workers[c.id].status == Online || t.workers[c.id].status == Draining)
  }

  /**
   In every run, renewal and completion are accepted exactly when the request carries the token
   of the job's most recent lease, comes from the worker and generation that lease was granted
   to, that generation is still the worker's current one, and the lease has not expired.
   */
  lemma LeaseRequestsNeedLatestToken(s: System, es: seq<Event>, c: Credential, j: JobId, token: Token, succeeded: bool)
    requires Initial(s) && j in Run(s, es).jobs
    ensures var t := Run(s, es);
            var latest := LatestLease(t, j, c, token);
            && (Accepted(t, Renew(c, j, token)) <==> latest)
            && (Accepted(t, Complete(c, j, token, succeeded)) <==> latest)
  {
    RunKeepsInv(s, es);
    var t := Run(s, es);
    var x := t.jobs[j];
    assert EntryInv(x, t.tokens) && GrantInv(x, t.workers);
    if x.grants != [] {
      assert LastGrant(x).worker in t.workers;
    }
  }

  /**
   In every run: the leases handed out for a job are its attempts and never exceed the ceiling,
   a queued job has attempts left, the lease columns are set exactly while the job is leased or
   running, at most one completion succeeds, and apart from renewals the job changes status at
   most twice per allowed attempt.
   */
  lemma AttemptsAreBounded(s: System, es: seq<Event>, j: JobId)
    requires Initial(s) && j in Run(s, es).jobs
    ensures var x := Run(s, es).jobs[j];
            && |x.grants| == x.row.attempts <= x.row.maxAttempts
            && (x.row.status == Queued ==> x.row.attempts < x.row.maxAttempts)
            && (x.row.token.Some? <==> Active(x.row)) && (x.row.expires.Some? <==> Active(x.row))
            && x.completions <= 1 && (x.completions == 1 ==> Terminal(x.row))
            && x.moves <= 2 * x.row.maxAttempts
  {
    RunKeepsInv(s, es);
    assert EntryInv(Run(s, es).jobs[j], Run(s, es).tokens);
  }

  /**
   In every run each lease ever granted went to a worker of the job's organization, with its
   capabilities, the one implied by the job's kind among them, and its zone.
   */
  lemma LeasesOnlyToQualified(s: System, es: seq<Event>, j: JobId, k: nat)
    requires Initial(s) && j in Run(s, es).jobs && k < |Run(s, es).jobs[j].grants|
    ensures var t := Run(s, es);
            var g := t.jobs[j].grants[k];
            && g.worker in t.workers && Qualified(t.jobs[j].row, t.workers[g.worker])
            && Implied(t.jobs[j].row.kind) in t.workers[g.worker].capabilities
  {
    RunKeepsInv(s, es);
    assert EntryInv(Run(s, es).jobs[j], Run(s, es).tokens);
    assert GrantInv(Run(s, es).jobs[j], Run(s, es).workers);
  }

  lemma StepKeepsTerminal(s: System, e: Event, j: JobId)
    requires Inv(s) && j in s.jobs && Terminal(s.jobs[j].row)
    ensures j in Next(s, e).jobs && Next(s, e).jobs[j] == s.jobs[j]
  {
    if e.Claim? && Accepted(s, e) {
      ClaimParts(s, e);
    }
  }

  /** A completed or failed job never changes again, whatever happens. */
  lemma {:induction false} TerminalIsForever(s: System, es: seq<Event>, j: JobId)
    requires Inv(s) && j in s.jobs && Terminal(s.jobs[j].row)
    ensures j in Run(s, es).jobs && Run(s, es).jobs[j] == s.jobs[j]
    decreases |es|
  {
    if es != [] {
      StepKeepsInv(s, es[0]);
      StepKeepsTerminal(s, es[0], j);
      TerminalIsForever(Next(s, es[0]), es[1..], j);
    }
  }

  /** Leases are only ever added to a job's history, and generations only grow. */
  ghost predicate Extends(s: System, t: System, j: JobId, w: WorkerId) {
    && (j in s.jobs ==> j in t.jobs && |s.jobs[j].grants| <= |t.jobs[j].grants| && t.jobs[j].grants[..|s.jobs[j].grants|] == s.jobs[j].grants)
    && (w in s.workers ==> w in t.workers && s.workers[w].generation <= t.workers[w].generation)
  }

  lemma StepExtends(s: System, e: Event, j: JobId, w: WorkerId)
    ensures Extends(s, Next(s, e), j, w)
  {
    if j in s.jobs {
      assert s.jobs[j].grants[..|s.jobs[j].grants|] == s.jobs[j].grants;
      if e.Claim? && Accepted(s, e) {
        ClaimParts(s, e);
        if e.chosen == Some(j) {
          var g := Grant(e.who.id, e.who.generation, e.unused);
          assert (s.jobs[j].grants + [g])[..|s.jobs[j].grants|] == s.jobs[j].grants;
        }
      }
    }
  }

  lemma {:induction false} RunExtends(s: System, es: seq<Event>, j: JobId, w: WorkerId)
    ensures Extends(s, Run(s, es), j, w)
    decreases |es|
  {
    if es == [] {
      if j in s.jobs { assert s.jobs[j].grants[..|s.jobs[j].grants|] == s.jobs[j].grants; }
    } else {
      var m := Next(s, es[0]);
      StepExtends(s, es[0], j, w);
      RunExtends(m, es[1..], j, w);
      if j in s.jobs {
        var n := |s.jobs[j].grants|;
        assert Run(s, es).jobs[j].grants[..n] == Run(m, es[1..]).jobs[j].grants[..|m.jobs[j].grants|][..n];
      }
    }
  }

  /**
   A lease granted before its worker's generation was bumped is dead: in no later state of any
   run is a renewal or completion with its token accepted, whoever sends it.
   */
  lemma BumpedLeaseIsDead(s: System, es: seq<Event>, j: JobId, k: nat, c: Credential, succeeded: bool)
    requires Inv(s) && j in s.jobs && k < |s.jobs[j].grants|
    requires var g := s.jobs[j].grants[k]; g.worker in s.workers && g.generation < s.workers[g.worker].generation
    ensures !Accepted(Run(s, es), Renew(c, j, s.jobs[j].grants[k].token))
    ensures !Accepted(Run(s, es), Complete(c, j, s.jobs[j].grants[k].token, succeeded))
  {
    var g := s.jobs[j].grants[k];
    var t := Run(s, es);
    RunKeepsInv(s, es);
    RunExtends(s, es, j, g.worker);
    var x := t.jobs[j];
    assert EntryInv(x, t.tokens);
    assert x.grants[k] == x.grants[..|s.jobs[j].grants|][k] == g;
  }

  /** No lease is granted to `w` between the two states. */
  ghost predicate NoNewLease(s: System, t: System, w: WorkerId) {
    forall j, k | j in t.jobs && (if j in s.jobs then |s.jobs[j].grants| else 0) <= k < |t.jobs[j].grants| :: t.jobs[j].grants[k].worker != w
  }

  lemma StepWhileWithdrawn(s: System, e: Event, w: WorkerId)
    requires w in s.workers && s.workers[w].status != Online && !(e.SetStatus? && e.worker == w)
    ensures w in Next(s, e).workers && Next(s, e).workers[w].status == s.workers[w].status
    ensures Next(s, e).workers[w].generation == s.workers[w].generation
    ensures NoNewLease(s, Next(s, e), w)
  {
  }

  /**
   Until an operator sets its status, a draining, quarantined or revoked worker keeps that
   status and its generation whatever it reports in heartbeats, and is given no lease.
   */
  lemma {:induction false} WithdrawalHolds(s: System, es: seq<Event>, w: WorkerId)
    requires w in s.workers && s.workers[w].status != Online
    requires forall k | 0 <= k < |es| :: !(es[k].SetStatus? && es[k].worker == w)
    ensures var t := Run(s, es);
            && w in t.workers && t.workers[w].status == s.workers[w].status && t.workers[w].generation == s.workers[w].generation
            && NoNewLease(s, t, w)
    decreases |es|
  {
    if es != [] {
      var m := Next(s, es[0]);
      StepWhileWithdrawn(s, es[0], w);
      WithdrawalHolds(m, es[1..], w);
      var t := Run(m, es[1..]);
      forall j, k | j in t.jobs && (if j in s.jobs then |s.jobs[j].grants| else 0) <= k < |t.jobs[j].grants|
        ensures t.jobs[j].grants[k].worker != w
      {
        RunExtends(m, es[1..], j, w);
        StepExtends(s, es[0], j, w);
        if j in m.jobs && k < |m.jobs[j].grants| {
          assert t.jobs[j].grants[k] == t.jobs[j].grants[..|m.jobs[j].grants|][k];
        }
      }
    }
  }

  /** The status that the last operator statement about `w` in the run set. */
  function LastSet(es: seq<Event>, w: WorkerId): Option<WorkerStatus>
    decreases |es|
  {
    if es == [] then None
    else
      var later := LastSet(es[1..], w);
      if later.Some? then later else if es[0].SetStatus? && es[0].worker == w then Some(es[0].status) else None
  }

  lemma StepOnRevoked(s: System, e: Event, w: WorkerId)
    requires w in s.workers
    ensures w in Next(s, e).workers
    ensures Next(s, e).workers[w].status == Revoked <==>
            if e.SetStatus? && e.worker == w then e.status == Revoked else s.workers[w].status == Revoked
  {
    hide SweepAll, SweepChoice, ClaimChoice;
  }

  /**
   Revocation is not permanent: the operator's statement does not look at the current status.
   After every run a worker is revoked exactly when the last statement about it revoked it, or
   there was none and it was revoked before.
   */
  lemma {:induction false} RevokedIffLastSet(s: System, es: seq<Event>, w: WorkerId)
    requires w in s.workers
    ensures w in Run(s, es).workers
    ensures Run(s, es).workers[w].status == Revoked <==>
            if LastSet(es, w).Some? then LastSet(es, w).value == Revoked else s.workers[w].status == Revoked
    decreases |es|
  {
    hide Next;
    if es != [] {
      StepOnRevoked(s, es[0], w);
      RevokedIffLastSet(Next(s, es[0]), es[1..], w);
    }
  }

  const AGENT: Worker := Worker(1, {"ping"}, "default", Online, 1, 0)

  const RETURNED: Worker := AGENT.(generation := 3)

  const AGENT_NOW: Credential := Credential(7, 1, Online, 3)

  const EMPTY: System := System(0, 60_000, map[], map[], {})

  /** A queue with the one worker and no job. */
  function Staffed(w: Worker): System {
    EMPTY.(workers := map[7 := w])
  }

  const PING: Job := NewJob(1, Ping, {}, None, 0, 3, 0)

  const WAITING: System := Staffed(RETURNED).(jobs := map[5 := Entry(PING, [], 0, 0)])

  /** Enrolled, revoked, set online again, and given a job. */
  const REINSTATED: seq<Event> :=
    [Enroll(7, 1, {"ping"}, None), SetStatus(7, Revoked), SetStatus(7, Online),
     Enqueue(5, 1, Ping, {}, None, 0, 3), Claim(AGENT_NOW, {}, {}, {}, Some(5), 11)]

  lemma DefaultZone()
    ensures NormalZone(None) == Some("default")
  {
    var given := "default";
    var lower := seq(|given|, k requires 0 <= k < |given| => LowerChar(given[k]));
    assert lower == given;
  }

  lemma ReinstatedSteps()
    ensures Next(EMPTY, REINSTATED[0]) == Staffed(AGENT)
    ensures Next(Staffed(AGENT), REINSTATED[1]) == Staffed(AGENT.(status := Revoked, generation := 2))
    ensures Next(Staffed(AGENT.(status := Revoked, generation := 2)), REINSTATED[2]) == Staffed(RETURNED)
    ensures Next(Staffed(RETURNED), REINSTATED[3]) == WAITING
  {
    DefaultZone();
  }

  lemma ReinstatedClaims()
    ensures Accepted(WAITING, REINSTATED[4])
    ensures Next(WAITING, REINSTATED[4]).jobs == map[5 := GrantedEntry(Entry(PING, [], 0, 0), AGENT_NOW, 11, 60_000)]
  {
    var none: set<JobId> := {};
    assert Rows(WAITING) == map[5 := PING];
    assert LapsedJobs(Rows(WAITING), 1, none, 0) == {};
    assert SweepChoice(Rows(WAITING), 1, none, 0, none);
    var after := AfterSweep(Rows(WAITING), none);
    assert after == map[5 := PING];
    assert Candidates(after, RETURNED, none) == {5};
    assert BestCandidate(after, RETURNED, none, 5);
    assert SweepAll(WAITING.jobs, none) == WAITING.jobs;
  }

  lemma RunTail(s: System, es: seq<Event>, k: nat)
    requires k < |es|
    ensures Run(s, es[k..]) == Run(Next(s, es[k]), es[k + 1..])
  {
    assert es[k..][1..] == es[k + 1..];
  }

  /** A run from the start in which a worker that was revoked holds a lease at its end. */
  lemma RevokedWorkerReturns()
    ensures Initial(EMPTY) && REINSTATED[1] == SetStatus(7, Revoked)
    ensures Run(EMPTY, REINSTATED[..2]).workers == map[7 := AGENT.(status := Revoked, generation := 2)]
    ensures LatestLease(Run(EMPTY, REINSTATED), 5, AGENT_NOW, 11)
  {
    hide Next, Accepted;
    var es := REINSTATED;
    ReinstatedSteps();
    ReinstatedClaims();
    RunTail(EMPTY, es[..2], 0);
    RunTail(Staffed(AGENT), es[..2], 1);
    assert es[..2][0..] == es[..2] && es[..2][2..] == [];
    RunTail(EMPTY, es, 0);
    RunTail(Staffed(AGENT), es, 1);
    RunTail(Staffed(AGENT.(status := Revoked, generation := 2)), es, 2);
    RunTail(Staffed(RETURNED), es, 3);
    RunTail(WAITING, es, 4);
    assert es[0..] == es && es[5..] == [];
    ClaimedWorkers();
  }

  lemma ClaimedWorkers()
    ensures Next(WAITING, REINSTATED[4]).workers == WAITING.workers && Next(WAITING, REINSTATED[4]).now == 0
  {
  }

  /**
   In every run a draining worker can complete the latest lease of a job it holds. The job then
   keeps that outcome and its one completion for ever, and no request about it, from whomever and
   with whatever token, is accepted again.
   */
  lemma DrainingFinishes(s: System, es: seq<Event>, j: JobId, c: Credential, token: Token, succeeded: bool, more: seq<Event>, d: Credential, other: Token)
    requires Initial(s) && LatestLease(Run(s, es), j, c, token) && Run(s, es).workers[c.id].status == Draining
    ensures var t := Run(s, es);
            var u := Run(Next(t, Complete(c, j, token, succeeded)), more);
            && Accepted(t, Complete(c, j, token, succeeded)) && j in u.jobs
            && u.jobs[j].row.status == (if succeeded then Completed else Failed) && u.jobs[j].completions == 1
            && u.jobs[j].grants == t.jobs[j].grants
            && !Accepted(u, Renew(d, j, other)) && !Accepted(u, Complete(d, j, other, succeeded))
  {
    hide Run;
    var t := Run(s, es);
    RunKeepsInv(s, es);
    LeaseRequestsNeedLatestToken(s, es, c, j, token, succeeded);
    assert EntryInv(t.jobs[j], t.tokens);
    var done := Next(t, Complete(c, j, token, succeeded));
    StepKeepsInv(t, Complete(c, j, token, succeeded));
    TerminalIsForever(done, more, j);
  }

  // ---------------------------------------------------------------- a claim always has an outcome

  lemma {:induction false} LowestExist(ids: set<JobId>, jobs: Jobs, n: nat)
    requires n <= |ids|
    ensures exists low :: low <= ids && |low| == n && IsLowest(jobs, ids, low)
    decreases n
  {
    if n == 0 {
      var none: set<JobId> := {};
      assert none <= ids && |none| == 0 && IsLowest(jobs, ids, none);
    } else {
      LowestExist(ids, jobs, n - 1);
      var low :| low <= ids && |low| == n - 1 && IsLowest(jobs, ids, low);
      var rest := ids - low;
      assert ids == low + rest;
      var least := LeastExpiry(rest, jobs);
      var more := low + {least};
      assert more <= ids && |more| == n && IsLowest(jobs, ids, more);
    }
  }

  lemma {:induction false} LeastExpiry(ids: set<JobId>, jobs: Jobs) returns (least: JobId)
    requires ids != {}
    ensures least in ids && forall b | b in ids :: ExpiryOf(jobs, least) <= ExpiryOf(jobs, b)
    decreases |ids|
  {
    var a :| a in ids;
    if ids == {a} {
      least := a;
    } else {
      var rest := ids - {a};
      assert ids == rest + {a};
      var b := LeastExpiry(rest, jobs);
      least := if ExpiryOf(jobs, a) <= ExpiryOf(jobs, b) then a else b;
    }
  }

  lemma SweepChoiceExists(jobs: Jobs, org: nat, locked: set<JobId>, now: int)
    ensures exists swept :: SweepChoice(jobs, org, locked, now, swept)
  {
    var lapsed := LapsedJobs(jobs, org, locked, now);
    var n := if |lapsed| < SWEEP_LIMIT then |lapsed| else SWEEP_LIMIT;
    LowestExist(lapsed, jobs, n);
    var low :| low <= lapsed && |low| == n && IsLowest(jobs, lapsed, low);
    assert SweepChoice(jobs, org, locked, now, low);
  }

  lemma {:induction false} FirstInOrder(ids: set<JobId>, jobs: Jobs) returns (first: JobId)
    requires ids != {} && ids <= jobs.Keys
    ensures first in ids && forall b | b in ids :: Precedes(jobs[first], jobs[b])
    decreases |ids|
  {
    var a :| a in ids;
    if ids == {a} {
      first := a;
    } else {
      var rest := ids - {a};
      assert ids == rest + {a};
      var b := FirstInOrder(rest, jobs);
      first := if Precedes(jobs[a], jobs[b]) then a else b;
    }
  }

  lemma BestIsEligible(jobs: Jobs, w: Worker, locked: set<JobId>, id: JobId)
    requires BestCandidate(jobs, w, locked, id)
    ensures id in jobs && id !in locked && Eligible(jobs[id], w)
  {
  }

  lemma ClaimChoiceExists(jobs: Jobs, w: Worker, locked: set<JobId>) returns (chosen: Option<JobId>)
    ensures ClaimChoice(jobs, w, locked, chosen)
  {
    if Candidates(jobs, w, locked) == {} {
      chosen := None;
    } else {
      var first := FirstInOrder(Candidates(jobs, w, locked), jobs);
      chosen := Some(first);
    }
  }

  /**
   An admitted worker's claim always completes, whatever is locked during its two queries, and
   grants a lease whenever a queued job that fits the worker is not locked during the second.
   */
  lemma AdmittedClaimSucceeds(s: System, c: Credential, sweepLocked: set<JobId>, claimLocked: set<JobId>, unused: Token)
    requires MayClaim(s.workers, c, s.now) && unused !in s.tokens
    ensures exists swept, chosen ::
              && Accepted(s, Claim(c, sweepLocked, swept, claimLocked, chosen, unused))
              && (Candidates(Rows(s), s.workers[c.id], claimLocked) != {} ==> chosen.Some?)
  {
    SweepChoiceExists(Rows(s), c.org, sweepLocked, s.now);
    var swept :| SweepChoice(Rows(s), c.org, sweepLocked, s.now, swept);
    var after := AfterSweep(Rows(s), swept);
    var chosen := ClaimChoiceExists(after, s.workers[c.id], claimLocked);
    assert Accepted(s, Claim(c, sweepLocked, swept, claimLocked, chosen, unused));
    if id :| id in Candidates(Rows(s), s.workers[c.id], claimLocked) {
      assert id !in LapsedJobs(Rows(s), c.org, sweepLocked, s.now);
      assert id in Candidates(after, s.workers[c.id], claimLocked);
    }
  }

  // ---------------------------------------------------------------- which job a claim takes, and for how long

  /** The row is waiting and the worker may run it, in the columns of the selection. */
  predicate Waits(j: Job, w: Worker) {
    && j.status == Queued && j.attempts < j.maxAttempts
    && j.org == w.org && j.required <= w.capabilities && (j.zone == None || j.zone == Some(w.zone))
  }

  /** Higher priority first, then the older one. */
  predicate Beats(a: Job, b: Job) {
    a.priority > b.priority || (a.priority == b.priority && a.createdAt < b.createdAt)
  }

  lemma ChosenIsBest(jobs: Jobs, w: Worker, locked: set<JobId>, id: JobId, other: JobId)
    requires BestCandidate(jobs, w, locked, id) && other in jobs && other !in locked && Waits(jobs[other], w)
    ensures id in jobs && Waits(jobs[id], w) && id !in locked && !Beats(jobs[other], jobs[id])
  {
    assert other in Candidates(jobs, w, locked);
  }

  /**
   Every accepted claim that grants a lease takes a job that no other one beats: after the claim,
   no unlocked job that still waits for this worker has a higher priority, and none of equal
   priority is older. A claim that grants none leaves no such job at all.
   */
  lemma ClaimTakesBest(s: System, e: Event, other: JobId)
    requires e.Claim? && Accepted(s, e)
    requires var t := Next(s, e); other in t.jobs && other !in e.claimLocked && e.chosen != Some(other) && Waits(t.jobs[other].row, s.workers[e.who.id])
    ensures e.chosen.Some? && e.chosen.value in Next(s, e).jobs
    ensures !Beats(Next(s, e).jobs[other].row, Next(s, e).jobs[e.chosen.value].row)
  {
    hide Next, Precedes, Waits, Beats, SweepChoice;
    ClaimParts(s, e);
    ClaimIsPerJob(s, e);
    var w := s.workers[e.who.id];
    var after := AfterSweep(Rows(s), e.swept);
    ClaimedRows(s, e);
    assert after[other] == Next(s, e).jobs[other].row;
    WaitsIsEligible(after[other], w);
    assert other in Candidates(after, w, e.claimLocked);
    var id := e.chosen.value;
    ChosenIsBest(after, w, e.claimLocked, id, other);
    LeasingKeepsRank(after[id], e.who.id, e.who.generation, e.unused, s.now + s.leaseMs, after[other]);
  }

  lemma NoneBeatsChosen(after: Jobs, w: Worker, locked: set<JobId>, chosen: Option<JobId>, generation: nat, token: Token, expires: int, worker: WorkerId)
    requires ClaimChoice(after, w, locked, chosen) && (chosen.Some? ==> chosen.value in after)
    ensures var jobs := if chosen.None? then after else after[chosen.value := LeasedTo(after[chosen.value], worker, generation, token, expires)];
            forall other | other in jobs && other !in locked && chosen != Some(other) && Waits(jobs[other], w) ::
              chosen.Some? && chosen.value in jobs && !Beats(jobs[other], jobs[chosen.value])
  {
    hide Beats, LeasedTo, Precedes;
    forall other | other in after && other !in locked && chosen != Some(other) && Waits(after[other], w)
      ensures chosen.Some? && !Beats(after[other], LeasedTo(after[chosen.value], worker, generation, token, expires))
    {
      assert other in Candidates(after, w, locked);
      ChosenIsBest(after, w, locked, chosen.value, other);
      LeasingKeepsRank(after[chosen.value], worker, generation, token, expires, after[other]);
    }
  }

  lemma WaitsIsEligible(j: Job, w: Worker)
    ensures Waits(j, w) <==> Eligible(j, w)
  {
  }

  lemma LeasingKeepsRank(j: Job, worker: WorkerId, generation: nat, token: Token, expires: int, other: Job)
    ensures Beats(other, LeasedTo(j, worker, generation, token, expires)) <==> Beats(other, j)
  {
  }

  lemma ClaimedRows(s: System, e: Event)
    requires e.Claim? && Accepted(s, e)
    ensures var after := AfterSweep(Rows(s), e.swept);
            forall id | id in s.jobs ::
              && id in Next(s, e).jobs && id in after
              && Next(s, e).jobs[id].row == if e.chosen == Some(id) then LeasedTo(after[id], e.who.id, e.who.generation, e.unused, s.now + s.leaseMs) else after[id]
  {
    hide Next, SweepChoice, ClaimChoice, Swept, LeasedTo;
    ClaimIsPerJob(s, e);
  }

  /** A lease just granted is the job's latest, and renewing with it is accepted for exactly the lease time. */
  lemma GrantLastsForLease(s: System, es: seq<Event>, e: Event, elapsed: nat)
    requires Initial(s) && e.Claim? && Accepted(Run(s, es), e) && e.chosen.Some?
    ensures var t := Run(s, es);
            var u := Next(Next(t, e), Advance(elapsed));
            Accepted(u, Renew(e.who, e.chosen.value, e.unused)) <==> elapsed < t.leaseMs
  {
    hide Run;
    var t := Run(s, es);
    ClaimParts(t, e);
    ClaimIsPerJob(t, e);
    var id := e.chosen.value;
    assert Next(t, e).jobs[id] == ClaimedEntry(t, e, id);
  }

  /** An accepted renewal is good for the full lease time from then, and no longer. */
  lemma RenewalLastsForLease(s: System, c: Credential, j: JobId, token: Token, elapsed: nat)
    requires Accepted(s, Renew(c, j, token))
    ensures var u := Next(Next(s, Renew(c, j, token)), Advance(elapsed));
            && (Accepted(u, Renew(c, j, token)) <==> elapsed < s.leaseMs)
            && (Accepted(u, Complete(c, j, token, true)) <==> elapsed < s.leaseMs)
  {
  }

  /**
   A claim recovers lapsed leases of its organization: a lapsed job that was not locked waits again
   (or is leased by this very claim) while it has attempts left and has failed for good otherwise,
   unless a hundred others that lapsed no later were recovered instead.
   */
  lemma LapsedIsRecovered(s: System, e: Event, j: JobId)
    requires Inv(s) && e.Claim? && Accepted(s, e) && j in s.jobs && j !in e.sweepLocked
    requires var x := s.jobs[j].row; Active(x) && x.org == e.who.org && x.expires.Some? && x.expires.value <= s.now
    ensures j in Next(s, e).jobs
    ensures var x, y := s.jobs[j].row, Next(s, e).jobs[j].row;
            if j in e.swept then
              && (x.attempts == x.maxAttempts ==> y.status == Failed && y.attempts == x.attempts && e.chosen != Some(j))
              && (x.attempts < x.maxAttempts && e.chosen != Some(j) ==> y.status == Queued && y.attempts == x.attempts)
              && (x.attempts < x.maxAttempts && e.chosen == Some(j) ==> y.status == Leased && y.attempts == x.attempts + 1 && y.holder == Some(e.who.id))
              && (e.chosen != Some(j) ==> y.holder == None && y.token == None && y.expires == None)
            else
              && |e.swept| == 100
              && forall k | k in e.swept :: k in s.jobs && s.jobs[k].row.expires.Some? && s.jobs[k].row.expires.value <= x.expires.value
  {
    hide Next, ClaimChoice;
    ClaimParts(s, e);
    ClaimIsPerJob(s, e);
    assert Next(s, e).jobs[j] == ClaimedEntry(s, e, j);
    assert EntryInv(s.jobs[j], s.tokens);
    if j !in e.swept {
      NotSwept(Rows(s), e.who.org, e.sweepLocked, s.now, e.swept, j);
    }
  }

  lemma NotSwept(jobs: Jobs, org: nat, locked: set<JobId>, now: int, swept: set<JobId>, j: JobId)
    requires SweepChoice(jobs, org, locked, now, swept) && j in jobs && j !in locked && j !in swept
    requires jobs[j].org == org && Lapsed(jobs[j], now)
    ensures |swept| == 100 && forall k | k in swept :: k in jobs && jobs[k].expires.Some? && jobs[k].expires.value <= jobs[j].expires.value
  {
    var lapsed := LapsedJobs(jobs, org, locked, now);
    assert j in lapsed;
    if |lapsed| <= SWEEP_LIMIT {
      SubsetOfSize(swept, lapsed);
    }
    forall k | k in swept ensures ExpiryOf(jobs, k) <= ExpiryOf(jobs, j) && k in lapsed {
    }
  }

  lemma SubsetOfSize(a: set<JobId>, b: set<JobId>)
    requires a <= b && |a| == |b|
    ensures a == b
  {
    assert b == a + (b - a);
  }

  // ---------------------------------------------------------------- how long a worker stays admissible

  /** Some claim of this worker is accepted. */
  ghost predicate CanClaim(s: System, c: Credential, unused: Token) {
    exists swept, chosen :: Accepted(s, Claim(c, {}, swept, {}, chosen, unused))
  }

  lemma CanClaimIff(s: System, c: Credential, unused: Token)
    requires unused !in s.tokens
    ensures CanClaim(s, c, unused) <==> MayClaim(s.workers, c, s.now)
  {
    hide SweepChoice, ClaimChoice, MayClaim, Rows;
    if MayClaim(s.workers, c, s.now) {
      AdmittedClaimSucceeds(s, c, {}, {}, unused);
      var swept, chosen :| Accepted(s, Claim(c, {}, swept, {}, chosen, unused));
    }
  }

  /** A request authenticated while its worker was not ONLINE claims nothing, whatever the row says by then. */
  lemma StaleStatusCannotClaim(s: System, c: Credential, unused: Token)
    requires c.status != Online
    ensures !CanClaim(s, c, unused)
  {
  }

  /**
   A heartbeat of a worker that is not draining makes it what it reports; reporting ONLINE it can
   claim for exactly the next 90 seconds.
   */
  lemma HeartbeatAdmits(s: System, c: Credential, requested: WorkerStatus, elapsed: nat, unused: Token)
    requires Accepted(s, Heartbeat(c, requested)) && c.status == Online && unused !in s.tokens
    ensures var t := Next(s, Heartbeat(c, requested));
            && t.workers[c.id].status == (if s.workers[c.id].status == Draining then Draining else requested)
            && t.workers[c.id].generation == s.workers[c.id].generation
            && (CanClaim(Next(t, Advance(elapsed)), c, unused) <==>
                  s.workers[c.id].status == Online && requested == Online && elapsed < 90_000)
  {
    hide CanClaim;
    var u := Next(Next(s, Heartbeat(c, requested)), Advance(elapsed));
    CanClaimIff(u, c, unused);
  }

  /** A newly enrolled worker can claim at once, with its own data, and for exactly 90 seconds without a heartbeat. */
  lemma EnrolledCanClaim(s: System, w: WorkerId, org: nat, capabilities: set<string>, zone: Option<string>, elapsed: nat, unused: Token)
    requires Accepted(s, Enroll(w, org, capabilities, zone)) && unused !in s.tokens
    ensures var t := Next(s, Enroll(w, org, capabilities, zone));
            && w in t.workers && t.workers[w].org == org && t.workers[w].capabilities == capabilities && Some(t.workers[w].zone) == NormalZone(zone)
            && (CanClaim(Next(t, Advance(elapsed)), Credential(w, org, Online, 1), unused) <==> elapsed < 90_000)
  {
    hide CanClaim, NormalZone;
    CanClaimIff(Next(Next(s, Enroll(w, org, capabilities, zone)), Advance(elapsed)), Credential(w, org, Online, 1), unused);
  }

  /** The letters of a worker's zone may be of either case; otherwise its zone is the job's zone exactly. */
  lemma ZonesMatchIgnoringCase(given: string, zone: string)
    requires ValidZone(zone)
    ensures NormalZone(Some(given)) == Some(zone) <==>
            |given| == |zone| && forall k | 0 <= k < |zone| :: given[k] == zone[k] || ('a' <= zone[k] <= 'z' && given[k] == zone[k] - 'a' + 'A')
  {
    var lower := seq(|given|, k requires 0 <= k < |given| => LowerChar(given[k]));
    if |given| == |zone| {
      assert forall k | 0 <= k < |zone| :: ZoneChar(zone[k]);
      assert lower == zone <==> forall k | 0 <= k < |zone| :: lower[k] == zone[k];
    }
  }

  /**
   An enqueued job waits with its own data: after the step, no claim of a worker that may run it
   comes back empty-handed while it is unlocked, nor takes a job that it beats.
   */
  lemma EnqueuedIsClaimable(s: System, enqueue: Event, e: Event)
    requires Inv(s) && enqueue.Enqueue? && Accepted(s, enqueue)
    requires var t := Next(s, enqueue); e.Claim? && Accepted(t, e) && enqueue.job !in e.claimLocked
    requires var w := s.workers[e.who.id];
             && w.org == enqueue.jobOrg && enqueue.required <= w.capabilities && Implied(enqueue.kind) in w.capabilities
             && (enqueue.jobZone == None || enqueue.jobZone == Some(w.zone))
    ensures var u := Next(Next(s, enqueue), e);
            && e.chosen.Some? && e.chosen.value in u.jobs
            && (e.chosen.value == enqueue.job || u.jobs[e.chosen.value].row.priority >= enqueue.priority)
            && (e.chosen.value == enqueue.job || u.jobs[e.chosen.value].row.priority > enqueue.priority || u.jobs[e.chosen.value].row.createdAt <= s.now)
            && (u.jobs[enqueue.job].row.maxAttempts == enqueue.maxAttempts)
  {
    hide SweepChoice, ClaimChoice, Waits, Beats;
    var t := Next(s, enqueue);
    ClaimParts(t, e);
    ClaimIsPerJob(t, e);
    var row := t.jobs[enqueue.job].row;
    assert enqueue.job !in e.swept;
    if e.chosen != Some(enqueue.job) {
      assert Next(t, e).jobs[enqueue.job].row == row;
      FreshWaits(row, s.workers[e.who.id]);
      ClaimTakesBest(t, e, enqueue.job);
      RankOf(row, Next(t, e).jobs[e.chosen.value].row);
    }
  }

  lemma FreshWaits(j: Job, w: Worker)
    requires j.status == Queued && j.attempts < j.maxAttempts && j.org == w.org && j.required <= w.capabilities && (j.zone == None || j.zone == Some(w.zone))
    ensures Waits(j, w)
  {
  }

  lemma RankOf(a: Job, b: Job)
    requires !Beats(a, b)
    ensures b.priority >= a.priority && (b.priority > a.priority || b.createdAt <= a.createdAt)
  {
  }

  function KindName(k: Kind): string {
    match k
    case Scan => "SCAN"
    case Export => "EXPORT"
    case Module => "MODULE"
    case Ping => "PING"
  }

  /** Each kind implies the capability of its own name in lower case, and no two kinds the same. */
  lemma ImpliedIsLowerCase(k: Kind, other: Kind)
    ensures |Implied(k)| == |KindName(k)| && forall i | 0 <= i < |KindName(k)| :: Implied(k)[i] == LowerChar(KindName(k)[i])
    ensures Implied(k) == Implied(other) <==> k == other
  {
    assert KindName(Scan) == ['S', 'C', 'A', 'N'] && KindName(Export) == ['E', 'X', 'P', 'O', 'R', 'T'];
    assert Implied(Scan) == ['s', 'c', 'a', 'n'] && Implied(Export) == ['e', 'x', 'p', 'o', 'r', 't'];
    assert KindName(Module) == ['M', 'O', 'D', 'U', 'L', 'E'] && KindName(Ping) == ['P', 'I', 'N', 'G'];
    assert Implied(Module) == ['m', 'o', 'd', 'u', 'l', 'e'] && Implied(Ping) == ['p', 'i', 'n', 'g'];
    assert Implied(Scan)[0] != Implied(Ping)[0] && Implied(Export)[0] != Implied(Module)[0];
  }

  /** A job without a zone is taken in for one to ten attempts and no others. */
  lemma OneToTenAttempts(s: System, j: JobId, org: nat, kind: Kind, required: set<string>, priority: int, max: nat)
    requires j !in s.jobs
    ensures j in Next(s, Enqueue(j, org, kind, required, None, priority, max)).jobs <==> 1 <= max <= 10
  {
  }

  // ---------------------------------------------------------------- what a status change does to leases

  /**
   Setting any status but DRAINING ends every lease the worker has ever been given, for good;
   setting DRAINING ends none.
   */
  lemma StatusChangeEndsLeases(s: System, w: WorkerId, status: WorkerStatus, es: seq<Event>, j: JobId, k: nat, c: Credential, succeeded: bool)
    requires Inv(s) && w in s.workers && j in s.jobs && k < |s.jobs[j].grants| && s.jobs[j].grants[k].worker == w
    ensures var t := Next(s, SetStatus(w, status));
            var token := s.jobs[j].grants[k].token;
            && t.workers[w].status == status
            && (status != Draining ==> !Accepted(Run(t, es), Renew(c, j, token)) && !Accepted(Run(t, es), Complete(c, j, token, succeeded)))
            && (status == Draining && s.workers[w].status == Online ==>
                  (Accepted(t, Renew(c, j, token)) <==> Accepted(s, Renew(c, j, token))))
  {
    hide Run;
    var t := Next(s, SetStatus(w, status));
    assert GrantInv(s.jobs[j], s.workers);
    if status != Draining {
      StepKeepsInv(s, SetStatus(w, status));
      BumpedLeaseIsDead(t, es, j, k, c, succeeded);
    }
  }

  // ---------------------------------------------------------------- the object

  /** The service over its two tables. A clock reading comes with every call. */
  class RemoteWorkerService {
    const leaseMs: nat
    var workers: map<WorkerId, Worker>
    var jobs: Jobs

    constructor (leaseMs: nat)
      ensures this.leaseMs == leaseMs && workers == map[] && jobs == map[]
    {
      this.leaseMs, workers, jobs := leaseMs, map[], map[];
    }

    /** The insertion that ends enrolment, under a new random id. */
    method EnrollWorker(id: WorkerId, org: nat, capabilities: set<string>, zone: Option<string>, now: int) returns (ok: bool)
      modifies this`workers
      ensures ok == (id !in old(workers) && NormalZone(zone).Some?)
      ensures workers == if ok then old(workers)[id := Enrolled(org, capabilities, NormalZone(zone).value, now)] else old(workers)
    {
      var normal := NormalZone(zone);
      ok := id !in workers && normal.Some?;
      if ok {
        workers := workers[id := Worker(org, capabilities, normal.value, Online, 1, now)];
      }
    }

    method EnqueueJob(id: JobId, org: nat, kind: Kind, required: set<string>, zone: Option<string>, priority: int, maxAttempts: nat, now: int) returns (ok: bool)
      modifies this`jobs
      ensures ok == (id !in old(jobs) && 1 <= maxAttempts <= 10 && (zone.Some? ==> ValidZone(zone.value)))
      ensures jobs == if ok then old(jobs)[id := NewJob(org, kind, required, zone, priority, maxAttempts, now)] else old(jobs)
    {
      ok := id !in jobs && 1 <= maxAttempts <= 10 && (zone.Some? ==> ValidZone(zone.value));
      if ok {
        var capabilities := {Implied(kind)} + required;
        assert capabilities == required + {Implied(kind)};
        jobs := jobs[id := Job(org, kind, capabilities, zone, priority, now, maxAttempts, Queued, 0, None, None, None, None)];
      }
    }

    method ClaimNow(c: Credential, sweepLocked: set<JobId>, claimLocked: set<JobId>, unused: Token, now: int) returns (ghost swept: set<JobId>, chosen: Option<JobId>)
      modifies this`jobs
      ensures !MayClaim(workers, c, now) ==> chosen == None && jobs == old(jobs)
      ensures MayClaim(workers, c, now) ==>
                && SweepChoice(old(jobs), c.org, sweepLocked, now, swept)
                && var after := AfterSweep(old(jobs), swept);
                   && ClaimChoice(after, workers[c.id], claimLocked, chosen)
                   && jobs == (if chosen.None? then after
                               else after[chosen.value := LeasedTo(after[chosen.value], c.id, c.generation, unused, now + leaseMs)])
      ensures MayClaim(workers, c, now) ==>
                forall other | other in jobs && other !in claimLocked && chosen != Some(other) && Waits(jobs[other], workers[c.id]) ::
                  chosen.Some? && chosen.value in jobs && !Beats(jobs[other], jobs[chosen.value])
    {
      swept, chosen := {}, None;
      if c.status != Online {
        return;
      }
      if !(c.id in workers && workers[c.id].generation == c.generation && workers[c.id].status == Online && workers[c.id].lastSeen > now - FRESH_MS) {
        return;
      }
      SweepChoiceExists(jobs, c.org, sweepLocked, now);
      var expired :| SweepChoice(jobs, c.org, sweepLocked, now, expired);
      swept := expired;
      jobs := map id | id in jobs :: if id in expired then Swept(jobs[id]) else jobs[id];
      ghost var after := jobs;
      ghost var claimable := ClaimChoiceExists(jobs, workers[c.id], claimLocked);
      if Candidates(jobs, workers[c.id], claimLocked) != {} {
        assert BestCandidate(jobs, workers[c.id], claimLocked, claimable.value);
        var id: JobId :| BestCandidate(jobs, workers[c.id], claimLocked, id);
        BestIsEligible(jobs, workers[c.id], claimLocked, id);
        jobs := jobs[id := LeasedTo(jobs[id], c.id, c.generation, unused, now + leaseMs)];
        chosen := Some(id);
      }
      NoneBeatsChosen(after, workers[c.id], claimLocked, chosen, c.generation, unused, now + leaseMs, c.id);
    }

    method RenewLease(c: Credential, id: JobId, token: Token, now: int) returns (ok: bool)
      modifies this`jobs
      ensures ok == (ActiveWorker(workers, c) && id in old(jobs) && HoldsLease(old(jobs)[id], c, token, now))
      ensures jobs == if ok then old(jobs)[id := Renewed(old(jobs)[id], now + leaseMs)] else old(jobs)
    {
      ok := ActiveWorker(workers, c);
      if ok {
        ok := id in jobs && HoldsLease(jobs[id], c, token, now);
        if ok {
          jobs := jobs[id := jobs[id].(status := Running, expires := Some(now + leaseMs))];
        }
      }
    }

    method CompleteJob(c: Credential, id: JobId, token: Token, succeeded: bool, now: int) returns (ok: bool)
      modifies this`jobs
      ensures ok == (ActiveWorker(workers, c) && id in old(jobs) && HoldsLease(old(jobs)[id], c, token, now))
      ensures jobs == if ok then old(jobs)[id := Finished(old(jobs)[id], succeeded)] else old(jobs)
    {
      ok := ActiveWorker(workers, c);
      if ok {
        ok := id in jobs && HoldsLease(jobs[id], c, token, now);
        if ok {
          jobs := jobs[id := jobs[id].(status := if succeeded then Completed else Failed, token := None, expires := None)];
        }
      }
    }

    method RecordHeartbeat(c: Credential, requested: WorkerStatus, now: int) returns (ok: bool)
      requires requested == Online || requested == Draining
      modifies this`workers
      ensures ok == ActiveWorker(old(workers), c)
      ensures workers == if ok then old(workers)[c.id := HeartbeatRow(old(workers)[c.id], requested, now)] else old(workers)
    {
      ok := ActiveWorker(workers, c);
      if ok {
        var w := workers[c.id];
        workers := workers[c.id := w.(status := if w.status == Draining then w.status else requested, lastSeen := now)];
      }
    }

    method SetWorkerStatus(id: WorkerId, status: WorkerStatus) returns (found: bool)
      modifies this`workers
      ensures found == (id in old(workers))
      ensures workers == if found then old(workers)[id := StatusRow(old(workers)[id], status)] else old(workers)
    {
      found := id in workers;
      if found {
        var bump := if status == Draining then 0 else 1;
        workers := workers[id := workers[id].(status := status, generation := workers[id].generation + bump)];
      }
    }
  }
}
